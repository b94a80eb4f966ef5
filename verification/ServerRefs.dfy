/** Opaque server references: `ref_for` and `server_id` over the shared store. */
module ServerRefs {
  import opened Prelude
  import opened SessionStore

  const NS_REFERENCE := "ref"
  const NS_SERVER := "server"

  function ForwardKey(customer: Uuid, server: Uuid): Key { Key(NS_REFERENCE, Join(customer, server)) }
  function ReverseKey(customer: Uuid, ref: string): Key { Key(NS_SERVER, Join(customer, ref)) }
  function RefRecord(ref: string): Record { map["ref" := JStr(ref)] }
  function ServerRecord(server: Uuid): Record { map["server_id" := JStr(server)] }

  /** The non-empty reference a forward record carries. */
  function RefOf(record: Option<Record>): Option<string> {
    if record.None? then None
    else match Field(record.value, "ref")
      case JStr(s) => if s == "" then None else Some(s)
      case _ => None
  }

  function ServerOf(record: Option<Record>): Option<Uuid> {
    if record.None? then None
    else match Field(record.value, "server_id")
      case JStr(s) => if |s| == 36 && ':' !in s then Some(s) else None
      case _ => None
  }

  function Issue(s: Store, customer: Uuid, server: Uuid, ref: string, ttl: int): Store {
    s.Put(ForwardKey(customer, server), RefRecord(ref), ttl).Put(ReverseKey(customer, ref), ServerRecord(server), ttl)
  }

  predicate Held(s: Store, customer: Uuid, ref: string) {
    ReverseKey(customer, ref) in s.entries
  }

  /** The first of the minted tokens nobody holds, or the wider fallback, taken unchecked. */
  function Minted(s: Store, customer: Uuid, tokens: seq<string>, fallback: string): string {
    if tokens == [] then fallback
    else if !Held(s, customer, tokens[0]) then tokens[0]
    else Minted(s, customer, tokens[1..], fallback)
  }

  function RefFor(s: Store, customer: Uuid, server: Uuid, tokens: seq<string>, fallback: string): string {
    var existing := RefOf(s.Get(ForwardKey(customer, server)));
    if existing.Some? then existing.value else Minted(s, customer, tokens, fallback)
  }

  function ServerId(s: Store, customer: Uuid, ref: string): Option<Uuid> {
    if ref == "" || ':' in ref then None else ServerOf(s.Get(ReverseKey(customer, ref)))
  }

  type Ttl = t: int | t >= 30 witness 30

  // -- calls one at a time ------------------------------------------------

  /** `server` is live under `ref`. */
  predicate Forward(s: Store, customer: Uuid, server: Uuid, ref: string) {
    RefOf(s.Get(ForwardKey(customer, server))) == Some(ref)
  }

  predicate Reverse(s: Store, customer: Uuid, ref: string, server: Uuid) {
    ServerOf(s.Get(ReverseKey(customer, ref))) == Some(server)
  }

  /** Whoever still holds a button under a reference finds the server behind it, and the way
      back lives at least as long as the way there. */
  ghost predicate Consistent(s: Store) {
    forall customer, server, ref :: Forward(s, customer, server, ref) ==>
      Reverse(s, customer, ref, server) &&
      s.entries[ForwardKey(customer, server)].deadline <= s.entries[ReverseKey(customer, ref)].deadline
  }

  lemma KeysDiffer(customer: Uuid, x: string, other: Uuid, y: string)
    ensures Key(NS_REFERENCE, Join(customer, x)) != Key(NS_SERVER, Join(other, y))
    ensures Join(customer, x) == Join(other, y) <==> customer == other && x == y
  {
    assert |NS_REFERENCE| == 3 && |NS_SERVER| == 6;
    if Join(customer, x) == Join(other, y) {
      JoinInjective(customer, x, other, y);
    }
  }

  lemma IssueEntries(s: Store, customer: Uuid, server: Uuid, ref: string, ttl: int)
    requires ref != ""
    ensures var t := Issue(s, customer, server, ref, ttl);
            && (forall c, v, r :: Forward(t, c, v, r) <==>
                  if c == customer && v == server then r == ref else Forward(s, c, v, r))
            && (forall c, v, r :: Reverse(t, c, r, v) <==>
                  if c == customer && r == ref then v == server else Reverse(s, c, r, v))
            && (forall c, v :: ForwardKey(c, v) in t.entries && !(c == customer && v == server) ==>
                  ForwardKey(c, v) in s.entries && t.entries[ForwardKey(c, v)] == s.entries[ForwardKey(c, v)])
            && (forall c, r :: ReverseKey(c, r) in t.entries && !(c == customer && r == ref) ==>
                  ReverseKey(c, r) in s.entries && t.entries[ReverseKey(c, r)] == s.entries[ReverseKey(c, r)])
            && ForwardKey(customer, server) in t.entries && ReverseKey(customer, ref) in t.entries
            && t.entries[ForwardKey(customer, server)].deadline == s.now + ttl
            && t.entries[ReverseKey(customer, ref)].deadline == s.now + ttl
  {
    forall c: Uuid, x: string, d: Uuid, y: string
      ensures Key(NS_REFERENCE, Join(c, x)) != Key(NS_SERVER, Join(d, y))
      ensures Join(c, x) == Join(d, y) <==> c == d && x == y
    {
      KeysDiffer(c, x, d, y);
    }
  }

  ghost predicate Bounded(s: Store, ttl: int) {
    forall k :: k in s.entries ==> s.entries[k].deadline <= s.now + ttl
  }

  /** Another server of this customer that is live under `ref`. */
  ghost predicate Clash(s: Store, customer: Uuid, server: Uuid, ref: string) {
    exists other :: other != server && Forward(s, customer, other, ref)
  }

  /** One call keeps the store consistent unless its reference is live for another server: only
      the unchecked fallback can be, or a reference already found under this server. */
  lemma IssueConsistentIff(s: Store, customer: Uuid, server: Uuid, ref: string, ttl: int)
    requires Consistent(s) && Bounded(s, ttl) && ref != ""
    ensures Consistent(Issue(s, customer, server, ref, ttl)) <==> !Clash(s, customer, server, ref)
  {
    IssueEntries(s, customer, server, ref, ttl);
    var t := Issue(s, customer, server, ref, ttl);
    if other :| other != server && Forward(s, customer, other, ref) {
      assert Forward(t, customer, other, ref) && Reverse(t, customer, ref, server);
    }
  }

  lemma {:induction false} MintedIsFree(s: Store, customer: Uuid, tokens: seq<string>, fallback: string)
    ensures Minted(s, customer, tokens, fallback) == fallback ||
            !Held(s, customer, Minted(s, customer, tokens, fallback))
    ensures Minted(s, customer, tokens, fallback) == fallback || Minted(s, customer, tokens, fallback) in tokens
  {
    if tokens != [] && Held(s, customer, tokens[0]) {
      MintedIsFree(s, customer, tokens[1..], fallback);
    }
  }

  predicate Token(t: string) {
    t != "" && ':' !in t
  }

  /** `ref_for` breaks consistency exactly when it has to mint, finds all six tokens held, and
      the wider token it then takes unchecked is live for another server of this customer. */
  lemma RefForConsistentIff(s: Store, customer: Uuid, server: Uuid, tokens: seq<string>, fallback: string, ttl: int)
    requires Consistent(s) && Bounded(s, ttl)
    requires Token(fallback) && forall t :: t in tokens ==> Token(t)
    ensures var ref := RefFor(s, customer, server, tokens, fallback);
            Consistent(Issue(s, customer, server, ref, ttl)) <==>
            !(&& RefOf(s.Get(ForwardKey(customer, server))).None?
              && (forall t :: t in tokens ==> Held(s, customer, t))
              && Clash(s, customer, server, fallback))
  {
    var ref := RefFor(s, customer, server, tokens, fallback);
    MintedIsFree(s, customer, tokens, fallback);
    AllHeld(s, customer, tokens, fallback);
    IssueConsistentIff(s, customer, server, ref, ttl);
  }

  lemma {:induction false} AllHeld(s: Store, customer: Uuid, tokens: seq<string>, fallback: string)
    ensures (forall t :: t in tokens ==> Held(s, customer, t)) ==> Minted(s, customer, tokens, fallback) == fallback
    ensures !(forall t :: t in tokens ==> Held(s, customer, t)) ==>
              !Held(s, customer, Minted(s, customer, tokens, fallback))
  {
    if tokens != [] {
      AllHeld(s, customer, tokens[1..], fallback);
    }
  }

  lemma TickConsistent(s: Store, d: nat)
    requires Consistent(s)
    ensures Consistent(s.Tick(d))
  {
    var t := s.Tick(d);
    forall customer, server, ref | Forward(t, customer, server, ref)
      ensures Reverse(t, customer, ref, server)
      ensures t.entries[ForwardKey(customer, server)].deadline <= t.entries[ReverseKey(customer, ref)].deadline
    {
      assert Forward(s, customer, server, ref);
    }
  }

  /** No two servers of a customer share a live reference. */
  lemma LiveRefsAreDistinct(s: Store, customer: Uuid, server: Uuid, other: Uuid, ref: string)
    requires Consistent(s) && Forward(s, customer, server, ref) && Forward(s, customer, other, ref)
    ensures server == other
  {
  }

  /** What a reference resolves to, and what a server is live under, in terms of the records. */
  lemma ResolvesIff(s: Store, customer: Uuid, ref: string, server: Uuid)
    ensures ServerId(s, customer, ref) == Some(server) <==>
              && ref != "" && ':' !in ref
              && exists record: Record :: s.Get(Key("server", customer + ":" + ref)) == Some(record) &&
                                          "server_id" in record && record["server_id"] == JStr(server)
    ensures Forward(s, customer, server, ref) <==>
              && ref != ""
              && exists record: Record :: s.Get(Key("ref", customer + ":" + server)) == Some(record) &&
                                          "ref" in record && record["ref"] == JStr(ref)
  {
    assert ReverseKey(customer, ref) == Key("server", customer + ":" + ref);
    assert ForwardKey(customer, server) == Key("ref", customer + ":" + server);
  }

  // -- what a call answers --------------------------------------------------

  /** A live reference is answered again, whatever is minted, and both its entries live on. */
  lemma LiveRefIsKept(s: Store, customer: Uuid, server: Uuid, ref: string, tokens: seq<string>, fallback: string,
                      ttl: int)
    requires Forward(s, customer, server, ref) && Token(ref)
    ensures RefFor(s, customer, server, tokens, fallback) == ref
    ensures var t := Issue(s, customer, server, ref, ttl);
            && Forward(t, customer, server, ref) && ServerId(t, customer, ref) == Some(server)
            && t.entries[ForwardKey(customer, server)].deadline == s.now + ttl
            && t.entries[ReverseKey(customer, ref)].deadline == s.now + ttl
  {
    IssueEntries(s, customer, server, ref, ttl);
    assert Reverse(Issue(s, customer, server, ref, ttl), customer, ref, server);
  }

  /** Without one, the answer is the first of the tokens that no server of this customer holds,
      or else the fallback; and it is live then. */
  lemma NewRefIsFirstFree(s: Store, customer: Uuid, server: Uuid, tokens: seq<string>, fallback: string, ttl: int)
    requires forall ref :: !Forward(s, customer, server, ref)
    requires Token(fallback) && forall t :: t in tokens ==> Token(t)
    ensures var ref := RefFor(s, customer, server, tokens, fallback);
            && (|| (exists i :: 0 <= i < |tokens| && ref == tokens[i] && !Held(s, customer, tokens[i]) &&
                                forall j :: 0 <= j < i ==> Held(s, customer, tokens[j]))
                || (ref == fallback && forall j :: 0 <= j < |tokens| ==> Held(s, customer, tokens[j])))
            && Forward(Issue(s, customer, server, ref, ttl), customer, server, ref)
            && ServerId(Issue(s, customer, server, ref, ttl), customer, ref) == Some(server)
  {
    var existing := RefOf(s.Get(ForwardKey(customer, server)));
    assert existing.Some? ==> Forward(s, customer, server, existing.value);
    var ref := RefFor(s, customer, server, tokens, fallback);
    var k := FirstFree(s, customer, tokens, fallback);
    MintedIsFree(s, customer, tokens, fallback);
    LiveAfterIssue(s, customer, server, ref, ttl);
  }

  lemma LiveAfterIssue(s: Store, customer: Uuid, server: Uuid, ref: string, ttl: int)
    requires Token(ref)
    ensures Forward(Issue(s, customer, server, ref, ttl), customer, server, ref)
    ensures ServerId(Issue(s, customer, server, ref, ttl), customer, ref) == Some(server)
  {
    IssueEntries(s, customer, server, ref, ttl);
    assert Reverse(Issue(s, customer, server, ref, ttl), customer, ref, server);
  }

  lemma {:induction false} FirstFree(s: Store, customer: Uuid, tokens: seq<string>, fallback: string) returns (k: nat)
    ensures k <= |tokens| && Minted(s, customer, tokens, fallback) == if k < |tokens| then tokens[k] else fallback
    ensures k < |tokens| ==> !Held(s, customer, tokens[k])
    ensures forall j :: 0 <= j < k ==> Held(s, customer, tokens[j])
  {
    if tokens == [] || !Held(s, customer, tokens[0]) {
      k := 0;
    } else {
      var rest := FirstFree(s, customer, tokens[1..], fallback);
      k := rest + 1;
      forall j | 0 <= j < k ensures Held(s, customer, tokens[j]) {
        if j > 0 { assert tokens[j] == tokens[1..][j - 1]; }
      }
    }
  }

  // -- runs of whole calls --------------------------------------------------

  datatype Event = CallFor(customer: Uuid, server: Uuid, tokens: seq<string>, fallback: string) | Pass(d: nat)

  function After(s: Store, e: Event, ttl: Ttl): Store {
    match e
    case CallFor(customer, server, tokens, fallback) =>
      Issue(s, customer, server, RefFor(s, customer, server, tokens, fallback), ttl)
    case Pass(d) => s.Tick(d)
  }

  /** The one bad luck the code does not guard against. */
  ghost predicate FallbackClashes(s: Store, e: Event) {
    e.CallFor? && RefOf(s.Get(ForwardKey(e.customer, e.server))).None? &&
    (forall t :: t in e.tokens ==> Held(s, e.customer, t)) && Clash(s, e.customer, e.server, e.fallback)
  }

  ghost predicate Run(states: seq<Store>, events: seq<Event>, ttl: Ttl) {
    && |states| == |events| + 1 && states[0] == EMPTY
    && (forall i :: 0 <= i < |events| ==> states[i + 1] == After(states[i], events[i], ttl))
    && (forall i :: 0 <= i < |events| ==> Proper(events[i]))
  }

  predicate Proper(e: Event) {
    e.CallFor? ==> |e.tokens| == 6 && Token(e.fallback) && forall t :: t in e.tokens ==> Token(t)
  }

  lemma StepConsistentIff(s: Store, e: Event, ttl: Ttl)
    requires Bounded(s, ttl) && Proper(e)
    ensures Bounded(After(s, e, ttl), ttl)
    ensures Consistent(s) ==> (Consistent(After(s, e, ttl)) <==> !FallbackClashes(s, e))
  {
    if Consistent(s) {
      match e
      case CallFor(customer, server, tokens, fallback) =>
        RefForConsistentIff(s, customer, server, tokens, fallback, ttl);
      case Pass(d) => TickConsistent(s, d);
    }
  }

  /** Over any run of calls and clock ticks, with tokens that may well repeat, the store stays
      consistent at every call boundary exactly as long as no fallback clashed. */
  lemma {:induction false} RunConsistentIff(states: seq<Store>, events: seq<Event>, ttl: Ttl, k: nat)
    requires Run(states, events, ttl) && k < |states|
    ensures Bounded(states[k], ttl)
    ensures (forall i :: 0 <= i <= k ==> Consistent(states[i])) <==>
            forall i :: 0 <= i < k ==> !FallbackClashes(states[i], events[i])
  {
    if k > 0 {
      RunConsistentIff(states, events, ttl, k - 1);
      StepConsistentIff(states[k - 1], events[k - 1], ttl);
    }
  }

  // -- a reference lasts ------------------------------------------------------

  /** The server is live under ref, until that time at least. */
  predicate LiveUntil(s: Store, customer: Uuid, server: Uuid, ref: string, time: int) {
    Forward(s, customer, server, ref) && s.entries[ForwardKey(customer, server)].deadline >= time
  }

  /** Neither other calls nor a call for the same server change that, before the time is over. */
  lemma LiveStays(s: Store, e: Event, ttl: Ttl, customer: Uuid, server: Uuid, ref: string, time: int)
    requires LiveUntil(s, customer, server, ref, time) && Token(ref) && Proper(e)
    requires After(s, e, ttl).now < time <= s.now + ttl
    ensures LiveUntil(After(s, e, ttl), customer, server, ref, time)
  {
    if e.CallFor? {
      RefForIsToken(s, e.customer, e.server, e.tokens, e.fallback);
      var got := RefFor(s, e.customer, e.server, e.tokens, e.fallback);
      IssueEntries(s, e.customer, e.server, got, ttl);
      assert e.customer == customer && e.server == server ==> got == ref;
      assert Forward(After(s, e, ttl), customer, server, ref);
    }
  }

  lemma TimeMoves(s: Store, e: Event, ttl: Ttl)
    ensures After(s, e, ttl).now == s.now + if e.Pass? then e.d else 0
  {
  }

  lemma {:induction false} TimeOnlyMoves(states: seq<Store>, events: seq<Event>, ttl: Ttl, i: nat, j: nat)
    requires Run(states, events, ttl) && i <= j < |states|
    ensures states[i].now <= states[j].now
    decreases j
  {
    if i < j {
      TimeOnlyMoves(states, events, ttl, i, j - 1);
      TimeMoves(states[j - 1], events[j - 1], ttl);
    }
  }

  /** From a call on, for less than ttl, the server is live under what the call answered. */
  lemma {:induction false} AnsweredIsLive(states: seq<Store>, events: seq<Event>, ttl: Ttl, i: nat, j: nat)
    requires Run(states, events, ttl) && i < j < |states| && events[i].CallFor?
    requires states[j].now < states[i].now + ttl
    ensures var e := events[i];
            LiveUntil(states[j], e.customer, e.server, RefFor(states[i], e.customer, e.server, e.tokens, e.fallback),
                      states[i].now + ttl)
    decreases j
  {
    var e := events[i];
    var ref := RefFor(states[i], e.customer, e.server, e.tokens, e.fallback);
    RefForIsAToken(states, events, ttl, i);
    if j == i + 1 {
      IssueEntries(states[i], e.customer, e.server, ref, ttl);
    } else {
      TimeOnlyMoves(states, events, ttl, j - 1, j);
      TimeOnlyMoves(states, events, ttl, i, j - 1);
      AnsweredIsLive(states, events, ttl, i, j - 1);
      LiveStays(states[j - 1], events[j - 1], ttl, e.customer, e.server, ref, states[i].now + ttl);
    }
  }

  /** Every live reference is a token. */
  ghost predicate LiveAreTokens(s: Store) {
    forall customer, server, ref :: Forward(s, customer, server, ref) ==> Token(ref)
  }

  lemma {:induction false} LiveRefsAreTokens(states: seq<Store>, events: seq<Event>, ttl: Ttl, k: nat)
    requires Run(states, events, ttl) && k < |states|
    ensures LiveAreTokens(states[k])
  {
    if k > 0 {
      LiveRefsAreTokens(states, events, ttl, k - 1);
      TokensStay(states[k - 1], events[k - 1], ttl);
    }
  }

  lemma AnswerIsToken(s: Store, e: Event)
    requires LiveAreTokens(s) && e.CallFor? && Proper(e)
    ensures Token(RefFor(s, e.customer, e.server, e.tokens, e.fallback))
  {
    var existing := RefOf(s.Get(ForwardKey(e.customer, e.server)));
    assert existing.Some? ==> Forward(s, e.customer, e.server, existing.value);
    MintedIsFree(s, e.customer, e.tokens, e.fallback);
  }

  lemma TokensStay(s: Store, e: Event, ttl: Ttl)
    requires LiveAreTokens(s) && Proper(e)
    ensures LiveAreTokens(After(s, e, ttl))
  {
    var t := After(s, e, ttl);
    if e.CallFor? {
      AnswerIsToken(s, e);
      IssueEntries(s, e.customer, e.server, RefFor(s, e.customer, e.server, e.tokens, e.fallback), ttl);
    } else {
      forall customer, server, ref | Forward(t, customer, server, ref) ensures Token(ref) {
        assert Forward(s, customer, server, ref);
      }
    }
  }

  lemma RefForIsAToken(states: seq<Store>, events: seq<Event>, ttl: Ttl, i: nat)
    requires Run(states, events, ttl) && i < |events| && events[i].CallFor?
    ensures Token(RefFor(states[i], events[i].customer, events[i].server, events[i].tokens, events[i].fallback))
  {
    LiveRefsAreTokens(states, events, ttl, i);
    AnswerIsToken(states[i], events[i]);
  }

  /** Two calls for one server, less than ttl apart, answer alike, whatever happens in between;
      and as long as no fallback clashed that reference resolves to the server all the while. */
  lemma RepeatedCallsAnswerAlike(states: seq<Store>, events: seq<Event>, ttl: Ttl, i: nat, j: nat)
    requires Run(states, events, ttl) && i < j < |events| && events[i].CallFor? && events[j].CallFor?
    requires events[i].customer == events[j].customer && events[i].server == events[j].server
    requires states[j].now < states[i].now + ttl
    ensures var e, f := events[i], events[j];
            && RefFor(states[j], f.customer, f.server, f.tokens, f.fallback)
               == RefFor(states[i], e.customer, e.server, e.tokens, e.fallback)
            && (Consistent(states[j]) ==>
                  ServerId(states[j], e.customer, RefFor(states[i], e.customer, e.server, e.tokens, e.fallback))
                  == Some(e.server))
  {
    var e := events[i];
    var ref := RefFor(states[i], e.customer, e.server, e.tokens, e.fallback);
    RefForIsAToken(states, events, ttl, i);
    AnsweredIsLive(states, events, ttl, i, j);
    assert Consistent(states[j]) ==> Reverse(states[j], e.customer, ref, e.server);
  }

  // -- the bad luck can happen ----------------------------------------------

  /** One customer's calls, for one server after the other, all minting the same tokens. */
  function Calls(customer: Uuid, servers: seq<Uuid>, tokens: seq<string>, fallback: string): seq<Event> {
    seq(|servers|, i requires 0 <= i < |servers| => CallFor(customer, servers[i], tokens, fallback))
  }

  function StateAt(events: seq<Event>, ttl: Ttl, k: nat): Store
    requires k <= |events|
  {
    if k == 0 then EMPTY else After(StateAt(events, ttl, k - 1), events[k - 1], ttl)
  }

  /** The servers are live under these names, each in its place, and nothing else is held. */
  ghost predicate LiveAre(s: Store, customer: Uuid, servers: seq<Uuid>, names: seq<string>) {
    && |names| <= |servers|
    && (forall r :: Held(s, customer, r) ==> r in names)
    && (forall i :: 0 <= i < |names| ==> Held(s, customer, names[i]) && Forward(s, customer, servers[i], names[i]))
    && (forall v, r :: Forward(s, customer, v, r) ==> v in servers[..|names|])
  }

  lemma OneMoreLive(s: Store, customer: Uuid, servers: seq<Uuid>, names: seq<string>, ref: string, ttl: int)
    requires LiveAre(s, customer, servers, names) && |names| < |servers| && ref != ""
    requires servers[|names|] !in servers[..|names|]
    ensures LiveAre(Issue(s, customer, servers[|names|], ref, ttl), customer, servers, names + [ref])
  {
    var t := Issue(s, customer, servers[|names|], ref, ttl);
    IssueEntries(s, customer, servers[|names|], ref, ttl);
    assert servers[..|names| + 1] == servers[..|names|] + [servers[|names|]];
    forall i | 0 <= i < |names| ensures Forward(t, customer, servers[i], names[i]) {
      assert servers[i] in servers[..|names|];
    }
  }

  lemma {:induction false} MintedInTurn(s: Store, customer: Uuid, tokens: seq<string>, fallback: string, k: nat)
    requires k <= |tokens| && (forall i :: 0 <= i < k ==> Held(s, customer, tokens[i]))
    requires k < |tokens| ==> !Held(s, customer, tokens[k])
    ensures Minted(s, customer, tokens, fallback) == (tokens + [fallback])[k]
  {
    if k > 0 {
      MintedInTurn(s, customer, tokens[1..], fallback, k - 1);
    }
  }

  predicate Distinct<T(==)>(items: seq<T>) {
    forall i, j :: 0 <= i < j < |items| ==> items[i] != items[j]
  }

  lemma NotYetLive(s: Store, customer: Uuid, servers: seq<Uuid>, names: seq<string>)
    requires LiveAre(s, customer, servers, names) && |names| < |servers| && Distinct(servers)
    ensures servers[|names|] !in servers[..|names|]
    ensures RefOf(s.Get(ForwardKey(customer, servers[|names|]))).None?
  {
    var existing := RefOf(s.Get(ForwardKey(customer, servers[|names|])));
    assert existing.Some? ==> Forward(s, customer, servers[|names|], existing.value);
  }

  /** The next call mints the first token not yet live, or else takes the fallback. */
  lemma NextMinted(s: Store, customer: Uuid, servers: seq<Uuid>, tokens: seq<string>, fallback: string, k: nat)
    requires Distinct(tokens) && k <= |tokens| < |servers| && Distinct(servers)
    requires LiveAre(s, customer, servers, (tokens + [fallback])[..k])
    ensures RefFor(s, customer, servers[k], tokens, fallback) == (tokens + [fallback])[k]
  {
    var names := (tokens + [fallback])[..k];
    assert names == tokens[..k];
    assert k < |tokens| ==> tokens[k] !in names;
    MintedInTurn(s, customer, tokens, fallback, k);
    NotYetLive(s, customer, servers, names);
  }

  lemma NextLive(s: Store, customer: Uuid, servers: seq<Uuid>, tokens: seq<string>, fallback: string, ttl: Ttl, k: nat)
    requires Distinct(tokens) && (forall i :: 0 <= i < |tokens| ==> Token(tokens[i])) && Token(fallback)
    requires Distinct(servers) && k <= |tokens| < |servers|
    requires LiveAre(s, customer, servers, (tokens + [fallback])[..k])
    ensures LiveAre(After(s, CallFor(customer, servers[k], tokens, fallback), ttl), customer, servers,
                    (tokens + [fallback])[..k + 1])
  {
    var all := tokens + [fallback];
    assert all[..k + 1] == all[..k] + [all[k]];
    assert Token(all[k]);
    NextMinted(s, customer, servers, tokens, fallback, k);
    NotYetLive(s, customer, servers, all[..k]);
    OneMoreLive(s, customer, servers, all[..k], all[k], ttl);
  }

  lemma {:induction false} TokensRunOut(customer: Uuid, servers: seq<Uuid>, tokens: seq<string>, fallback: string,
                                        ttl: Ttl, k: nat)
    requires Distinct(tokens) && (forall i :: 0 <= i < |tokens| ==> Token(tokens[i])) && Token(fallback)
    requires Distinct(servers) && |tokens| < |servers| && k <= |tokens| + 1
    ensures LiveAre(StateAt(Calls(customer, servers, tokens, fallback), ttl, k), customer, servers,
                    (tokens + [fallback])[..k])
  {
    var events := Calls(customer, servers, tokens, fallback);
    if k == 0 {
      assert (tokens + [fallback])[..0] == [];
      NothingLive(customer, servers);
    } else {
      TokensRunOut(customer, servers, tokens, fallback, ttl, k - 1);
      NextLive(StateAt(events, ttl, k - 1), customer, servers, tokens, fallback, ttl, k - 1);
    }
  }

  lemma NothingLive(customer: Uuid, servers: seq<Uuid>)
    ensures LiveAre(EMPTY, customer, servers, [])
  {
  }

  lemma TakenFallbackClashes(s: Store, customer: Uuid, servers: seq<Uuid>, tokens: seq<string>, fallback: string,
                             ttl: Ttl)
    requires |servers| == |tokens| + 2 && Distinct(servers) && Token(fallback)
    requires LiveAre(s, customer, servers, tokens + [fallback])
    ensures var e := CallFor(customer, servers[|tokens| + 1], tokens, fallback);
            FallbackClashes(s, e) && !Consistent(After(s, e, ttl))
  {
    var last := servers[|tokens| + 1];
    var names := tokens + [fallback];
    forall i | 0 <= i < |tokens| ensures Held(s, customer, tokens[i]) {
      assert names[i] == tokens[i];
    }
    assert names[|tokens|] == fallback;
    assert Clash(s, customer, last, fallback);
    NotYetLive(s, customer, servers, names);
    AllHeld(s, customer, tokens, fallback);
    IssueEntries(s, customer, last, fallback, ttl);
    var t := Issue(s, customer, last, fallback, ttl);
    assert Forward(t, customer, servers[|tokens|], fallback) && Reverse(t, customer, fallback, last);
  }

  function States(events: seq<Event>, ttl: Ttl): seq<Store> {
    seq(|events| + 1, i requires 0 <= i <= |events| => StateAt(events, ttl, i))
  }

  lemma StatesAreRun(events: seq<Event>, ttl: Ttl)
    requires forall i :: 0 <= i < |events| ==> Proper(events[i])
    ensures Run(States(events, ttl), events, ttl)
  {
  }

  /** Eight servers of one customer, six tokens minted over and over, one fallback: the seventh
      server gets the fallback and the eighth takes it from it. */
  lemma FallbackCanClash(customer: Uuid, servers: seq<Uuid>, tokens: seq<string>, fallback: string, ttl: Ttl)
    requires |servers| == 8 && Distinct(servers)
    requires |tokens| == 6 && Distinct(tokens) && (forall i :: 0 <= i < |tokens| ==> Token(tokens[i])) &&
             Token(fallback)
    ensures var events := Calls(customer, servers, tokens, fallback);
            var states := States(events, ttl);
            Run(states, events, ttl) && FallbackClashes(states[7], events[7]) && !Consistent(states[8])
  {
    var events := Calls(customer, servers, tokens, fallback);
    StatesAreRun(events, ttl);
    TokensRunOut(customer, servers, tokens, fallback, ttl, 7);
    assert (tokens + [fallback])[..7] == tokens + [fallback];
    TakenFallbackClashes(StateAt(events, ttl, 7), customer, servers, tokens, fallback, ttl);
  }

  lemma RefForIsToken(s: Store, customer: Uuid, server: Uuid, tokens: seq<string>, fallback: string)
    requires Token(fallback) && forall t :: t in tokens ==> Token(t)
    ensures RefFor(s, customer, server, tokens, fallback) != ""
  {
    MintedIsFree(s, customer, tokens, fallback);
  }

  /** A reference resolves only to a server some earlier call of the same customer got it for. */
  lemma {:induction false} ResolvesToIssued(states: seq<Store>, events: seq<Event>, ttl: Ttl, k: nat,
                                            customer: Uuid, ref: string, server: Uuid)
    requires Run(states, events, ttl) && k < |states|
    requires ServerId(states[k], customer, ref) == Some(server)
    ensures exists i ::
              0 <= i < k && events[i].CallFor? && events[i].customer == customer && events[i].server == server &&
              RefFor(states[i], customer, server, events[i].tokens, events[i].fallback) == ref
  {
    if k > 0 {
      assert Reverse(states[k], customer, ref, server);
      match events[k - 1]
      case CallFor(c, v, tokens, fallback) =>
        RefForIsToken(states[k - 1], c, v, tokens, fallback);
        var got := RefFor(states[k - 1], c, v, tokens, fallback);
        IssueEntries(states[k - 1], c, v, got, ttl);
        if !(c == customer && got == ref) {
          ResolvesToIssued(states, events, ttl, k - 1, customer, ref, server);
        }
      case Pass(d) =>
        ResolvesToIssued(states, events, ttl, k - 1, customer, ref, server);
    }
  }
}
