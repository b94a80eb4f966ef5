/** Any number of replicas running `ref_for` at once, one store operation at a time. */
module RefRaces {
  import opened Prelude
  import opened SessionStore
  import opened ServerRefs

  datatype Pc =
    | Reading
    | Minting(tries: nat)
    | PuttingForward(ref: string)
    | PuttingReverse(ref: string)
    | Returned(ref: string)

  datatype Call = Call(customer: Uuid, server: Uuid, pc: Pc)

  /** `owner` remembers for whom each token was ever minted. */
  datatype System = System(store: Store, calls: map<nat, Call>, owner: map<string, (Uuid, Uuid)>)

  datatype Event =
    | Begin(id: nat, customer: Uuid, server: Uuid)
    | Read(id: nat)
    | Mint(id: nat, token: string)
    | PutForward(id: nat)
    | PutReverse(id: nat)
    | Pass(d: nat)

  /** The one assumption about the token source: it never repeats itself. */
  ghost predicate Enabled(s: System, e: Event) {
    match e
    case Begin(id, _, _) => id !in s.calls
    case Read(id) => id in s.calls && s.calls[id].pc.Reading?
    case Mint(id, token) => id in s.calls && s.calls[id].pc.Minting? && Token(token) && token !in s.owner
    case PutForward(id) => id in s.calls && s.calls[id].pc.PuttingForward?
    case PutReverse(id) => id in s.calls && s.calls[id].pc.PuttingReverse?
    case Pass(_) => true
  }

  function At(s: System, id: nat, pc: Pc): System
    requires id in s.calls
  {
    s.(calls := s.calls[id := s.calls[id].(pc := pc)])
  }

  function After(s: System, e: Event, ttl: int): System
    requires Enabled(s, e)
  {
    match e
    case Begin(id, customer, server) => s.(calls := s.calls[id := Call(customer, server, Reading)])
    case Read(id) =>
      var call := s.calls[id];
      var existing := RefOf(s.store.Get(ForwardKey(call.customer, call.server)));
      At(s, id, if existing.Some? then PuttingForward(existing.value) else Minting(0))
    case Mint(id, token) =>
      var call := s.calls[id];
      var minted := s.(owner := s.owner[token := (call.customer, call.server)]);
      if call.pc.tries < 6 && Held(s.store, call.customer, token) then At(minted, id, Minting(call.pc.tries + 1))
      else At(minted, id, PuttingForward(token))
    case PutForward(id) =>
      var call := s.calls[id];
      var put := s.(store := s.store.Put(ForwardKey(call.customer, call.server), RefRecord(call.pc.ref), ttl));
      At(put, id, PuttingReverse(call.pc.ref))
    case PutReverse(id) =>
      var call := s.calls[id];
      var put := s.(store := s.store.Put(ReverseKey(call.customer, call.pc.ref), ServerRecord(call.server), ttl));
      At(put, id, Returned(call.pc.ref))
    case Pass(d) => s.(store := s.store.Tick(d))
  }

  const START := System(EMPTY, map[], map[])

  /** `states` is a run of the events. */
  ghost predicate Run(states: seq<System>, events: seq<Event>, ttl: int) {
    && |states| == |events| + 1 && states[0] == START
    && forall i :: 0 <= i < |events| ==>
         Enabled(states[i], events[i]) && states[i + 1] == After(states[i], events[i], ttl)
  }

  // -- what a call does -----------------------------------------------------

  function Mints(events: seq<Event>, k: nat, id: nat): nat
    requires k <= |events|
  {
    if k == 0 then 0 else Mints(events, k - 1, id) + if events[k - 1].Mint? && events[k - 1].id == id then 1 else 0
  }

  /** A call that mints has minted as often before as it counts, and at most six times. */
  lemma {:induction false} TriesAreCounted(states: seq<System>, events: seq<Event>, ttl: int, k: nat, id: nat)
    requires Run(states, events, ttl) && k < |states|
    ensures id in states[k].calls && states[k].calls[id].pc.Minting? ==>
              states[k].calls[id].pc.tries == Mints(events, k, id) <= 6
    ensures id !in states[k].calls || states[k].calls[id].pc.Reading? ==> Mints(events, k, id) == 0
  {
    if k > 0 {
      TriesAreCounted(states, events, ttl, k - 1, id);
      assert Enabled(states[k - 1], events[k - 1]);
      assert states[k] == After(states[k - 1], events[k - 1], ttl);
    }
  }

  /** A call keeps the live reference it reads; else it takes the first of six tokens nobody holds
      when it is minted, or the seventh unchecked; and it answers what it took. */
  lemma StepAnswers(states: seq<System>, events: seq<Event>, ttl: int, k: nat)
    requires Run(states, events, ttl) && k < |events| && (events[k].Read? || events[k].Mint?)
    ensures var s, e, t := states[k], events[k], states[k + 1];
            var call := s.calls[e.id];
            && t.store == s.store
            && (e.Read? ==> forall ref :: Forward(s.store, call.customer, call.server, ref) ==>
                  t.calls[e.id].pc == PuttingForward(ref))
            && (e.Read? && (forall ref :: !Forward(s.store, call.customer, call.server, ref)) ==>
                  t.calls[e.id].pc.Minting?)
            && (e.Mint? ==>
                  if Mints(events, k, e.id) < 6 && Held(s.store, call.customer, e.token) then t.calls[e.id].pc.Minting?
                  else t.calls[e.id].pc == PuttingForward(e.token))
  {
    assert Enabled(states[k], events[k]);
    TriesAreCounted(states, events, ttl, k, events[k].id);
    if events[k].Read? {
      var call := states[k].calls[events[k].id];
      var existing := RefOf(states[k].store.Get(ForwardKey(call.customer, call.server)));
      assert existing.Some? ==> Forward(states[k].store, call.customer, call.server, existing.value);
    }
  }

  // -- the invariant ------------------------------------------------------

  ghost predicate Owns(s: System, customer: Uuid, server: Uuid, ref: string) {
    Token(ref) && ref in s.owner && s.owner[ref] == (customer, server)
  }

  predicate HasRef(pc: Pc) {
    pc.PuttingForward? || pc.PuttingReverse? || pc.Returned?
  }

  /** A call that has written the way there and not yet the way back. */
  ghost predicate Pending(s: System, customer: Uuid, server: Uuid, ref: string) {
    exists id :: id in s.calls && s.calls[id] == Call(customer, server, PuttingReverse(ref))
  }

  ghost predicate Covered(s: Store, customer: Uuid, server: Uuid, ref: string) {
    && Reverse(s, customer, ref, server)
    && (ForwardKey(customer, server) in s.entries ==>
          s.entries[ForwardKey(customer, server)].deadline <= s.entries[ReverseKey(customer, ref)].deadline)
  }

  ghost predicate Inv(s: System, ttl: int) {
    && Bounded(s.store, ttl)
    && (forall id :: id in s.calls && HasRef(s.calls[id].pc) ==>
          Owns(s, s.calls[id].customer, s.calls[id].server, s.calls[id].pc.ref))
    && (forall customer, server, ref :: Forward(s.store, customer, server, ref) ==>
          Owns(s, customer, server, ref) &&
          (Covered(s.store, customer, server, ref) || Pending(s, customer, server, ref)))
    && (forall customer, server, ref :: Reverse(s.store, customer, ref, server) ==> Owns(s, customer, server, ref))
  }

  lemma PutForwardEntries(s: Store, customer: Uuid, server: Uuid, ref: string, ttl: int)
    requires ref != ""
    ensures var t := s.Put(ForwardKey(customer, server), RefRecord(ref), ttl);
            && (forall c, v, r :: Forward(t, c, v, r) <==>
                  if c == customer && v == server then r == ref else Forward(s, c, v, r))
            && (forall c, r :: t.Get(ReverseKey(c, r)) == s.Get(ReverseKey(c, r)))
            && (forall c, r :: ReverseKey(c, r) in s.entries ==>
                  ReverseKey(c, r) in t.entries && t.entries[ReverseKey(c, r)] == s.entries[ReverseKey(c, r)])
            && (forall c, v :: ForwardKey(c, v) in t.entries && !(c == customer && v == server) ==>
                  ForwardKey(c, v) in s.entries && t.entries[ForwardKey(c, v)] == s.entries[ForwardKey(c, v)])
  {
    forall c: Uuid, x: string, d: Uuid, y: string
      ensures Key(NS_REFERENCE, Join(c, x)) != Key(NS_SERVER, Join(d, y))
      ensures Join(c, x) == Join(d, y) <==> c == d && x == y
    {
      KeysDiffer(c, x, d, y);
    }
  }

  lemma PutReverseEntries(s: Store, customer: Uuid, server: Uuid, ref: string, ttl: int)
    ensures var t := s.Put(ReverseKey(customer, ref), ServerRecord(server), ttl);
            && (forall c, v, r :: Reverse(t, c, r, v) <==>
                  if c == customer && r == ref then v == server else Reverse(s, c, r, v))
            && (forall c, v :: t.Get(ForwardKey(c, v)) == s.Get(ForwardKey(c, v)))
            && (forall c, v :: ForwardKey(c, v) in t.entries ==>
                  ForwardKey(c, v) in s.entries && t.entries[ForwardKey(c, v)] == s.entries[ForwardKey(c, v)])
            && (forall c, r :: ReverseKey(c, r) in s.entries && !(c == customer && r == ref) ==>
                  ReverseKey(c, r) in t.entries && t.entries[ReverseKey(c, r)] == s.entries[ReverseKey(c, r)])
            && ReverseKey(customer, ref) in t.entries
            && t.entries[ReverseKey(customer, ref)].deadline == s.now + ttl
  {
    forall c: Uuid, x: string, d: Uuid, y: string
      ensures Key(NS_REFERENCE, Join(c, x)) != Key(NS_SERVER, Join(d, y))
      ensures Join(c, x) == Join(d, y) <==> c == d && x == y
    {
      KeysDiffer(c, x, d, y);
    }
  }

  lemma CallStepKeeps(s: System, e: Event, ttl: int)
    requires Inv(s, ttl) && Enabled(s, e) && (e.Begin? || e.Read? || e.Mint?)
    ensures Inv(After(s, e, ttl), ttl)
  {
    var t := After(s, e, ttl);
    forall c, v, r | Pending(s, c, v, r) ensures Pending(t, c, v, r) {
      var id :| id in s.calls && s.calls[id] == Call(c, v, PuttingReverse(r));
      assert id in t.calls && t.calls[id] == s.calls[id];
    }
    forall c, v, r | Owns(s, c, v, r) ensures Owns(t, c, v, r) {
    }
  }

  lemma PutForwardKeeps(s: System, e: Event, ttl: int)
    requires Inv(s, ttl) && Enabled(s, e) && e.PutForward?
    ensures Inv(After(s, e, ttl), ttl)
  {
    var t, call := After(s, e, ttl), s.calls[e.id];
    PutForwardEntries(s.store, call.customer, call.server, call.pc.ref, ttl);
    assert t.calls[e.id] == Call(call.customer, call.server, PuttingReverse(call.pc.ref));
    assert Pending(t, call.customer, call.server, call.pc.ref);
    forall c, v, r | Reverse(t.store, c, r, v) ensures Owns(t, c, v, r) {
      assert t.store.Get(ReverseKey(c, r)) == s.store.Get(ReverseKey(c, r));
      assert Reverse(s.store, c, r, v);
    }
    forall c, v, r | Pending(s, c, v, r) ensures Pending(t, c, v, r) {
      var id :| id in s.calls && s.calls[id] == Call(c, v, PuttingReverse(r));
      assert id in t.calls && t.calls[id] == s.calls[id];
    }
  }

  lemma PutReverseKeeps(s: System, e: Event, ttl: int)
    requires Inv(s, ttl) && Enabled(s, e) && e.PutReverse?
    ensures Inv(After(s, e, ttl), ttl)
  {
    var t, call := After(s, e, ttl), s.calls[e.id];
    PutReverseEntries(s.store, call.customer, call.server, call.pc.ref, ttl);
    forall c, v, r | Forward(t.store, c, v, r)
      ensures Owns(t, c, v, r) && (Covered(t.store, c, v, r) || Pending(t, c, v, r))
    {
      assert Forward(s.store, c, v, r);
      if c == call.customer && r == call.pc.ref {
        assert v == call.server;
      } else if Pending(s, c, v, r) {
        var id :| id in s.calls && s.calls[id] == Call(c, v, PuttingReverse(r));
        assert id in t.calls && t.calls[id] == s.calls[id];
      }
    }
  }

  lemma PassKeeps(s: System, d: nat, ttl: int)
    requires Inv(s, ttl)
    ensures Inv(After(s, Event.Pass(d), ttl), ttl)
  {
    var t := After(s, Event.Pass(d), ttl);
    forall c, v, r | Forward(t.store, c, v, r)
      ensures Owns(t, c, v, r) && (Covered(t.store, c, v, r) || Pending(t, c, v, r))
    {
      assert Forward(s.store, c, v, r);
      if Pending(s, c, v, r) {
        var id :| id in s.calls && s.calls[id] == Call(c, v, PuttingReverse(r));
        assert id in t.calls && t.calls[id] == s.calls[id];
      }
    }
    forall c, v, r | Reverse(t.store, c, r, v) ensures Owns(t, c, v, r) {
      assert Reverse(s.store, c, r, v);
    }
  }

  lemma {:induction false} ReachableInv(states: seq<System>, events: seq<Event>, ttl: int, k: nat)
    requires Run(states, events, ttl) && k < |states| && ttl >= 30
    ensures Inv(states[k], ttl)
  {
    if k > 0 {
      ReachableInv(states, events, ttl, k - 1);
      match events[k - 1]
      case Begin(_, _, _) => CallStepKeeps(states[k - 1], events[k - 1], ttl);
      case Read(_) => CallStepKeeps(states[k - 1], events[k - 1], ttl);
      case Mint(_, _) => CallStepKeeps(states[k - 1], events[k - 1], ttl);
      case PutForward(_) => PutForwardKeeps(states[k - 1], events[k - 1], ttl);
      case PutReverse(_) => PutReverseKeeps(states[k - 1], events[k - 1], ttl);
      case Pass(d) => PassKeeps(states[k - 1], d, ttl);
    }
  }

  /** In every reachable state where no call is between its two writes, the store is consistent. */
  lemma QuiescentIsConsistent(states: seq<System>, events: seq<Event>, ttl: int, k: nat)
    requires Run(states, events, ttl) && k < |states| && ttl >= 30
    requires forall id :: id in states[k].calls ==> !states[k].calls[id].pc.PuttingReverse?
    ensures Consistent(states[k].store)
  {
    ReachableInv(states, events, ttl, k);
  }

  /** At any moment whatever, a reference resolves only to the server it was minted for, and
      only for the customer it was minted for. */
  lemma ResolvesToItsOwner(states: seq<System>, events: seq<Event>, ttl: int, k: nat, customer: Uuid, ref: string,
                           server: Uuid)
    requires Run(states, events, ttl) && k < |states| && ttl >= 30
    requires ServerId(states[k].store, customer, ref) == Some(server)
    ensures ref in states[k].owner && states[k].owner[ref] == (customer, server)
  {
    ReachableInv(states, events, ttl, k);
    assert Reverse(states[k].store, customer, ref, server);
  }

  /** Every reference a call returned was minted for that call's own customer and server. */
  lemma ReturnsItsOwn(states: seq<System>, events: seq<Event>, ttl: int, k: nat, id: nat)
    requires Run(states, events, ttl) && k < |states| && ttl >= 30
    requires id in states[k].calls && states[k].calls[id].pc.Returned?
    ensures var call := states[k].calls[id];
            call.pc.ref in states[k].owner && states[k].owner[call.pc.ref] == (call.customer, call.server)
  {
    ReachableInv(states, events, ttl, k);
  }
}
