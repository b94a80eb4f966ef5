/** Runs of the credit dialogue over replicas: what was credited is what was typed and confirmed,
    once. */
module CreditRuns {
  import opened Prelude
  import opened PythonText
  import opened SessionStore
  import opened Amounts
  import opened CreditDialogue

  // -- the machine ----------------------------------------------------------

  /** A message that moved a dialogue on, with what it was read against: a target with all that
      the ports would have answered at that moment, and what they did. */
  datatype Heard =
    | TargetHeard(admin: Uuid, text: string, answers: Lookup -> Option<View>, view: View)
    | AmountHeard(admin: Uuid, text: string, user: Uuid, currency: string)
    | ReasonHeard(admin: Uuid, text: string, user: Uuid, currency: string, amount: int)

  /** A message or a confirmation between its read and its write. */
  datatype TextFlight = TextFlight(admin: Uuid, pending: Record)

  datatype ApplyFlight = ApplyFlight(admin: Uuid, nonce: string, record: Record)

  type Pair = (Uuid, string)

  datatype Credit = Credit(user: Uuid, currency: string, amount: int, reason: string)

  /** The wallet port's ledger and balances, and the confirmations that were credited, in order. */
  datatype Book = Book(applied: seq<Pair>, ledger: map<string, Credit>, balances: map<Uuid, int>)

  /** `frozen` keeps every confirmation ever made. */
  datatype System = System(
    store: Store, heard: seq<Heard>, texts: map<nat, TextFlight>, applies: map<nat, ApplyFlight>,
    frozen: map<Pair, Confirmation>, book: Book)

  /** `world` is what the users and wallets ports answer at that moment. */
  datatype Event =
    | Start(admin: Uuid)
    | Clear(admin: Uuid)
    | Cancel(admin: Uuid, nonce: string)
    | TextLoad(id: nat, admin: Uuid)
    | TextCommit(id: nat, text: string, world: Lookup -> Option<View>, nonce: string)
    | ApplyLoad(id: nat, admin: Uuid, nonce: string)
    | ApplyCommit(id: nat, world: Lookup -> Option<View>, accepted: bool)
    | Pass(d: nat)

  /** Nonces never repeat; deliveries have their own names. */
  ghost predicate Enabled(s: System, e: Event) {
    match e
    case TextLoad(id, _) => id !in s.texts
    case TextCommit(id, _, _, nonce) => id in s.texts && (s.texts[id].admin, nonce) !in s.frozen
    case ApplyLoad(id, _, _) => id !in s.applies
    case ApplyCommit(id, _, _) => id in s.applies
    case _ => true
  }

  function LedgerKey(pair: Pair): string {
    "admin-credit:" + Join(pair.0, pair.1)
  }

  function BalanceOf(book: Book, user: Uuid): int {
    if user in book.balances then book.balances[user] else 0
  }

  function CreditOf(c: Confirmation): Credit {
    Credit(c.user, c.currency, c.amount, c.reason)
  }

  /** `adjust_balance`: a known key replays its entry, a new one is credited if accepted. */
  function Adjusted(book: Book, pair: Pair, key: string, c: Confirmation, accepted: bool): Book {
    if key in book.ledger || !accepted then book
    else Book(book.applied + [pair],
              book.ledger[key := CreditOf(c)],
              book.balances[c.user := BalanceOf(book, c.user) + c.amount])
  }

  /** The checks before the adjustment: a creditable target whose wallet has the frozen currency. */
  predicate MayApply(admin: Uuid, c: Confirmation, view: Option<View>) {
    Creditable(admin, view) && view.value.wallet == Some(c.currency)
  }

  function Applied(book: Book, pair: Pair, c: Confirmation, view: Option<View>, accepted: bool): Book {
    if MayApply(pair.0, c, view) then Adjusted(book, pair, LedgerKey(pair), c, accepted) else book
  }

  function HeardBy(admin: Uuid, pending: Pending, text: string, world: Lookup -> Option<View>): seq<Heard> {
    var view := world(LookupOf(text));
    match pending
    case AwaitTarget => if view.Some? then [TargetHeard(admin, text, world, view.value)] else []
    case AwaitAmount(user, currency) => [AmountHeard(admin, text, user, currency)]
    case AwaitReason(user, currency, amount) => [ReasonHeard(admin, text, user, currency, amount)]
  }

  /** The write after a message that moved the dialogue on, and the message itself. */
  function Committed(s: System, admin: Uuid, reaction: Reaction, more: seq<Heard>, nonce: string, ttl: int): System {
    if reaction.Refuse? then s
    else
      s.(store := Reacted(s.store, admin, reaction, nonce, ttl),
         heard := s.heard + more,
         frozen := if reaction.Freeze? then s.frozen[(admin, nonce) := reaction.confirmation] else s.frozen)
  }

  function After(s: System, e: Event, ttl: int): System
    requires Enabled(s, e)
  {
    match e
    case Start(admin) => s.(store := s.store.Put(PromptKey(admin), PendingRecord(AwaitTarget), ttl))
    case Clear(admin) => s.(store := s.store.Delete(PromptKey(admin)))
    case Cancel(admin, nonce) => s.(store := s.store.Delete(ConfirmKey(admin, nonce)))
    case TextLoad(id, admin) =>
      var record := s.store.Get(PromptKey(admin));
      if record.None? then s else s.(texts := s.texts[id := TextFlight(admin, record.value)])
    case TextCommit(id, text, world, nonce) =>
      var flight := s.texts[id];
      var t := s.(texts := s.texts - {id});
      var pending := ReadPending(flight.pending);
      if pending.None? then t
      else Committed(t, flight.admin, React(flight.admin, pending.value, text, world(LookupOf(text))),
                     HeardBy(flight.admin, pending.value, text, world), nonce, ttl)
    case ApplyLoad(id, admin, nonce) =>
      var record := s.store.Get(ConfirmKey(admin, nonce));
      if record.None? then s else s.(applies := s.applies[id := ApplyFlight(admin, nonce, record.value)])
    case ApplyCommit(id, world, accepted) =>
      var flight := s.applies[id];
      var t := s.(applies := s.applies - {id});
      var c := ReadConfirmation(flight.record);
      if c.None? then t
      else t.(book := Applied(t.book, (flight.admin, flight.nonce), c.value, world(ById(c.value.user)), accepted))
    case Pass(d) => s.(store := s.store.Tick(d))
  }

  const INITIAL := System(EMPTY, [], map[], map[], map[], Book([], map[], map[]))

  ghost predicate Steps(states: seq<System>, events: seq<Event>, ttl: int) {
    && |states| == |events| + 1
    && forall i :: 0 <= i < |events| ==>
         Enabled(states[i], events[i]) && states[i + 1] == After(states[i], events[i], ttl)
  }

  ghost predicate Run(states: seq<System>, events: seq<Event>, ttl: int) {
    Steps(states, events, ttl) && states[0] == INITIAL
  }

  /** What each step keeps from its start, the run keeps. */
  lemma {:induction false} Carried(holds: nat -> bool, j: nat, k: nat)
    requires j <= k && holds(j)
    requires forall i: nat :: j <= i < k && holds(i) ==> holds(i + 1)
    ensures holds(k)
    decreases k
  {
    if j < k {
      Carried(holds, j, k - 1);
    }
  }

  // -- where a record's contents come from ----------------------------------

  predicate IsNumber(typed: string, n: int) {
    typed != "" && Digits(typed) && Num(typed) == n && 0 < n <= 0x7FFF_FFFF_FFFF_FFFF
  }

  /** The view is the ports' answer to what was typed: for a number of Telegram's the user of that
      number, for anything else the user of that identifier. */
  ghost predicate AnswersTyped(text: string, answers: Lookup -> Option<View>, view: View) {
    var typed := Cleaned(text);
    if exists n :: IsNumber(typed, n)
    then forall n :: IsNumber(typed, n) ==> answers(ByTelegram(n)) == Some(view)
    else answers(ById(typed)) == Some(view)
  }

  lemma LookupAnswersTyped(text: string, answers: Lookup -> Option<View>, view: View)
    requires answers(LookupOf(text)) == Some(view)
    ensures AnswersTyped(text, answers, view)
  {
    var typed := Cleaned(text);
    if Number(typed) && 0 < Num(typed) <= MAX_MINOR {
      assert IsNumber(typed, Num(typed));
    }
  }

  /** A number typed in decimal asks for the Telegram user of that number. */
  lemma NumberIsLookedUp(n: nat)
    requires 0 < n <= 0x7FFF_FFFF_FFFF_FFFF
    ensures LookupOf(Decimal(n)) == ByTelegram(n)
  {
    DigitsAreCleaned(Decimal(n));
  }

  /** The i-th message named the target: one this administrator may credit, with that currency. */
  ghost predicate NamedTarget(heard: seq<Heard>, i: int, admin: Uuid, user: Uuid, currency: string) {
    && 0 <= i < |heard| && heard[i].TargetHeard? && heard[i].admin == admin
    && AnswersTyped(heard[i].text, heard[i].answers, heard[i].view)
    && !heard[i].view.isAdmin && heard[i].view.id != admin
    && heard[i].view.id == user && heard[i].view.wallet == Some(currency)
  }

  /** The j-th, read against that target and currency, was the amount. */
  predicate NamedAmount(heard: seq<Heard>, j: int, admin: Uuid, user: Uuid, currency: string, amount: int) {
    && 0 <= j < |heard| && heard[j].AmountHeard? && heard[j].admin == admin
    && heard[j].user == user && heard[j].currency == currency
    && AdminMinor(Cleaned(heard[j].text), currency).Ok? && AdminMinor(Cleaned(heard[j].text), currency).value == amount
  }

  ghost predicate NamedReason(heard: seq<Heard>, k: int, admin: Uuid, c: Confirmation) {
    && 0 <= k < |heard| && heard[k] == ReasonHeard(admin, heard[k].text, c.user, c.currency, c.amount)
    && Strip(heard[k].text, Space) == c.reason && 1 <= |Cleaned(heard[k].text)| <= 500
  }

  ghost predicate Told(heard: seq<Heard>, admin: Uuid, p: Pending) {
    match p
    case AwaitTarget => true
    case AwaitAmount(user, currency) => exists i :: NamedTarget(heard, i, admin, user, currency)
    case AwaitReason(user, currency, amount) =>
      exists i, j :: i < j && NamedTarget(heard, i, admin, user, currency) &&
        NamedAmount(heard, j, admin, user, currency, amount)
  }

  /** Target, then amount, then reason, all of one administrator, each read against the last. */
  ghost predicate Explained(heard: seq<Heard>, admin: Uuid, c: Confirmation) {
    exists i, j, k :: i < j < k && NamedTarget(heard, i, admin, c.user, c.currency)
      && NamedAmount(heard, j, admin, c.user, c.currency, c.amount) && NamedReason(heard, k, admin, c)
  }

  lemma HeardStays(heard: seq<Heard>, more: seq<Heard>)
    ensures forall admin, p :: Told(heard, admin, p) ==> Told(heard + more, admin, p)
    ensures forall admin, c :: Explained(heard, admin, c) ==> Explained(heard + more, admin, c)
  {
    var all := heard + more;
    forall admin, p | Told(heard, admin, p) ensures Told(all, admin, p) {
      match p
      case AwaitTarget =>
      case AwaitAmount(user, currency) =>
        var i :| NamedTarget(heard, i, admin, user, currency);
        assert NamedTarget(all, i, admin, user, currency);
      case AwaitReason(user, currency, amount) =>
        var i, j :| i < j && NamedTarget(heard, i, admin, user, currency) &&
                    NamedAmount(heard, j, admin, user, currency, amount);
        assert NamedTarget(all, i, admin, user, currency) && NamedAmount(all, j, admin, user, currency, amount);
    }
    forall admin, c | Explained(heard, admin, c) ensures Explained(all, admin, c) {
      var i, j, k :| i < j < k && NamedTarget(heard, i, admin, c.user, c.currency)
        && NamedAmount(heard, j, admin, c.user, c.currency, c.amount) && NamedReason(heard, k, admin, c);
      assert NamedTarget(all, i, admin, c.user, c.currency)
        && NamedAmount(all, j, admin, c.user, c.currency, c.amount) && NamedReason(all, k, admin, c);
    }
  }

  ghost predicate ReactionTold(heard: seq<Heard>, admin: Uuid, reaction: Reaction) {
    match reaction
    case Ask(next) => Told(heard, admin, next)
    case Freeze(c) => Explained(heard, admin, c)
    case Refuse => true
  }

  /** A message that moves the dialogue on tells the next step. */
  lemma ReactionIsTold(heard: seq<Heard>, admin: Uuid, pending: Pending, text: string, world: Lookup -> Option<View>)
    requires Told(heard, admin, pending)
    ensures ReactionTold(heard + HeardBy(admin, pending, text, world), admin,
                         React(admin, pending, text, world(LookupOf(text))))
  {
    var view := world(LookupOf(text));
    var n, all := |heard|, heard + HeardBy(admin, pending, text, world);
    match pending
    case AwaitTarget =>
      if React(admin, pending, text, view).Ask? {
        LookupAnswersTyped(text, world, view.value);
        assert NamedTarget(all, n, admin, view.value.id, view.value.wallet.value);
      }
    case AwaitAmount(user, currency) =>
      var i :| NamedTarget(heard, i, admin, user, currency);
      assert NamedTarget(all, i, admin, user, currency);
      var minor := AdminMinor(Cleaned(text), currency);
      if minor.Ok? {
        assert NamedAmount(all, n, admin, user, currency, minor.value);
      }
    case AwaitReason(user, currency, amount) =>
      var i, j :| i < j && NamedTarget(heard, i, admin, user, currency) &&
                  NamedAmount(heard, j, admin, user, currency, amount);
      assert NamedTarget(all, i, admin, user, currency) && NamedAmount(all, j, admin, user, currency, amount);
      if React(admin, pending, text, view).Freeze? {
        assert NamedReason(all, n, admin, React(admin, pending, text, view).confirmation);
      }
  }

  // -- what every step keeps ------------------------------------------------

  ghost predicate RecordTold(heard: seq<Heard>, admin: Uuid, record: Record) {
    ReadPending(record).Some? && Told(heard, admin, ReadPending(record).value)
  }

  ghost predicate PromptsTold(store: Store, heard: seq<Heard>) {
    forall admin: Uuid :: store.Get(PromptKey(admin)).Some? ==>
      RecordTold(heard, admin, store.Get(PromptKey(admin)).value)
  }

  ghost predicate TextsTold(texts: map<nat, TextFlight>, heard: seq<Heard>) {
    forall id :: id in texts ==> RecordTold(heard, texts[id].admin, texts[id].pending)
  }

  predicate IsFrozen(frozen: map<Pair, Confirmation>, admin: Uuid, nonce: string, record: Record,
                     encode: Confirmation -> Record) {
    (admin, nonce) in frozen && record == encode(frozen[(admin, nonce)])
  }

  ghost predicate ConfirmsFrozen(store: Store, frozen: map<Pair, Confirmation>, encode: Confirmation -> Record) {
    forall admin: Uuid, nonce :: store.Get(ConfirmKey(admin, nonce)).Some? ==>
      IsFrozen(frozen, admin, nonce, store.Get(ConfirmKey(admin, nonce)).value, encode)
  }

  ghost predicate AppliesFrozen(applies: map<nat, ApplyFlight>, frozen: map<Pair, Confirmation>,
                                encode: Confirmation -> Record) {
    forall id :: id in applies ==> IsFrozen(frozen, applies[id].admin, applies[id].nonce, applies[id].record, encode)
  }

  ghost predicate PairExplained(frozen: map<Pair, Confirmation>, heard: seq<Heard>, pair: Pair) {
    pair in frozen ==> Explained(heard, pair.0, frozen[pair])
  }

  ghost predicate FrozenExplained(frozen: map<Pair, Confirmation>, heard: seq<Heard>) {
    forall pair :: PairExplained(frozen, heard, pair)
  }

  /** Every ledger entry is the confirmation of one applied pair, and no pair is applied twice. */
  ghost predicate EachOnce(book: Book, frozen: map<Pair, Confirmation>, keyOf: Pair -> string) {
    && (forall i, j :: 0 <= i < j < |book.applied| ==> book.applied[i] != book.applied[j])
    && (forall i :: 0 <= i < |book.applied| ==> Entered(book, frozen, keyOf, book.applied[i]))
    && (forall key :: key in book.ledger ==> exists pair :: pair in book.applied && keyOf(pair) == key)
  }

  predicate Entered(book: Book, frozen: map<Pair, Confirmation>, keyOf: Pair -> string, pair: Pair) {
    pair in frozen && keyOf(pair) in book.ledger && book.ledger[keyOf(pair)] == CreditOf(frozen[pair])
  }

  /** The frozen amounts of the applied confirmations that name the user. */
  function Total(frozen: map<Pair, Confirmation>, applied: seq<Pair>, user: Uuid): int {
    if applied == [] then 0
    else
      var last := applied[|applied| - 1];
      Total(frozen, applied[..|applied| - 1], user)
      + (if last in frozen && frozen[last].user == user then frozen[last].amount else 0)
  }

  ghost predicate Balanced(book: Book, frozen: map<Pair, Confirmation>) {
    forall user: Uuid :: BalanceOf(book, user) == Total(frozen, book.applied, user)
  }

  ghost predicate DialogueInv(store: Store, heard: seq<Heard>, texts: map<nat, TextFlight>,
                              frozen: map<Pair, Confirmation>) {
    && PromptsTold(store, heard) && TextsTold(texts, heard)
    && ConfirmsFrozen(store, frozen, ConfirmationRecord) && FrozenExplained(frozen, heard)
  }

  ghost predicate BookInv(book: Book, frozen: map<Pair, Confirmation>) {
    EachOnce(book, frozen, LedgerKey) && Balanced(book, frozen)
  }

  ghost predicate Inv(s: System) {
    && DialogueInv(s.store, s.heard, s.texts, s.frozen)
    && AppliesFrozen(s.applies, s.frozen, ConfirmationRecord)
    && BookInv(s.book, s.frozen)
  }

  // -- the store's part -----------------------------------------------------

  /** Nothing in t that was not in s. */
  ghost predicate Fewer(t: Store, s: Store) {
    forall key :: t.Get(key).Some? ==> t.Get(key) == s.Get(key)
  }

  lemma FewerKeeps(t: Store, s: Store, heard: seq<Heard>, frozen: map<Pair, Confirmation>,
                   encode: Confirmation -> Record)
    requires Fewer(t, s) && PromptsTold(s, heard) && ConfirmsFrozen(s, frozen, encode)
    ensures PromptsTold(t, heard) && ConfirmsFrozen(t, frozen, encode)
  {
    forall admin: Uuid | t.Get(PromptKey(admin)).Some? ensures RecordTold(heard, admin, t.Get(PromptKey(admin)).value) {
      assert t.Get(PromptKey(admin)) == s.Get(PromptKey(admin));
    }
    forall admin: Uuid, nonce | t.Get(ConfirmKey(admin, nonce)).Some?
      ensures IsFrozen(frozen, admin, nonce, t.Get(ConfirmKey(admin, nonce)).value, encode)
    {
      assert t.Get(ConfirmKey(admin, nonce)) == s.Get(ConfirmKey(admin, nonce));
    }
  }

  lemma PromptPut(s: Store, heard: seq<Heard>, frozen: map<Pair, Confirmation>, encode: Confirmation -> Record,
                  admin: Uuid, p: Pending, ttl: int)
    requires PromptsTold(s, heard) && ConfirmsFrozen(s, frozen, encode) && Told(heard, admin, p)
    ensures var t := s.Put(PromptKey(admin), PendingRecord(p), ttl);
            PromptsTold(t, heard) && ConfirmsFrozen(t, frozen, encode)
  {
    var t := s.Put(PromptKey(admin), PendingRecord(p), ttl);
    RecordsReadBack(p, Confirmation(admin, "", 0, ""));
    forall a: Uuid | t.Get(PromptKey(a)).Some? ensures RecordTold(heard, a, t.Get(PromptKey(a)).value) {
      if a != admin { assert t.Get(PromptKey(a)) == s.Get(PromptKey(a)); }
    }
    forall a: Uuid, nonce | t.Get(ConfirmKey(a, nonce)).Some?
      ensures IsFrozen(frozen, a, nonce, t.Get(ConfirmKey(a, nonce)).value, encode)
    {
      KeysAreApart(a, nonce, admin, nonce);
      assert t.Get(ConfirmKey(a, nonce)) == s.Get(ConfirmKey(a, nonce));
    }
  }

  lemma ConfirmPut(s: Store, heard: seq<Heard>, frozen: map<Pair, Confirmation>, encode: Confirmation -> Record,
                   admin: Uuid, nonce: string, c: Confirmation, ttl: int)
    requires PromptsTold(s, heard) && ConfirmsFrozen(s, frozen, encode) && (admin, nonce) !in frozen
    ensures var t := s.Put(ConfirmKey(admin, nonce), encode(c), ttl);
            PromptsTold(t, heard) && ConfirmsFrozen(t, frozen[(admin, nonce) := c], encode)
  {
    var t := s.Put(ConfirmKey(admin, nonce), encode(c), ttl);
    forall a: Uuid | t.Get(PromptKey(a)).Some? ensures RecordTold(heard, a, t.Get(PromptKey(a)).value) {
      KeysAreApart(admin, nonce, a, nonce);
      assert t.Get(PromptKey(a)) == s.Get(PromptKey(a));
    }
    forall a: Uuid, n | t.Get(ConfirmKey(a, n)).Some?
      ensures IsFrozen(frozen[(admin, nonce) := c], a, n, t.Get(ConfirmKey(a, n)).value, encode)
    {
      KeysAreApart(admin, nonce, a, n);
      if (a, n) != (admin, nonce) { assert t.Get(ConfirmKey(a, n)) == s.Get(ConfirmKey(a, n)); }
    }
  }

  lemma HeardKeeps(store: Store, texts: map<nat, TextFlight>, frozen: map<Pair, Confirmation>, heard: seq<Heard>,
                   more: seq<Heard>)
    requires PromptsTold(store, heard) && TextsTold(texts, heard) && FrozenExplained(frozen, heard)
    ensures PromptsTold(store, heard + more) && TextsTold(texts, heard + more) && FrozenExplained(frozen, heard + more)
  {
    HeardStays(heard, more);
    forall pair ensures PairExplained(frozen, heard + more, pair) {
      assert PairExplained(frozen, heard, pair);
    }
  }

  // -- the ledger's part ----------------------------------------------------

  lemma LedgerKeyInjective(a: Pair, b: Pair)
    requires LedgerKey(a) == LedgerKey(b)
    ensures a == b
  {
    assert Join(a.0, a.1) == LedgerKey(a)[13..] && Join(b.0, b.1) == LedgerKey(b)[13..];
    JoinInjective(a.0, a.1, b.0, b.1);
  }

  lemma {:induction false} TotalOfMore(frozen: map<Pair, Confirmation>, applied: seq<Pair>, user: Uuid, pair: Pair,
                                       c: Confirmation)
    requires pair !in applied
    ensures Total(frozen[pair := c], applied, user) == Total(frozen, applied, user)
    decreases |applied|
  {
    if applied != [] {
      TotalOfMore(frozen, applied[..|applied| - 1], user, pair, c);
    }
  }

  lemma NotApplied(book: Book, frozen: map<Pair, Confirmation>, keyOf: Pair -> string, pair: Pair)
    requires EachOnce(book, frozen, keyOf) && (pair !in frozen || keyOf(pair) !in book.ledger)
    ensures pair !in book.applied
  {
    forall i | 0 <= i < |book.applied| ensures book.applied[i] != pair {
      assert Entered(book, frozen, keyOf, book.applied[i]);
    }
  }

  /** A fresh confirmation changes neither the book nor what it adds up to. */
  lemma FreezeKeepsBook(book: Book, frozen: map<Pair, Confirmation>, keyOf: Pair -> string, pair: Pair, c: Confirmation)
    requires EachOnce(book, frozen, keyOf) && Balanced(book, frozen) && pair !in frozen
    ensures EachOnce(book, frozen[pair := c], keyOf) && Balanced(book, frozen[pair := c])
  {
    forall i | 0 <= i < |book.applied| ensures Entered(book, frozen[pair := c], keyOf, book.applied[i]) {
      assert Entered(book, frozen, keyOf, book.applied[i]);
    }
    NotApplied(book, frozen, keyOf, pair);
    forall user: Uuid ensures BalanceOf(book, user) == Total(frozen[pair := c], book.applied, user) {
      TotalOfMore(frozen, book.applied, user, pair, c);
    }
  }

  lemma AdjustKeepsEachOnce(book: Book, frozen: map<Pair, Confirmation>, keyOf: Pair -> string, pair: Pair)
    requires EachOnce(book, frozen, keyOf) && pair in frozen && keyOf(pair) !in book.ledger
    requires forall a, b :: keyOf(a) == keyOf(b) ==> a == b
    ensures EachOnce(Adjusted(book, pair, keyOf(pair), frozen[pair], true), frozen, keyOf)
  {
    var after := Adjusted(book, pair, keyOf(pair), frozen[pair], true);
    NotApplied(book, frozen, keyOf, pair);
    forall i | 0 <= i < |after.applied| ensures Entered(after, frozen, keyOf, after.applied[i]) {
      if i < |book.applied| {
        assert Entered(book, frozen, keyOf, book.applied[i]);
      }
    }
    forall key | key in after.ledger ensures exists p :: p in after.applied && keyOf(p) == key {
      if key == keyOf(pair) {
        assert pair in after.applied;
      } else {
        var p :| p in book.applied && keyOf(p) == key;
        assert p in after.applied;
      }
    }
  }

  lemma AdjustKeepsBalance(book: Book, frozen: map<Pair, Confirmation>, key: string, pair: Pair)
    requires Balanced(book, frozen) && pair in frozen && key !in book.ledger
    ensures Balanced(Adjusted(book, pair, key, frozen[pair], true), frozen)
  {
    var after := Adjusted(book, pair, key, frozen[pair], true);
    assert after.applied[..|after.applied| - 1] == book.applied;
    forall user: Uuid ensures BalanceOf(after, user) == Total(frozen, after.applied, user) {
      assert BalanceOf(book, user) == Total(frozen, book.applied, user);
    }
  }

  lemma AdjustKeeps(book: Book, frozen: map<Pair, Confirmation>, pair: Pair, accepted: bool)
    requires BookInv(book, frozen) && pair in frozen
    ensures BookInv(Adjusted(book, pair, LedgerKey(pair), frozen[pair], accepted), frozen)
  {
    if LedgerKey(pair) !in book.ledger && accepted {
      forall a, b | LedgerKey(a) == LedgerKey(b) ensures a == b {
        LedgerKeyInjective(a, b);
      }
      AdjustKeepsEachOnce(book, frozen, LedgerKey, pair);
      AdjustKeepsBalance(book, frozen, LedgerKey(pair), pair);
    }
  }

  // -- every step -----------------------------------------------------------

  lemma FewerTexts(texts: map<nat, TextFlight>, heard: seq<Heard>, id: nat)
    requires TextsTold(texts, heard)
    ensures TextsTold(texts - {id}, heard)
  {
  }

  /** What a message may do to the dialogue's part of the state. */
  lemma AskKeeps(s: System, more: seq<Heard>, admin: Uuid, next: Pending, ttl: int)
    requires Inv(s) && Told(s.heard + more, admin, next)
    ensures Inv(s.(store := s.store.Put(PromptKey(admin), PendingRecord(next), ttl), heard := s.heard + more))
  {
    HeardKeeps(s.store, s.texts, s.frozen, s.heard, more);
    PromptPut(s.store, s.heard + more, s.frozen, ConfirmationRecord, admin, next, ttl);
  }

  lemma FreezeKeeps(s: System, more: seq<Heard>, admin: Uuid, nonce: string, c: Confirmation, ttl: int)
    requires Inv(s) && Explained(s.heard + more, admin, c) && (admin, nonce) !in s.frozen
    ensures Inv(s.(store := s.store.Put(ConfirmKey(admin, nonce), ConfirmationRecord(c), ttl),
                   heard := s.heard + more, frozen := s.frozen[(admin, nonce) := c]))
  {
    HeardKeeps(s.store, s.texts, s.frozen, s.heard, more);
    ConfirmPut(s.store, s.heard + more, s.frozen, ConfirmationRecord, admin, nonce, c, ttl);
    FreezeKeepsBook(s.book, s.frozen, LedgerKey, (admin, nonce), c);
    FreezeKeepsApplies(s.applies, s.frozen, ConfirmationRecord, (admin, nonce), c);
    FreezeIsExplained(s.frozen, s.heard + more, (admin, nonce), c);
  }

  lemma CommittedKeeps(s: System, admin: Uuid, reaction: Reaction, more: seq<Heard>, nonce: string, ttl: int)
    requires Inv(s) && ReactionTold(s.heard + more, admin, reaction) && (admin, nonce) !in s.frozen
    ensures Inv(Committed(s, admin, reaction, more, nonce, ttl))
  {
    match reaction
    case Ask(next) => AskKeeps(s, more, admin, next, ttl);
    case Freeze(c) => FreezeKeeps(s, more, admin, nonce, c, ttl);
    case Refuse =>
  }

  lemma FreezeKeepsApplies(applies: map<nat, ApplyFlight>, frozen: map<Pair, Confirmation>,
                           encode: Confirmation -> Record,
                           pair: Pair, c: Confirmation)
    requires AppliesFrozen(applies, frozen, encode) && pair !in frozen
    ensures AppliesFrozen(applies, frozen[pair := c], encode)
  {
    forall id | id in applies
      ensures IsFrozen(frozen[pair := c], applies[id].admin, applies[id].nonce, applies[id].record, encode)
    {
      assert IsFrozen(frozen, applies[id].admin, applies[id].nonce, applies[id].record, encode);
    }
  }

  lemma FreezeIsExplained(frozen: map<Pair, Confirmation>, heard: seq<Heard>, pair: Pair, c: Confirmation)
    requires FrozenExplained(frozen, heard) && Explained(heard, pair.0, c)
    ensures FrozenExplained(frozen[pair := c], heard)
  {
    var more := frozen[pair := c];
    forall other ensures PairExplained(more, heard, other) {
      assert PairExplained(frozen, heard, other);
    }
  }

  lemma FewerApplies(applies: map<nat, ApplyFlight>, frozen: map<Pair, Confirmation>, encode: Confirmation -> Record,
                     id: nat)
    requires AppliesFrozen(applies, frozen, encode) && id in applies
    ensures AppliesFrozen(applies - {id}, frozen, encode)
    ensures IsFrozen(frozen, applies[id].admin, applies[id].nonce, applies[id].record, encode)
  {
    forall i | i in applies - {id}
      ensures IsFrozen(frozen, applies[i].admin, applies[i].nonce, applies[i].record, encode)
    {
    }
  }

  lemma MoreApplies(store: Store, applies: map<nat, ApplyFlight>, frozen: map<Pair, Confirmation>,
                    encode: Confirmation -> Record,
                    id: nat, admin: Uuid, nonce: string)
    requires AppliesFrozen(applies, frozen, encode) && ConfirmsFrozen(store, frozen, encode)
    requires store.Get(ConfirmKey(admin, nonce)).Some?
    ensures AppliesFrozen(applies[id := ApplyFlight(admin, nonce, store.Get(ConfirmKey(admin, nonce)).value)], frozen,
                          encode)
  {
    var record := store.Get(ConfirmKey(admin, nonce)).value;
    assert IsFrozen(frozen, admin, nonce, record, encode);
    var more := applies[id := ApplyFlight(admin, nonce, record)];
    forall i | i in more ensures IsFrozen(frozen, more[i].admin, more[i].nonce, more[i].record, encode) {
      if i != id { assert IsFrozen(frozen, applies[i].admin, applies[i].nonce, applies[i].record, encode); }
    }
  }

  lemma MoreTexts(store: Store, texts: map<nat, TextFlight>, heard: seq<Heard>, id: nat, admin: Uuid)
    requires TextsTold(texts, heard) && PromptsTold(store, heard) && store.Get(PromptKey(admin)).Some?
    ensures TextsTold(texts[id := TextFlight(admin, store.Get(PromptKey(admin)).value)], heard)
  {
    assert RecordTold(heard, admin, store.Get(PromptKey(admin)).value);
  }

  lemma TextCommitKeeps(s: System, e: Event, ttl: int)
    requires Inv(s) && Enabled(s, e) && e.TextCommit?
    ensures Inv(After(s, e, ttl))
  {
    var flight := s.texts[e.id];
    FewerTexts(s.texts, s.heard, e.id);
    assert RecordTold(s.heard, flight.admin, flight.pending);
    var pending, view := ReadPending(flight.pending).value, (e.world)(LookupOf(e.text));
    ReactionIsTold(s.heard, flight.admin, pending, e.text, e.world);
    CommittedKeeps(s.(texts := s.texts - {e.id}), flight.admin, React(flight.admin, pending, e.text, view),
                   HeardBy(flight.admin, pending, e.text, e.world), e.nonce, ttl);
  }

  lemma ApplyCommitKeeps(s: System, e: Event, ttl: int)
    requires Inv(s) && Enabled(s, e) && e.ApplyCommit?
    ensures Inv(After(s, e, ttl))
  {
    var flight := s.applies[e.id];
    FewerApplies(s.applies, s.frozen, ConfirmationRecord, e.id);
    var c := s.frozen[(flight.admin, flight.nonce)];
    assert ReadConfirmation(flight.record) == Some(c) by { RecordsReadBack(AwaitTarget, c); }
    AppliedKeeps(s, s.applies - {e.id}, (flight.admin, flight.nonce), (e.world)(ById(c.user)), e.accepted);
  }

  lemma AppliedKeeps(s: System, applies: map<nat, ApplyFlight>, pair: Pair, view: Option<View>, accepted: bool)
    requires Inv(s) && AppliesFrozen(applies, s.frozen, ConfirmationRecord) && pair in s.frozen
    ensures Inv(s.(applies := applies, book := Applied(s.book, pair, s.frozen[pair], view, accepted)))
  {
    if MayApply(pair.0, s.frozen[pair], view) {
      AdjustKeeps(s.book, s.frozen, pair, accepted);
    }
  }

  lemma LoadsKeep(s: System, e: Event, ttl: int)
    requires Inv(s) && Enabled(s, e) && (e.TextLoad? || e.ApplyLoad?)
    ensures Inv(After(s, e, ttl))
  {
    if e.TextLoad? {
      if s.store.Get(PromptKey(e.admin)).Some? {
        MoreTexts(s.store, s.texts, s.heard, e.id, e.admin);
      }
    } else if s.store.Get(ConfirmKey(e.admin, e.nonce)).Some? {
      MoreApplies(s.store, s.applies, s.frozen, ConfirmationRecord, e.id, e.admin, e.nonce);
    }
  }

  lemma StoreStepKeeps(s: System, e: Event, ttl: int)
    requires Inv(s) && (e.Start? || e.Clear? || e.Cancel? || e.Pass?)
    ensures Inv(After(s, e, ttl))
  {
    if e.Start? {
      PromptPut(s.store, s.heard, s.frozen, ConfirmationRecord, e.admin, AwaitTarget, ttl);
    } else {
      var t := After(s, e, ttl);
      assert Fewer(t.store, s.store);
      FewerKeeps(t.store, s.store, s.heard, s.frozen, ConfirmationRecord);
    }
  }

  lemma {:induction false} ReachableInv(states: seq<System>, events: seq<Event>, ttl: int, k: nat)
    requires Run(states, events, ttl) && k < |states|
    ensures Inv(states[k])
  {
    if k > 0 {
      ReachableInv(states, events, ttl, k - 1);
      var s, e := states[k - 1], events[k - 1];
      assert Enabled(s, e) && states[k] == After(s, e, ttl);
      if e.TextCommit? { TextCommitKeeps(s, e, ttl); }
      else if e.ApplyCommit? { ApplyCommitKeeps(s, e, ttl); }
      else if e.TextLoad? || e.ApplyLoad? { LoadsKeep(s, e, ttl); }
      else { StoreStepKeeps(s, e, ttl); }
    }
  }

  // -- what a run credits ---------------------------------------------------

  /** Conservation: each user was credited the sum of the frozen amounts of the confirmations
      that were applied and name that user, and no confirmation was applied twice. */
  lemma Conservation(states: seq<System>, events: seq<Event>, ttl: int, k: nat, user: Uuid)
    requires Run(states, events, ttl) && k < |states|
    ensures BalanceOf(states[k].book, user) == Total(states[k].frozen, states[k].book.applied, user)
    ensures forall i, j :: 0 <= i < j < |states[k].book.applied| ==>
              states[k].book.applied[i] != states[k].book.applied[j]
  {
    ReachableInv(states, events, ttl, k);
  }

  /** Each credit is what its administrator typed and confirmed: the target a message named, not
      an administrator and not oneself, in that wallet's currency, the exact amount a later
      message gave, from 1 to 2^63-1, and the reason a still later one gave. */
  lemma CreditedAsTyped(states: seq<System>, events: seq<Event>, ttl: int, k: nat, i: nat)
    requires Run(states, events, ttl) && k < |states| && i < |states[k].book.applied|
    ensures var pair := states[k].book.applied[i];
            && pair in states[k].frozen
            && LedgerKey(pair) in states[k].book.ledger
            && states[k].book.ledger[LedgerKey(pair)] == CreditOf(states[k].frozen[pair])
            && Explained(states[k].heard, pair.0, states[k].frozen[pair])
            && 1 <= states[k].frozen[pair].amount <= MAX_MINOR
            && states[k].frozen[pair].user != pair.0
  {
    ReachableInv(states, events, ttl, k);
    var s := states[k];
    var pair := s.book.applied[i];
    EntryIsSound(s, pair);
  }

  lemma EntryIsSound(s: System, pair: Pair)
    requires Inv(s) && pair in s.book.applied
    ensures pair in s.frozen && LedgerKey(pair) in s.book.ledger &&
            s.book.ledger[LedgerKey(pair)] == CreditOf(s.frozen[pair])
    ensures Explained(s.heard, pair.0, s.frozen[pair])
    ensures 1 <= s.frozen[pair].amount <= MAX_MINOR && s.frozen[pair].user != pair.0
  {
    assert Entered(s.book, s.frozen, LedgerKey, pair) && PairExplained(s.frozen, s.heard, pair);
    ExplainedIsSound(s.heard, pair.0, s.frozen[pair]);
  }

  lemma ExplainedIsSound(heard: seq<Heard>, admin: Uuid, c: Confirmation)
    requires Explained(heard, admin, c)
    ensures 1 <= c.amount <= MAX_MINOR && c.user != admin
  {
    var i, j, k :| i < j < k && NamedTarget(heard, i, admin, c.user, c.currency)
      && NamedAmount(heard, j, admin, c.user, c.currency, c.amount) && NamedReason(heard, k, admin, c);
    AdminIsExactIff(Cleaned(heard[j].text), c.currency, c.amount);
  }

  /** A press credits exactly when the wallet port has not the key yet and accepts it, and the
      target is then still a user who is neither an administrator nor the presser, with a wallet
      in the frozen currency; it credits the frozen amount to that user, and nobody else. */
  lemma PressCreditsIff(s: System, id: nat, world: Lookup -> Option<View>, accepted: bool, ttl: int)
    requires Inv(s) && id in s.applies
    ensures var pair := (s.applies[id].admin, s.applies[id].nonce);
            && pair in s.frozen
            && var t, c := After(s, ApplyCommit(id, world, accepted), ttl), s.frozen[pair];
               if accepted && pair !in s.book.applied &&
                  exists v :: world(ById(c.user)) == Some(v) && !v.isAdmin && v.id != pair.0 &&
                    v.wallet == Some(c.currency)
               then
                 && t.book.applied == s.book.applied + [pair]
                 && BalanceOf(t.book, c.user) == BalanceOf(s.book, c.user) + c.amount
                 && (forall user :: user != c.user ==> BalanceOf(t.book, user) == BalanceOf(s.book, user))
                 && t.book.ledger == s.book.ledger["admin-credit:" + pair.0 + ":" + pair.1 := CreditOf(c)]
               else t.book == s.book
  {
    FewerApplies(s.applies, s.frozen, ConfirmationRecord, id);
    var pair := (s.applies[id].admin, s.applies[id].nonce);
    var c := s.frozen[pair];
    assert ReadConfirmation(s.applies[id].record) == Some(c) by { RecordsReadBack(AwaitTarget, c); }
    KeyIsEntered(s.book, s.frozen, pair);
    assert LedgerKey(pair) == "admin-credit:" + pair.0 + ":" + pair.1;
  }

  lemma KeyIsEntered(book: Book, frozen: map<Pair, Confirmation>, pair: Pair)
    requires EachOnce(book, frozen, LedgerKey)
    ensures LedgerKey(pair) in book.ledger <==> pair in book.applied
  {
    if pair in book.applied { assert Entered(book, frozen, LedgerKey, pair); }
    if pair !in book.applied { UnappliedIsNotEntered(book, frozen, pair); }
  }

  /** What the buttons do to the prompts and confirmations in the store. */
  lemma ButtonsDo(s: System, admin: Uuid, nonce: string, ttl: int)
    ensures ttl > 0 ==> After(s, Start(admin), ttl).store.Get(PromptKey(admin)) == Some(PendingRecord(AwaitTarget))
    ensures After(s, Clear(admin), ttl).store.Get(PromptKey(admin)) == None
    ensures After(s, Cancel(admin, nonce), ttl).store.Get(ConfirmKey(admin, nonce)) == None
    ensures forall k :: k != PromptKey(admin) ==>
              After(s, Start(admin), ttl).store.Get(k) == s.store.Get(k) == After(s, Clear(admin), ttl).store.Get(k)
    ensures forall k :: k != ConfirmKey(admin, nonce) ==>
              After(s, Cancel(admin, nonce), ttl).store.Get(k) == s.store.Get(k)
  {
  }

  /** The confirmation can no longer be read. */
  predicate Gone(s: System, pair: Pair) {
    pair in s.frozen && s.store.Get(ConfirmKey(pair.0, pair.1)).None?
  }

  predicate InFlight(s: System, pair: Pair) {
    exists id :: id in s.applies && (s.applies[id].admin, s.applies[id].nonce) == pair
  }

  lemma GoneStays(s: System, e: Event, ttl: int, pair: Pair)
    requires Gone(s, pair) && Enabled(s, e)
    ensures Gone(After(s, e, ttl), pair)
  {
    if e.Start? {
      KeysAreApart(pair.0, pair.1, e.admin, "");
    } else if e.TextCommit? {
      var flight := s.texts[e.id];
      KeysAreApart(pair.0, pair.1, flight.admin, e.nonce);
    } else if e.Cancel? {
      KeysAreApart(pair.0, pair.1, e.admin, e.nonce);
    }
  }

  lemma NoFlightStays(s: System, e: Event, ttl: int, pair: Pair)
    requires Gone(s, pair) && !InFlight(s, pair) && Enabled(s, e)
    ensures !InFlight(After(s, e, ttl), pair)
  {
    var t := After(s, e, ttl);
    forall id | id in t.applies ensures (t.applies[id].admin, t.applies[id].nonce) != pair {
      if id in s.applies { assert t.applies[id] == s.applies[id]; }
    }
  }

  lemma UnappliedStays(s: System, e: Event, ttl: int, pair: Pair)
    requires Gone(s, pair) && !InFlight(s, pair) && pair !in s.book.applied && Enabled(s, e)
    ensures pair !in After(s, e, ttl).book.applied
  {
    if e.ApplyCommit? {
      assert (s.applies[e.id].admin, s.applies[e.id].nonce) != pair;
    }
  }

  /** Not readable, not being applied, and not credited. */
  predicate Lost(s: System, pair: Pair) {
    Gone(s, pair) && !InFlight(s, pair) && pair !in s.book.applied
  }

  lemma LostStays(s: System, e: Event, ttl: int, pair: Pair)
    requires Lost(s, pair) && Enabled(s, e)
    ensures Lost(After(s, e, ttl), pair)
  {
    GoneStays(s, e, ttl, pair);
    NoFlightStays(s, e, ttl, pair);
    UnappliedStays(s, e, ttl, pair);
  }

  /** A confirmation that can no longer be read, is not in flight and was not credited never
      will be: after its cancel, or its expiry. */
  lemma LostIsNeverCredited(states: seq<System>, events: seq<Event>, ttl: int, j: nat, k: nat, pair: Pair)
    requires Steps(states, events, ttl) && j <= k < |states| && Lost(states[j], pair)
    ensures Lost(states[k], pair)
  {
    var holds := (i: nat) => i < |states| && Lost(states[i], pair);
    forall i: nat | j <= i < k && holds(i) ensures holds(i + 1) {
      LostStays(states[i], events[i], ttl, pair);
    }
    Carried(holds, j, k);
  }

  /** Cancelling before the first press that reads it means it is never credited. */
  lemma CancelledIsNeverCredited(states: seq<System>, events: seq<Event>, ttl: int, j: nat, k: nat, pair: Pair)
    requires Run(states, events, ttl) && j < k < |states| && events[j] == Cancel(pair.0, pair.1)
    requires pair in states[j].frozen && !InFlight(states[j], pair) && pair !in states[j].book.applied
    ensures pair !in states[k].book.applied
  {
    CancelLoses(states[j], pair, ttl);
    LostIsNeverCredited(states, events, ttl, j + 1, k, pair);
  }

  lemma CancelLoses(s: System, pair: Pair, ttl: int)
    requires pair in s.frozen && !InFlight(s, pair) && pair !in s.book.applied
    ensures Lost(After(s, Cancel(pair.0, pair.1), ttl), pair)
  {
    assert After(s, Cancel(pair.0, pair.1), ttl).applies == s.applies;
  }

  // -- when a confirmation can still be credited ------------------------------

  ghost predicate CanBeCredited(s: System, pair: Pair, ttl: int) {
    exists states: seq<System>, events :: Steps(states, events, ttl) && states[0] == s &&
      pair in states[|events|].book.applied
  }

  predicate Readable(s: System, pair: Pair) {
    s.store.Get(ConfirmKey(pair.0, pair.1)).Some?
  }

  lemma Extended(states: seq<System>, events: seq<Event>, e: Event, ttl: int) returns (more: seq<System>)
    requires Steps(states, events, ttl) && Enabled(states[|events|], e)
    ensures more == states + [After(states[|events|], e, ttl)] && Steps(more, events + [e], ttl)
  {
    more := states + [After(states[|events|], e, ttl)];
    forall i | 0 <= i < |events| + 1
      ensures Enabled(more[i], (events + [e])[i]) && more[i + 1] == After(more[i], (events + [e])[i], ttl)
    {
      if i < |events| { assert more[i] == states[i] && more[i + 1] == states[i + 1]; }
    }
  }

  /** The ports confirm the target as it was frozen. */
  function Agreeing(c: Confirmation): Lookup -> Option<View> {
    _ => Some(View(c.user, false, Some(c.currency)))
  }

  /** What is known of a press in flight whose confirmation was not credited yet. */
  predicate Ready(s: System, id: nat, pair: Pair) {
    && id in s.applies && (s.applies[id].admin, s.applies[id].nonce) == pair
    && pair in s.frozen && ReadConfirmation(s.applies[id].record) == Some(s.frozen[pair])
    && s.frozen[pair].user != pair.0 && LedgerKey(pair) !in s.book.ledger
  }

  lemma PressIsReady(s: System, id: nat, pair: Pair)
    requires AppliesFrozen(s.applies, s.frozen, ConfirmationRecord) && FrozenExplained(s.frozen, s.heard)
    requires EachOnce(s.book, s.frozen, LedgerKey)
    requires id in s.applies && (s.applies[id].admin, s.applies[id].nonce) == pair && pair !in s.book.applied
    ensures Ready(s, id, pair)
  {
    FewerApplies(s.applies, s.frozen, ConfirmationRecord, id);
    RecordsReadBack(AwaitTarget, s.frozen[pair]);
    assert PairExplained(s.frozen, s.heard, pair);
    ExplainedIsSound(s.heard, pair.0, s.frozen[pair]);
    UnappliedIsNotEntered(s.book, s.frozen, pair);
  }

  /** A press in flight credits its confirmation as soon as the ports agree. */
  lemma PressCredits(s: System, id: nat, pair: Pair, ttl: int)
    requires Ready(s, id, pair)
    ensures pair in After(s, ApplyCommit(id, Agreeing(s.frozen[pair]), true), ttl).book.applied
  {
    var c := s.frozen[pair];
    assert MayApply(pair.0, c, Agreeing(c)(ById(c.user)));
    assert Applied(s.book, pair, c, Agreeing(c)(ById(c.user)), true).applied == s.book.applied + [pair];
  }

  lemma UnappliedIsNotEntered(book: Book, frozen: map<Pair, Confirmation>, pair: Pair)
    requires EachOnce(book, frozen, LedgerKey) && pair !in book.applied
    ensures LedgerKey(pair) !in book.ledger
  {
    if LedgerKey(pair) in book.ledger {
      var other :| other in book.applied && LedgerKey(other) == LedgerKey(pair);
      LedgerKeyInjective(pair, other);
    }
  }

  lemma {:induction false} FreshId(ids: set<nat>) returns (bound: nat)
    ensures forall id :: id in ids ==> id < bound
  {
    if ids == {} {
      bound := 0;
    } else {
      var id :| id in ids;
      var rest := FreshId(ids - {id});
      bound := if id < rest then rest else id + 1;
      forall other | other in ids ensures other < bound {
        assert other != id ==> other in ids - {id};
      }
    }
  }

  lemma ReadyCanBeCredited(s: System, id: nat, pair: Pair, ttl: int)
    requires Ready(s, id, pair)
    ensures CanBeCredited(s, pair, ttl)
  {
    PressCredits(s, id, pair, ttl);
    var commit := ApplyCommit(id, Agreeing(s.frozen[pair]), true);
    var states := Extended([s], [], commit, ttl);
    assert [] + [commit] == [commit];
    assert pair in states[|[commit]|].book.applied;
  }

  lemma LoadedIsReady(s: System, id: nat, pair: Pair, ttl: int)
    requires Inv(s) && Readable(s, pair) && pair !in s.book.applied && id !in s.applies
    ensures Ready(After(s, ApplyLoad(id, pair.0, pair.1), ttl), id, pair)
  {
    LoadsKeep(s, ApplyLoad(id, pair.0, pair.1), ttl);
    PressIsReady(After(s, ApplyLoad(id, pair.0, pair.1), ttl), id, pair);
  }

  /** A readable confirmation is credited by a press, even one that a cancel overtakes. */
  lemma PressOutlivesCancel(s: System, pair: Pair, ttl: int) returns (states: seq<System>, events: seq<Event>)
    requires Inv(s) && Readable(s, pair) && pair !in s.book.applied
    ensures Steps(states, events, ttl) && states[0] == s && pair in states[|events|].book.applied
    ensures |events| == 3 && events[1] == Cancel(pair.0, pair.1)
    ensures states[2].book == s.book && !Readable(states[2], pair)
  {
    var id := FreshId(s.applies.Keys);
    LoadedIsReady(s, id, pair, ttl);
    states, events := LoadCancelCommit(s, id, pair, ttl);
  }

  lemma LoadCancelCommit(s: System, id: nat, pair: Pair, ttl: int) returns (states: seq<System>, events: seq<Event>)
    requires id !in s.applies && Ready(After(s, ApplyLoad(id, pair.0, pair.1), ttl), id, pair)
    ensures Steps(states, events, ttl) && states[0] == s && pair in states[|events|].book.applied
    ensures |events| == 3 && events[1] == Cancel(pair.0, pair.1)
    ensures states[2].book == s.book && !Readable(states[2], pair)
  {
    var load, cancel := ApplyLoad(id, pair.0, pair.1), Cancel(pair.0, pair.1);
    var loaded := After(s, load, ttl);
    var cancelled := After(loaded, cancel, ttl);
    assert Ready(cancelled, id, pair);
    PressCredits(cancelled, id, pair, ttl);
    var commit := ApplyCommit(id, Agreeing(cancelled.frozen[pair]), true);
    events := [load, cancel, commit];
    states := [s, loaded, cancelled, After(cancelled, commit, ttl)];
  }

  /** A confirmation not yet credited can still be, in some continuation, exactly while it can be
      read or a press of it is in flight. */
  lemma StillCreditableIff(states: seq<System>, events: seq<Event>, ttl: int, k: nat, pair: Pair)
    requires Run(states, events, ttl) && k < |states|
    requires pair in states[k].frozen && pair !in states[k].book.applied
    ensures CanBeCredited(states[k], pair, ttl) <==> Readable(states[k], pair) || InFlight(states[k], pair)
  {
    var s := states[k];
    ReachableInv(states, events, ttl, k);
    if InFlight(s, pair) {
      var id :| id in s.applies && (s.applies[id].admin, s.applies[id].nonce) == pair;
      PressIsReady(s, id, pair);
      ReadyCanBeCredited(s, id, pair, ttl);
    } else if Readable(s, pair) {
      var more, es := PressOutlivesCancel(s, pair, ttl);
    } else {
      forall more: seq<System>, es | Steps(more, es, ttl) && more[0] == s ensures pair !in more[|es|].book.applied {
        LostIsNeverCredited(more, es, ttl, 0, |es|, pair);
      }
    }
  }

  // -- a whole dialogue, and a cancel that comes too late ---------------------

  /** One undisturbed message. */
  lemma Spoken(states: seq<System>, events: seq<Event>, admin: Uuid, pending: Pending, text: string, view: View,
               nonce: string, ttl: int) returns (more: seq<System>, all: seq<Event>)
    requires Run(states, events, ttl)
    requires states[|events|].texts == map[] && (admin, nonce) !in states[|events|].frozen
    requires states[|events|].store.Get(PromptKey(admin)) == Some(PendingRecord(pending))
    ensures Run(more, all, ttl)
    ensures more[|all|] == Committed(states[|events|], admin, React(admin, pending, text, Some(view)),
                                     HeardBy(admin, pending, text, _ => Some(view)), nonce, ttl)
  {
    var s := states[|events|];
    RecordsReadBack(pending, Confirmation(admin, "", 0, ""));
    var load, commit := TextLoad(0, admin), TextCommit(0, text, _ => Some(view), nonce);
    var loaded := Extended(states, events, load, ttl);
    var t := loaded[|events| + 1];
    assert t.texts == map[0 := TextFlight(admin, PendingRecord(pending))];
    more := Extended(loaded, events + [load], commit, ttl);
    all := events + [load] + [commit];
    assert t.(texts := t.texts - {0}) == s;
  }

  /** In the last state the administrator is asked for this, and nothing else has happened. */
  predicate Asked(states: seq<System>, events: seq<Event>, admin: Uuid, pending: Pending)
    requires |states| == |events| + 1
  {
    var s := states[|events|];
    && s.store.Get(PromptKey(admin)) == Some(PendingRecord(pending))
    && s.texts == map[] && s.frozen == map[] && s.book == INITIAL.book
  }

  lemma AskedNext(states: seq<System>, events: seq<Event>, admin: Uuid, pending: Pending, text: string, view: View,
                  next: Pending, ttl: int) returns (more: seq<System>, all: seq<Event>)
    requires Run(states, events, ttl) && Asked(states, events, admin, pending)
    requires React(admin, pending, text, Some(view)) == Ask(next)
    ensures Run(more, all, ttl) && Asked(more, all, admin, next)
  {
    more, all := Spoken(states, events, admin, pending, text, view, "", ttl);
  }

  /** A target, an amount and a reason, each acceptable, freeze a confirmation. */
  lemma DialogueFreezes(admin: Uuid, view: View, target: string, amount: string, reason: string, nonce: string,
                        ttl: int)
    returns (states: seq<System>, events: seq<Event>)
    requires Creditable(admin, Some(view)) && view.wallet.Some?
    requires AdminMinor(Cleaned(amount), view.wallet.value).Ok? && 0 < |Cleaned(reason)| <= 500
    ensures Run(states, events, ttl)
    ensures var s := states[|events|];
            && Readable(s, (admin, nonce)) && s.book.applied == []
            && s.frozen == map[(admin, nonce) := Confirmation(view.id, view.wallet.value,
                                 AdminMinor(Cleaned(amount), view.wallet.value).value, Strip(reason, Space))]
  {
    var currency, minor := view.wallet.value, AdminMinor(Cleaned(amount), view.wallet.value).value;
    states := Extended([INITIAL], [], Start(admin), ttl);
    events := [] + [Start(admin)];
    var asked := AwaitAmount(view.id, currency);
    states, events := AskedNext(states, events, admin, AwaitTarget, target, view, asked, ttl);
    var told := AwaitReason(view.id, currency, minor);
    states, events := AskedNext(states, events, admin, asked, amount, view, told, ttl);
    states, events := Spoken(states, events, admin, told, reason, view, nonce, ttl);
  }

  lemma Joined(states: seq<System>, events: seq<Event>, more: seq<System>, es: seq<Event>, ttl: int)
    requires Steps(states, events, ttl) && Steps(more, es, ttl) && more[0] == states[|events|]
    ensures Steps(states + more[1..], events + es, ttl)
    ensures (states + more[1..])[|events + es|] == more[|es|]
  {
    var all, ev := states + more[1..], events + es;
    forall i | 0 <= i < |ev| ensures Enabled(all[i], ev[i]) && all[i + 1] == After(all[i], ev[i], ttl) {
      if i < |events| {
        assert all[i] == states[i] && all[i + 1] == states[i + 1];
      } else {
        assert all[i] == more[i - |events|] && all[i + 1] == more[i - |events| + 1];
      }
    }
  }

  /** Why `CancelledIsNeverCredited` speaks of confirmations not in flight: whatever was typed, a
      press that read the confirmation before its cancel can credit it afterwards. */
  lemma CancelledInFlightIsCredited(admin: Uuid, view: View, target: string, amount: string, reason: string,
                                    nonce: string, ttl: int)
    returns (states: seq<System>, events: seq<Event>, j: nat)
    requires Creditable(admin, Some(view)) && view.wallet.Some?
    requires AdminMinor(Cleaned(amount), view.wallet.value).Ok? && 0 < |Cleaned(reason)| <= 500
    ensures Run(states, events, ttl) && j < |events| && events[j] == Cancel(admin, nonce)
    ensures (admin, nonce) !in states[j + 1].book.applied && (admin, nonce) in states[|events|].book.applied
  {
    states, events := DialogueFreezes(admin, view, target, amount, reason, nonce, ttl);
    ReachableInv(states, events, ttl, |events|);
    j := |events| + 1;
    var more, es := PressOutlivesCancel(states[|events|], (admin, nonce), ttl);
    Joined(states, events, more, es, ttl);
    assert (events + es)[j] == es[1];
    assert (states + more[1..])[j + 1] == more[2];
    states, events := states + more[1..], events + es;
  }

  predicate Keeps(s: System, t: System) {
    && s.book.applied <= t.book.applied
    && (forall pair :: pair in s.frozen ==> pair in t.frozen && t.frozen[pair] == s.frozen[pair])
  }

  lemma StepKeeps(s: System, e: Event, ttl: int)
    requires Enabled(s, e)
    ensures Keeps(s, After(s, e, ttl))
  {
  }

  /** Confirmations and credits are never rewritten. */
  lemma CreditsStay(states: seq<System>, events: seq<Event>, ttl: int, j: nat, k: nat)
    requires Run(states, events, ttl) && j <= k < |states|
    ensures Keeps(states[j], states[k])
  {
    var holds := (i: nat) => i < |states| && Keeps(states[j], states[i]);
    forall i: nat | j <= i < k && holds(i) ensures holds(i + 1) {
      StepKeeps(states[i], events[i], ttl);
      KeepsOn(states[j], states[i], states[i + 1]);
    }
    Carried(holds, j, k);
  }

  lemma KeepsOn(r: System, s: System, t: System)
    requires Keeps(r, s) && Keeps(s, t)
    ensures Keeps(r, t)
  {
  }
}
