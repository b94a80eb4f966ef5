/** Confirmed operations behind single-use nonces: stashing, taking, executing. */
module PendingActions {
  import opened Prelude
  import opened SessionStore

  const NS_ACTION := "action"

  const OPERATIONS := {
    "view", "refresh", "start", "stop", "reboot", "console", "traffic", "snapshot_list", "snapshot_create",
    "snapshot_restore", "snapshot_delete", "reinstall", "delete", "password_reset", "ip_list", "ip_set_rdns",
    "ip_null_route", "ip_unnull_route", "iso_list", "iso_attach", "iso_detach", "monitoring",
    "monitoring_enable", "rename", "renew_now", "auto_renew"
  }

  type Operation = s: string | s in OPERATIONS witness "view"

  datatype Action = Action(operation: Operation, arguments: map<string, string>, token: Option<string>,
                           bodyKey: string, labelKey: string, target: Option<string>)

  function OptionalText(t: Option<string>): Json {
    if t.Some? then JStr(t.value) else JNull
  }

  function ToRecord(a: Action): Record {
    map["operation" := JStr(a.operation),
        "arguments" := JObj(map k | k in a.arguments :: JStr(a.arguments[k])),
        "confirmation_token" := OptionalText(a.token),
        "body_key" := JStr(a.bodyKey),
        "label_key" := JStr(a.labelKey),
        "target" := OptionalText(a.target)]
  }

  /** Python's `str`; `show` is what it prints for anything that is not text. */
  function Str(j: Json, show: Json -> string): string {
    if j.JStr? then j.s else show(j)
  }

  predicate Falsy(j: Json) {
    j == JNull || j == JBool(false) || j == JInt(0) || j == JFloat(0.0) || j == JStr("") || j == JList([]) ||
      j == JObj(map[])
  }

  function TextOrEmpty(j: Json, show: Json -> string): string {
    if Falsy(j) then "" else Str(j, show)
  }

  function TextOrNone(j: Json, show: Json -> string): Option<string> {
    if j.JNull? then None else Some(Str(j, show))
  }

  function FromRecord(record: Record, show: Json -> string): Option<Action> {
    if "operation" !in record || Str(record["operation"], show) !in OPERATIONS then None
    else
      var arguments := Field(record, "arguments");
      Some(Action(Str(record["operation"], show),
                  if arguments.JObj? then map k | k in arguments.fields :: Str(arguments.fields[k], show) else map[],
                  TextOrNone(Field(record, "confirmation_token"), show),
                  TextOrEmpty(Field(record, "body_key"), show),
                  TextOrEmpty(Field(record, "label_key"), show),
                  TextOrNone(Field(record, "target"), show)))
  }

  lemma ActionRoundTrip(a: Action, show: Json -> string)
    ensures FromRecord(ToRecord(a), show) == Some(a)
  {
    var r := ToRecord(a);
    assert r["arguments"].fields.Keys == a.arguments.Keys;
    assert (map k | k in r["arguments"].fields :: Str(r["arguments"].fields[k], show)) == a.arguments;
    assert Field(r, "body_key") == JStr(a.bodyKey) && Field(r, "label_key") == JStr(a.labelKey);
    assert Field(r, "confirmation_token") == OptionalText(a.token) && Field(r, "target") == OptionalText(a.target);
  }

  predicate Reads(j: Json, text: string, show: Json -> string) {
    (j.JStr? && j.s == text) || (!j.JStr? && show(j) == text)
  }

  /** What is read of any record: nothing unless its operation is one of the known; else each part
      as its text, the token and the target none where absent or null, the two keys empty where
      absent or empty in Python's sense, and the arguments none where they are no object. */
  lemma ReadFieldByField(record: Record, show: Json -> string)
    ensures FromRecord(record, show).Some? <==>
              "operation" in record && exists operation ::
                Reads(record["operation"], operation, show) && operation in {
                  "view", "refresh", "start", "stop", "reboot", "console", "traffic", "snapshot_list",
                  "snapshot_create", "snapshot_restore", "snapshot_delete", "reinstall", "delete",
                  "password_reset", "ip_list", "ip_set_rdns", "ip_null_route", "ip_unnull_route", "iso_list",
                  "iso_attach", "iso_detach", "monitoring", "monitoring_enable", "rename", "renew_now", "auto_renew"}
    ensures FromRecord(record, show).Some? ==>
              var a := FromRecord(record, show).value;
              && Reads(record["operation"], a.operation, show)
              && ReadOptional(record, "confirmation_token", a.token, show) &&
                ReadOptional(record, "target", a.target, show)
              && ReadText(record, "body_key", a.bodyKey, show) && ReadText(record, "label_key", a.labelKey, show)
              && (if "arguments" in record && record["arguments"].JObj?
                  then a.arguments.Keys == record["arguments"].fields.Keys &&
                       forall k :: k in a.arguments ==> Reads(record["arguments"].fields[k], a.arguments[k], show)
                  else a.arguments == map[])
  {
    if "operation" in record {
      assert Reads(record["operation"], Str(record["operation"], show), show);
    }
  }

  predicate ReadOptional(record: Record, name: string, read: Option<string>, show: Json -> string) {
    if name !in record || record[name] == JNull then read == None
    else read.Some? && Reads(record[name], read.value, show)
  }

  predicate ReadText(record: Record, name: string, read: string, show: Json -> string) {
    if name !in record || record[name] in {JNull, JBool(false), JInt(0), JFloat(0.0), JStr(""), JList([]), JObj(map[])}
    then read == "" else Reads(record[name], read, show)
  }

  /** One confirmation slot. References are callback fields: no colons. */
  datatype Slot = Slot(customer: Uuid, ref: string, nonce: string)

  function SlotKey(s: Slot): Key {
    Key(NS_ACTION, Join(s.customer, s.ref + ":" + s.nonce))
  }

  predicate Proper(s: Slot) {
    ':' !in s.ref
  }

  lemma SlotKeyInjective(a: Slot, b: Slot)
    requires Proper(a) && Proper(b) && SlotKey(a) == SlotKey(b)
    ensures a == b
  {
    JoinInjective(a.customer, a.ref + ":" + a.nonce, b.customer, b.ref + ":" + b.nonce);
    SplitInjective(a.ref, a.nonce, b.ref, b.nonce);
  }

  // -- replicas at work ---------------------------------------------------

  /** What happened, in order. `press` names the delivery of the button press. */
  datatype LogEntry =
    | Stashed(slot: Slot, action: Action)
    | Taken(slot: Slot, action: Action, press: nat)
    | Executed(slot: Slot, action: Action, press: nat)

  datatype Hold = Hold(slot: Slot, action: Action)

  /** `held`: deliveries that took an action and have not run it yet. */
  datatype System = System(store: Store, held: map<nat, Hold>, used: set<nat>, log: seq<LogEntry>)

  /** A confirmation rendered; a press delivered; its operation run; its reference found expired;
      time passing. */
  datatype Event =
    | Stash(slot: Slot, action: Action)
    | Deliver(id: nat, slot: Slot)
    | Execute(id: nat)
    | Expire(id: nat)
    | Pass(d: nat)

  predicate Enabled(s: System, e: Event) {
    match e
    case Stash(slot, _) => Proper(slot)
    case Deliver(id, slot) => Proper(slot) && id !in s.used
    case Execute(id) => id in s.held
    case Expire(id) => id in s.held
    case Pass(_) => true
  }

  function After(s: System, e: Event, ttl: int, show: Json -> string): System
    requires Enabled(s, e)
  {
    match e
    case Stash(slot, action) =>
      s.(store := s.store.Put(SlotKey(slot), ToRecord(action), ttl), log := s.log + [Stashed(slot, action)])
    case Deliver(id, slot) =>
      var record := s.store.Get(SlotKey(slot));
      var taken := s.(store := s.store.Delete(SlotKey(slot)), used := s.used + {id});
      if record.None? || FromRecord(record.value, show).None? then taken
      else
        var action := FromRecord(record.value, show).value;
        taken.(held := s.held[id := Hold(slot, action)], log := s.log + [Taken(slot, action, id)])
    case Execute(id) =>
      s.(held := s.held - {id}, log := s.log + [Executed(s.held[id].slot, s.held[id].action, id)])
    case Expire(id) => s.(held := s.held - {id})
    case Pass(d) => s.(store := s.store.Tick(d))
  }

  const START := System(EMPTY, map[], {}, [])

  ghost predicate Run(states: seq<System>, events: seq<Event>, ttl: int, show: Json -> string) {
    && |states| == |events| + 1 && states[0] == START
    && forall i :: 0 <= i < |events| ==>
         Enabled(states[i], events[i]) && states[i + 1] == After(states[i], events[i], ttl, show)
  }

  // -- what the log obeys -------------------------------------------------

  predicate Touches(e: LogEntry, slot: Slot) {
    !e.Executed? && e.slot == slot
  }

  /** log[j] stashed this action into the slot, and nothing touched the slot from then until `end`. */
  ghost predicate LatestStash(log: seq<LogEntry>, j: int, end: int, slot: Slot, action: Action) {
    0 <= j < end <= |log| && log[j] == Stashed(slot, action) && forall k :: j < k < end ==> !Touches(log[k], slot)
  }

  /** Every take follows a stash of the very same action, with no other stash into the slot and
      no other take out of it in between. */
  ghost predicate TakesAreFresh(log: seq<LogEntry>) {
    forall i :: 0 <= i < |log| && log[i].Taken? ==> exists j :: LatestStash(log, j, i, log[i].slot, log[i].action)
  }

  /** Every execution belongs to one earlier take of its own, with the same slot and action. */
  ghost predicate ExecutionsWereTaken(log: seq<LogEntry>) {
    && (forall i :: 0 <= i < |log| && log[i].Executed? ==>
          exists j :: 0 <= j < i && log[j] == Taken(log[i].slot, log[i].action, log[i].press))
    && (forall i, j :: 0 <= i < j < |log| && log[i].Taken? && log[j].Taken? ==> log[i].press != log[j].press)
    && (forall i, j :: 0 <= i < j < |log| && log[i].Executed? && log[j].Executed? ==> log[i].press != log[j].press)
  }

  ghost predicate StoreMatchesLog(s: System) {
    forall slot :: Proper(slot) && s.store.Get(SlotKey(slot)).Some? ==>
      exists j, action :: LatestStash(s.log, j, |s.log|, slot, action) &&
        s.store.Get(SlotKey(slot)).value == ToRecord(action)
  }

  ghost predicate HeldWereTaken(s: System) {
    && (forall id :: id in s.held ==>
          Taken(s.held[id].slot, s.held[id].action, id) in s.log &&
          forall i :: 0 <= i < |s.log| && s.log[i].Executed? ==> s.log[i].press != id)
    && (forall i :: 0 <= i < |s.log| && !s.log[i].Stashed? ==> s.log[i].press in s.used)
  }

  ghost predicate Inv(s: System) {
    TakesAreFresh(s.log) && ExecutionsWereTaken(s.log) && StoreMatchesLog(s) && HeldWereTaken(s)
  }

  lemma LatestStashGrows(log: seq<LogEntry>, e: LogEntry, j: int, slot: Slot, action: Action)
    requires LatestStash(log, j, |log|, slot, action) && !Touches(e, slot)
    ensures LatestStash(log + [e], j, |log| + 1, slot, action)
  {
  }

  lemma StashKeepsStore(s: System, e: Event, ttl: int, show: Json -> string)
    requires StoreMatchesLog(s) && Enabled(s, e) && e.Stash?
    ensures StoreMatchesLog(After(s, e, ttl, show))
  {
    var t := After(s, e, ttl, show);
    forall slot | Proper(slot) && t.store.Get(SlotKey(slot)).Some?
      ensures exists j, action ::
                LatestStash(t.log, j, |t.log|, slot, action) && t.store.Get(SlotKey(slot)).value == ToRecord(action)
    {
      if slot == e.slot {
        assert LatestStash(t.log, |s.log|, |t.log|, slot, e.action);
      } else {
        if SlotKey(slot) == SlotKey(e.slot) { SlotKeyInjective(slot, e.slot); }
        var j, action :| LatestStash(s.log, j, |s.log|, slot, action) &&
                         s.store.Get(SlotKey(slot)).value == ToRecord(action);
        LatestStashGrows(s.log, Stashed(e.slot, e.action), j, slot, action);
      }
    }
  }

  lemma StashKeeps(s: System, e: Event, ttl: int, show: Json -> string)
    requires Inv(s) && Enabled(s, e) && e.Stash?
    ensures Inv(After(s, e, ttl, show))
  {
    StashKeepsStore(s, e, ttl, show);
    TakesGrow(s.log, Stashed(e.slot, e.action));
    ExecutionsGrow(s.log, Stashed(e.slot, e.action));
  }

  /** Earlier takes and executions are none of a later entry's business. */
  lemma TakesGrow(log: seq<LogEntry>, e: LogEntry)
    requires TakesAreFresh(log)
    requires e.Taken? ==> exists j :: LatestStash(log, j, |log|, e.slot, e.action)
    ensures TakesAreFresh(log + [e])
  {
    var all := log + [e];
    forall i | 0 <= i < |all| && all[i].Taken? ensures exists j :: LatestStash(all, j, i, all[i].slot, all[i].action) {
      var j :| LatestStash(log, j, i, all[i].slot, all[i].action);
      assert LatestStash(all, j, i, all[i].slot, all[i].action);
    }
  }

  lemma ExecutionsGrow(log: seq<LogEntry>, e: LogEntry)
    requires ExecutionsWereTaken(log)
    requires e.Taken? ==> forall i :: 0 <= i < |log| && log[i].Taken? ==> log[i].press != e.press
    requires e.Executed? ==> Taken(e.slot, e.action, e.press) in log &&
                             forall i :: 0 <= i < |log| && log[i].Executed? ==> log[i].press != e.press
    ensures ExecutionsWereTaken(log + [e])
  {
    var all := log + [e];
    forall i | 0 <= i < |all| && all[i].Executed?
      ensures exists j :: 0 <= j < i && all[j] == Taken(all[i].slot, all[i].action, all[i].press)
    {
      var j :| 0 <= j < i && log[j] == Taken(all[i].slot, all[i].action, all[i].press);
      assert all[j] == log[j];
    }
  }

  lemma DeliverKeeps(s: System, e: Event, ttl: int, show: Json -> string)
    requires Inv(s) && Enabled(s, e) && e.Deliver?
    ensures Inv(After(s, e, ttl, show))
  {
    DeliverLog(s, e, ttl, show);
    DeliverHeld(s, e, ttl, show);
    DeliverStore(s, e, ttl, show);
  }

  lemma DeliverLog(s: System, e: Event, ttl: int, show: Json -> string)
    requires Inv(s) && Enabled(s, e) && e.Deliver?
    ensures TakesAreFresh(After(s, e, ttl, show).log) && ExecutionsWereTaken(After(s, e, ttl, show).log)
  {
    var record := s.store.Get(SlotKey(e.slot));
    if record.Some? {
      var j, action :| LatestStash(s.log, j, |s.log|, e.slot, action) && record.value == ToRecord(action);
      ActionRoundTrip(action, show);
      TakesGrow(s.log, Taken(e.slot, action, e.id));
      ExecutionsGrow(s.log, Taken(e.slot, action, e.id));
      assert After(s, e, ttl, show).log == s.log + [Taken(e.slot, action, e.id)];
    }
  }

  lemma DeliverHeld(s: System, e: Event, ttl: int, show: Json -> string)
    requires HeldWereTaken(s) && Enabled(s, e) && e.Deliver?
    ensures HeldWereTaken(After(s, e, ttl, show))
  {
    var t := After(s, e, ttl, show);
    if |t.log| > |s.log| {
      assert t.log[|s.log|] == Taken(e.slot, t.held[e.id].action, e.id);
    }
  }

  lemma DeliverStore(s: System, e: Event, ttl: int, show: Json -> string)
    requires StoreMatchesLog(s) && Enabled(s, e) && e.Deliver?
    ensures StoreMatchesLog(After(s, e, ttl, show))
  {
    var t := After(s, e, ttl, show);
    forall slot | Proper(slot) && t.store.Get(SlotKey(slot)).Some?
      ensures exists j, action ::
                LatestStash(t.log, j, |t.log|, slot, action) && t.store.Get(SlotKey(slot)).value == ToRecord(action)
    {
      assert slot != e.slot;
      var j, action :| LatestStash(s.log, j, |s.log|, slot, action) &&
                       s.store.Get(SlotKey(slot)).value == ToRecord(action);
      if |t.log| > |s.log| {
        LatestStashGrows(s.log, t.log[|s.log|], j, slot, action);
      }
    }
  }

  lemma ExecutedKeepsStore(s: System, t: System, entry: LogEntry)
    requires StoreMatchesLog(s) && entry.Executed? && t.store == s.store && t.log == s.log + [entry]
    ensures StoreMatchesLog(t)
  {
    forall slot | Proper(slot) && t.store.Get(SlotKey(slot)).Some?
      ensures exists j, action ::
                LatestStash(t.log, j, |t.log|, slot, action) && t.store.Get(SlotKey(slot)).value == ToRecord(action)
    {
      var j, action :| LatestStash(s.log, j, |s.log|, slot, action) &&
                       s.store.Get(SlotKey(slot)).value == ToRecord(action);
      LatestStashGrows(s.log, entry, j, slot, action);
    }
  }

  lemma ExecuteKeeps(s: System, e: Event, ttl: int, show: Json -> string)
    requires Inv(s) && Enabled(s, e) && e.Execute?
    ensures Inv(After(s, e, ttl, show))
  {
    var entry := Executed(s.held[e.id].slot, s.held[e.id].action, e.id);
    ExecutedKeepsStore(s, After(s, e, ttl, show), entry);
    TakesGrow(s.log, entry);
    ExecutionsGrow(s.log, entry);
  }

  lemma LossKeeps(s: System, e: Event, ttl: int, show: Json -> string)
    requires Inv(s) && Enabled(s, e) && (e.Expire? || e.Pass?)
    ensures Inv(After(s, e, ttl, show))
  {
    var t := After(s, e, ttl, show);
    assert t.log == s.log;
    assert forall k :: t.store.Get(k).Some? ==> t.store.Get(k) == s.store.Get(k);
  }

  lemma {:induction false} ReachableInv(states: seq<System>, events: seq<Event>, ttl: int, show: Json -> string, k: nat)
    requires Run(states, events, ttl, show) && k < |states|
    ensures Inv(states[k])
  {
    if k > 0 {
      ReachableInv(states, events, ttl, show, k - 1);
      match events[k - 1]
      case Stash(_, _) => StashKeeps(states[k - 1], events[k - 1], ttl, show);
      case Deliver(_, _) => DeliverKeeps(states[k - 1], events[k - 1], ttl, show);
      case Execute(_) => ExecuteKeeps(states[k - 1], events[k - 1], ttl, show);
      case _ => LossKeeps(states[k - 1], events[k - 1], ttl, show);
    }
  }

  // -- counting -----------------------------------------------------------

  function Stashes(log: seq<LogEntry>, slot: Slot): nat {
    if log == [] then 0
    else Stashes(log[..|log| - 1], slot)
         + (if log[|log| - 1].Stashed? && log[|log| - 1].slot == slot then 1 else 0)
  }

  function Takes(log: seq<LogEntry>, slot: Slot): nat {
    if log == [] then 0
    else Takes(log[..|log| - 1], slot)
         + (if log[|log| - 1].Taken? && log[|log| - 1].slot == slot then 1 else 0)
  }

  function Count(log: seq<LogEntry>, counts: LogEntry -> bool): set<nat> {
    set i: nat | i < |log| && counts(log[i])
  }

  lemma {:induction false} CountGrows(log: seq<LogEntry>, counts: LogEntry -> bool)
    requires log != []
    ensures |Count(log, counts)| == |Count(log[..|log| - 1], counts)| + if counts(log[|log| - 1]) then 1 else 0
  {
    var init := log[..|log| - 1];
    assert Count(log, counts) == Count(init, counts) + if counts(log[|log| - 1]) then {|log| - 1} else {};
  }

  /** How many entries of each kind there are for the slot. */
  lemma {:induction false} CountsAre(log: seq<LogEntry>, slot: Slot)
    ensures Stashes(log, slot) == |Count(log, (e: LogEntry) => e.Stashed? && e.slot == slot)|
    ensures Takes(log, slot) == |Count(log, (e: LogEntry) => e.Taken? && e.slot == slot)|
    ensures Executions(log, slot) == |Count(log, (e: LogEntry) => e.Executed? && e.slot == slot)|
  {
    if log != [] {
      CountsAre(log[..|log| - 1], slot);
      CountGrows(log, (e: LogEntry) => e.Stashed? && e.slot == slot);
      CountGrows(log, (e: LogEntry) => e.Taken? && e.slot == slot);
      CountGrows(log, (e: LogEntry) => e.Executed? && e.slot == slot);
    }
  }

  function TakersOf(log: seq<LogEntry>, slot: Slot): set<nat> {
    set i | 0 <= i < |log| && log[i].Taken? && log[i].slot == slot :: log[i].press
  }

  function ExecutorsOf(log: seq<LogEntry>, slot: Slot): set<nat> {
    set i | 0 <= i < |log| && log[i].Executed? && log[i].slot == slot :: log[i].press
  }

  ghost predicate Full(log: seq<LogEntry>, slot: Slot) {
    exists j, action :: LatestStash(log, j, |log|, slot, action)
  }

  lemma {:induction false} TakesAtMostStashes(log: seq<LogEntry>, slot: Slot)
    requires TakesAreFresh(log)
    ensures Takes(log, slot) + (if Full(log, slot) then 1 else 0) <= Stashes(log, slot)
  {
    if log != [] {
      var n := |log| - 1;
      var shorter := log[..n];
      forall i | 0 <= i < n && shorter[i].Taken?
        ensures exists j :: LatestStash(shorter, j, i, shorter[i].slot, shorter[i].action)
      {
        var j :| LatestStash(log, j, i, log[i].slot, log[i].action);
        assert LatestStash(shorter, j, i, shorter[i].slot, shorter[i].action);
      }
      TakesAtMostStashes(shorter, slot);
      if log[n].Taken? && log[n].slot == slot {
        var j :| LatestStash(log, j, n, slot, log[n].action);
        assert LatestStash(shorter, j, n, slot, log[n].action);
        assert Touches(log[n], slot);
      } else if Full(log, slot) && !(log[n].Stashed? && log[n].slot == slot) {
        var j, action :| LatestStash(log, j, |log|, slot, action);
        assert LatestStash(shorter, j, n, slot, action);
      }
    }
  }

  lemma {:induction false} TakersAreTakes(log: seq<LogEntry>, slot: Slot)
    ensures |TakersOf(log, slot)| <= Takes(log, slot)
  {
    if log != [] {
      var n := |log| - 1;
      TakersAreTakes(log[..n], slot);
      var newcomer := if log[n].Taken? && log[n].slot == slot then {log[n].press} else {};
      assert TakersOf(log, slot) == TakersOf(log[..n], slot) + newcomer;
    } else {
      assert TakersOf(log, slot) == {};
    }
  }

  lemma SubsetSize(a: set<nat>, b: set<nat>)
    requires a <= b
    ensures |a| <= |b|
  {
    assert b == a + (b - a);
  }

  function Executions(log: seq<LogEntry>, slot: Slot): nat {
    if log == [] then 0
    else Executions(log[..|log| - 1], slot)
         + (if log[|log| - 1].Executed? && log[|log| - 1].slot == slot then 1 else 0)
  }

  lemma {:induction false} ExecutionsAreExecutors(log: seq<LogEntry>, slot: Slot)
    requires forall i, j :: 0 <= i < j < |log| && log[i].Executed? && log[j].Executed? ==> log[i].press != log[j].press
    ensures Executions(log, slot) == |ExecutorsOf(log, slot)|
  {
    if log != [] {
      var n := |log| - 1;
      ExecutionsAreExecutors(log[..n], slot);
      var newcomer := if log[n].Executed? && log[n].slot == slot then {log[n].press} else {};
      assert ExecutorsOf(log, slot) == ExecutorsOf(log[..n], slot) + newcomer;
      assert ExecutorsOf(log[..n], slot) !! newcomer;
    } else {
      assert ExecutorsOf(log, slot) == {};
    }
  }

  /** Over any interleaving of renderings, presses, expiries and clock ticks, on any number of
      replicas: a slot is executed at most as often as it was taken, and taken at most as often
      as it was stashed. */
  lemma ExecutedAtMostStashed(states: seq<System>, events: seq<Event>, ttl: int, show: Json -> string, k: nat,
                              slot: Slot)
    requires Run(states, events, ttl, show) && k < |states|
    ensures Executions(states[k].log, slot) <= Takes(states[k].log, slot) <= Stashes(states[k].log, slot)
  {
    ReachableInv(states, events, ttl, show, k);
    var log := states[k].log;
    TakesAtMostStashes(log, slot);
    TakersAreTakes(log, slot);
    ExecutionsAreExecutors(log, slot);
    forall id | id in ExecutorsOf(log, slot) ensures id in TakersOf(log, slot) {
      var i :| 0 <= i < |log| && log[i].Executed? && log[i].slot == slot && log[i].press == id;
      var j :| 0 <= j < i && log[j] == Taken(log[i].slot, log[i].action, log[i].press);
    }
    SubsetSize(ExecutorsOf(log, slot), TakersOf(log, slot));
  }

  /** What runs is what was stashed last before its press took it. */
  lemma ExecutesLatestStash(states: seq<System>, events: seq<Event>, ttl: int, show: Json -> string, k: nat, i: nat)
    requires Run(states, events, ttl, show) && k < |states| && i < |states[k].log| && states[k].log[i].Executed?
    ensures var log := states[k].log;
            exists t, j :: 0 <= t < i && log[t] == Taken(log[i].slot, log[i].action, log[i].press) &&
                           LatestStash(log, j, t, log[i].slot, log[i].action)
  {
    ReachableInv(states, events, ttl, show, k);
    var log := states[k].log;
    var t :| 0 <= t < i && log[t] == Taken(log[i].slot, log[i].action, log[i].press);
    var j :| LatestStash(log, j, t, log[t].slot, log[t].action);
  }

  /** Between two takes of one slot lies a stash into it, of what the second took. */
  lemma StashBetweenTakes(states: seq<System>, events: seq<Event>, ttl: int, show: Json -> string, k: nat, i: nat,
                          j: nat)
    requires Run(states, events, ttl, show) && k < |states| && i < j < |states[k].log|
    requires states[k].log[i].Taken? && states[k].log[j].Taken? && states[k].log[i].slot == states[k].log[j].slot
    ensures exists m :: i < m < j && states[k].log[m] == Stashed(states[k].log[j].slot, states[k].log[j].action)
  {
    ReachableInv(states, events, ttl, show, k);
    var log := states[k].log;
    var m :| LatestStash(log, m, j, log[j].slot, log[j].action);
    assert Touches(log[i], log[j].slot);
  }

  // -- when executions alternate with stashes --------------------------------

  /** A delivery that took from the slot has not run yet. */
  predicate Holding(s: System, slot: Slot) {
    exists id :: id in s.held && s.held[id].slot == slot
  }

  predicate DisciplinedAt(s: System, e: Event) {
    e.Stash? ==> !Holding(s, e.slot)
  }

  /** From event `n` on, nothing is rendered into a slot while a delivery that took from it runs. */
  ghost predicate DisciplinedFrom(states: seq<System>, events: seq<Event>, n: nat)
    requires |events| < |states|
  {
    forall i :: n <= i < |events| ==> DisciplinedAt(states[i], events[i])
  }

  predicate NoStash(log: seq<LogEntry>, from: int, to: int, slot: Slot)
    requires -1 <= from && to <= |log|
  {
    forall k :: from < k < to ==> !(log[k].Stashed? && log[k].slot == slot)
  }

  /** log[t] is the take of entry i, and nothing was stashed into the slot since. */
  predicate FreshSince(log: seq<LogEntry>, t: int, end: int, slot: Slot, action: Action, press: nat)
    requires end <= |log|
  {
    0 <= t < end && log[t] == Taken(slot, action, press) && NoStash(log, t, end, slot)
  }

  ghost predicate Fresh(log: seq<LogEntry>) {
    forall i :: 0 <= i < |log| && log[i].Executed? ==>
      exists t :: FreshSince(log, t, i, log[i].slot, log[i].action, log[i].press)
  }

  ghost predicate HeldFresh(s: System) {
    forall id :: id in s.held ==> exists t :: FreshSince(s.log, t, |s.log|, s.held[id].slot, s.held[id].action, id)
  }

  lemma FreshGrows(log: seq<LogEntry>, e: LogEntry)
    requires Fresh(log)
    requires e.Executed? ==> exists t :: FreshSince(log, t, |log|, e.slot, e.action, e.press)
    ensures Fresh(log + [e])
  {
    var all := log + [e];
    forall i | 0 <= i < |all| && all[i].Executed?
      ensures exists t :: FreshSince(all, t, i, all[i].slot, all[i].action, all[i].press)
    {
      var t :| FreshSince(log, t, i, all[i].slot, all[i].action, all[i].press);
      assert FreshSince(all, t, i, all[i].slot, all[i].action, all[i].press);
    }
  }

  lemma HeldGrows(log: seq<LogEntry>, e: LogEntry, t: int, slot: Slot, action: Action, press: nat)
    requires FreshSince(log, t, |log|, slot, action, press) && !(e.Stashed? && e.slot == slot)
    ensures FreshSince(log + [e], t, |log| + 1, slot, action, press)
  {
  }

  lemma LogGrows(s: System, e: Event, ttl: int, show: Json -> string)
    requires Enabled(s, e)
    ensures var t := After(s, e, ttl, show);
            t.log == s.log || (|t.log| == |s.log| + 1 && t.log == s.log + [t.log[|s.log|]])
  {
  }

  lemma StepStaysFresh(s: System, e: Event, ttl: int, show: Json -> string)
    requires Enabled(s, e) && DisciplinedAt(s, e) && Fresh(s.log) && HeldFresh(s)
    ensures Fresh(After(s, e, ttl, show).log)
  {
    var t := After(s, e, ttl, show);
    LogGrows(s, e, ttl, show);
    if t.log != s.log {
      FreshGrows(s.log, t.log[|s.log|]);
    }
  }

  lemma StepHoldsFresh(s: System, e: Event, ttl: int, show: Json -> string)
    requires Enabled(s, e) && DisciplinedAt(s, e) && HeldFresh(s)
    ensures HeldFresh(After(s, e, ttl, show))
  {
    var after := After(s, e, ttl, show);
    LogGrows(s, e, ttl, show);
    forall id | id in after.held
      ensures exists t :: FreshSince(after.log, t, |after.log|, after.held[id].slot, after.held[id].action, id)
    {
      if id in s.held && s.held[id] == after.held[id] {
        var t :| FreshSince(s.log, t, |s.log|, s.held[id].slot, s.held[id].action, id);
        if after.log != s.log {
          HeldGrows(s.log, after.log[|s.log|], t, s.held[id].slot, s.held[id].action, id);
        }
      } else {
        assert FreshSince(after.log, |s.log|, |after.log|, after.held[id].slot, after.held[id].action, id);
      }
    }
  }

  lemma {:induction false} DisciplinedIsFresh(states: seq<System>, events: seq<Event>, ttl: int, show: Json -> string,
                                              k: nat)
    requires Run(states, events, ttl, show) && k < |states| && DisciplinedFrom(states, events, 0)
    ensures Fresh(states[k].log) && HeldFresh(states[k])
  {
    if k > 0 {
      DisciplinedIsFresh(states, events, ttl, show, k - 1);
      assert DisciplinedAt(states[k - 1], events[k - 1]);
      StepStaysFresh(states[k - 1], events[k - 1], ttl, show);
      StepHoldsFresh(states[k - 1], events[k - 1], ttl, show);
    }
  }

  /** As long as nothing is rendered into a slot while a delivery that took from it runs, every
      execution runs what was stashed into its slot last. */
  lemma DisciplinedRunsLatest(states: seq<System>, events: seq<Event>, ttl: int, show: Json -> string, k: nat, i: nat)
    requires Run(states, events, ttl, show) && DisciplinedFrom(states, events, 0)
    requires k < |states| && i < |states[k].log| && states[k].log[i].Executed?
    ensures var log := states[k].log;
            exists j :: 0 <= j < i && log[j] == Stashed(log[i].slot, log[i].action) && NoStash(log, j, i, log[i].slot)
  {
    ReachableInv(states, events, ttl, show, k);
    DisciplinedIsFresh(states, events, ttl, show, k);
    var log := states[k].log;
    var t :| FreshSince(log, t, i, log[i].slot, log[i].action, log[i].press);
    var j :| LatestStash(log, j, t, log[t].slot, log[t].action);
    forall m | j < m < i ensures !(log[m].Stashed? && log[m].slot == log[i].slot) {
      if m < t { assert !Touches(log[m], log[i].slot); }
    }
    assert NoStash(log, j, i, log[i].slot);
  }

  /** And between two executions of one slot lies a stash into it. */
  lemma DisciplinedAlternates(states: seq<System>, events: seq<Event>, ttl: int, show: Json -> string, k: nat, i: nat,
                              n: nat)
    requires Run(states, events, ttl, show) && DisciplinedFrom(states, events, 0)
    requires k < |states| && i < n < |states[k].log| && states[k].log[i].Executed? && states[k].log[n].Executed?
    requires states[k].log[i].slot == states[k].log[n].slot
    ensures exists j :: i < j < n && states[k].log[j] == Stashed(states[k].log[n].slot, states[k].log[n].action)
  {
    ReachableInv(states, events, ttl, show, k);
    DisciplinedIsFresh(states, events, ttl, show, k);
    var log := states[k].log;
    var slot := log[i].slot;
    var t :| FreshSince(log, t, i, slot, log[i].action, log[i].press);
    var u :| FreshSince(log, u, n, slot, log[n].action, log[n].press);
    var j :| LatestStash(log, j, u, slot, log[u].action);
    assert Touches(log[t], slot) && Touches(log[u], slot) && t != u;
    var m :| LatestStash(log, m, t, slot, log[t].action);
    assert log[m].Stashed? && log[m].slot == slot;
    assert t < j < u;
  }

  lemma Extend(states: seq<System>, events: seq<Event>, e: Event, ttl: int, show: Json -> string)
    returns (longer: seq<System>, all: seq<Event>)
    requires Run(states, events, ttl, show) && Enabled(states[|states| - 1], e)
    ensures Run(longer, all, ttl, show) && all == events + [e]
    ensures longer[|longer| - 1] == After(states[|states| - 1], e, ttl, show)
  {
    longer, all := states + [After(states[|states| - 1], e, ttl, show)], events + [e];
  }

  lemma StashThenTake(states: seq<System>, events: seq<Event>, slot: Slot, action: Action, id: nat, ttl: int,
                      show: Json -> string)
    returns (longer: seq<System>, all: seq<Event>)
    requires Run(states, events, ttl, show) && Proper(slot) && id !in states[|states| - 1].used
    ensures Run(longer, all, ttl, show)
    ensures var s, t := states[|states| - 1], longer[|longer| - 1];
            && t.held == s.held[id := Hold(slot, action)] && t.used == s.used + {id}
            && t.log == s.log + [Stashed(slot, action), Taken(slot, action, id)]
  {
    ActionRoundTrip(action, show);
    longer, all := Extend(states, events, Stash(slot, action), ttl, show);
    longer, all := Extend(longer, all, Deliver(id, slot), ttl, show);
  }

  /** Only the taking is ordered against the stashes: two executions may both fall after the
      second of two stashes, the first of them running what the first stash held. */
  lemma ExecutionMayLag(slot: Slot, first: Action, second: Action, ttl: int, show: Json -> string)
    returns (states: seq<System>, events: seq<Event>)
    requires Proper(slot)
    ensures Run(states, events, ttl, show)
    ensures states[|states| - 1].log == [Stashed(slot, first), Taken(slot, first, 0), Stashed(slot, second),
                                         Taken(slot, second, 1), Executed(slot, first, 0), Executed(slot, second, 1)]
  {
    states, events := StashThenTake([START], [], slot, first, 0, ttl, show);
    states, events := StashThenTake(states, events, slot, second, 1, ttl, show);
    states, events := Extend(states, events, Execute(0), ttl, show);
    states, events := Extend(states, events, Execute(1), ttl, show);
  }

  lemma {:induction false} SameEventsSameStates(a: seq<System>, short: seq<Event>, b: seq<System>, long: seq<Event>,
                                                ttl: int, show: Json -> string, k: nat)
    requires Run(a, short, ttl, show) && Run(b, long, ttl, show) && short <= long && k < |a|
    ensures a[k] == b[k]
  {
    if k > 0 {
      SameEventsSameStates(a, short, b, long, ttl, show, k - 1);
      assert short[k - 1] == long[k - 1];
    }
  }

  lemma ExecutedAfterStashIsStale(log: seq<LogEntry>, slot: Slot, stashed: Action, executed: Action, press: nat)
    ensures !Fresh(log + [Stashed(slot, stashed), Executed(slot, executed, press)])
  {
    var all := log + [Stashed(slot, stashed), Executed(slot, executed, press)];
    var last := |log| + 1;
    assert all[|log|].Stashed? && all[|log|].slot == slot;
    forall t ensures !FreshSince(all, t, last, slot, executed, press) {
    }
    assert all[last].Executed?;
  }

  /** A stash while such a delivery runs, and the delivery's execution after it. */
  lemma StashWhileHolding(states: seq<System>, events: seq<Event>, slot: Slot, action: Action, ttl: int,
                          show: Json -> string)
    returns (longer: seq<System>, more: seq<Event>)
    requires Run(states, events, ttl, show) && Proper(slot) && Holding(states[|states| - 1], slot)
    ensures Run(longer, events + [Stash(slot, action)] + more, ttl, show)
    ensures forall e :: e in more ==> !e.Stash?
    ensures !Fresh(longer[|longer| - 1].log)
  {
    var s := states[|states| - 1];
    var id :| id in s.held && s.held[id].slot == slot;
    var middle, some := Extend(states, events, Stash(slot, action), ttl, show);
    var all;
    longer, all := Extend(middle, some, Execute(id), ttl, show);
    more := [Execute(id)];
    ExecutedAfterStashIsStale(s.log, slot, action, s.held[id].action, id);
    assert longer[|longer| - 1].log == s.log + [Stashed(slot, action), Executed(slot, s.held[id].action, id)];
  }

  /** Rendering a confirmation into a slot is harmless, whatever disciplined events follow,
      exactly when no delivery that took from that slot is still running. */
  lemma StashIsHarmlessIff(states: seq<System>, events: seq<Event>, slot: Slot, action: Action, ttl: int,
                           show: Json -> string)
    requires Run(states, events, ttl, show) && DisciplinedFrom(states, events, 0) && Proper(slot)
    ensures (forall longer: seq<System>, more: seq<Event> ::
               Run(longer, events + [Stash(slot, action)] + more, ttl, show)
               && DisciplinedFrom(longer, events + [Stash(slot, action)] + more, |events| + 1)
               ==> Fresh(longer[|longer| - 1].log))
            <==> !Holding(states[|states| - 1], slot)
  {
    var s := states[|states| - 1];
    if Holding(s, slot) {
      var longer, more := StashWhileHolding(states, events, slot, action, ttl, show);
      var all := events + [Stash(slot, action)] + more;
      assert forall i :: |events| < i < |all| ==> all[i] in more;
      assert DisciplinedFrom(longer, all, |events| + 1);
    } else {
      forall longer: seq<System>, more: seq<Event> | Run(longer, events + [Stash(slot, action)] + more, ttl, show)
          && DisciplinedFrom(longer, events + [Stash(slot, action)] + more, |events| + 1)
        ensures Fresh(longer[|longer| - 1].log)
      {
        var all := events + [Stash(slot, action)] + more;
        forall i | 0 <= i < |all| ensures DisciplinedAt(longer[i], all[i]) {
          if i <= |events| {
            SameEventsSameStates(states, events, longer, all, ttl, show, i);
            assert i < |events| ==> DisciplinedAt(states[i], events[i]);
          }
        }
        DisciplinedIsFresh(longer, all, ttl, show, |longer| - 1);
      }
    }
  }
}
