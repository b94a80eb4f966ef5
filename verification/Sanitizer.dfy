/** Redaction of outbound payloads. */
module Sanitizer {
  import S = SessionStore

  type Json = S.Json

  /** A Python value, a dict with its keys as `str` shows them. `Mapping` is a mapping that is
      not a dict, of some class; `Dated` has `isoformat`. */
  datatype Value =
    | Nothing
    | Bool(b: bool)
    | Int(i: int)
    | Float(r: real)
    | Text(s: string)
    | Dict(fields: map<string, Value>)
    | ListOf(items: seq<Value>)
    | TupleOf(items: seq<Value>)
    | SetOf(items: seq<Value>)
    | Mapping(name: string, fields: map<string, Value>)
    | Dated(shown: string)
    | Object(shown: string)

  /** Which keys are hidden, what the patterns make of a text, and the `str` of a mapping of
      that class with those fields. */
  datatype Policy = Policy(hides: string -> bool, scrub: string -> string, show: (string, map<string, Value>) -> string)

  const PLACEHOLDER := "***REDACTED***"
  const MAX_VALUE_CHARS := 300

  /** `_redact_value`. */
  function Redact(p: Policy, v: Value): Value
    decreases v
  {
    match v
    case Dict(fields) =>
      Dict(map k | k in fields :: if p.hides(k) then Text(PLACEHOLDER) else Redact(p, fields[k]))
    case Text(s) => Text(p.scrub(s))
    case ListOf(items) => ListOf(seq(|items|, i requires 0 <= i < |items| => Redact(p, items[i])))
    case TupleOf(items) => ListOf(seq(|items|, i requires 0 <= i < |items| => Redact(p, items[i])))
    case _ => v
  }

  function Cut(s: string): string {
    if |s| <= MAX_VALUE_CHARS then s else s[..MAX_VALUE_CHARS]
  }

  /** `_json_safe`. */
  function JsonSafe(p: Policy, v: Value): Json
    decreases v
  {
    match v
    case Nothing => S.JNull
    case Bool(b) => S.JBool(b)
    case Int(i) => S.JInt(i)
    case Float(r) => S.JFloat(r)
    case Text(s) => S.JStr(Cut(s))
    case Dict(fields) => S.JObj(map k | k in fields :: JsonSafe(p, fields[k]))
    case ListOf(items) => S.JList(seq(|items|, i requires 0 <= i < |items| => JsonSafe(p, items[i])))
    case TupleOf(items) => S.JList(seq(|items|, i requires 0 <= i < |items| => JsonSafe(p, items[i])))
    case SetOf(items) => S.JList(seq(|items|, i requires 0 <= i < |items| => JsonSafe(p, items[i])))
    case Mapping(name, fields) => S.JStr(Cut(p.show(name, fields)))
    case Dated(shown) => S.JStr(Cut(shown))
    case Object(shown) => S.JStr(Cut(shown))
  }

  function Clean(p: Policy, v: Value): Json {
    JsonSafe(p, Redact(p, v))
  }

  /** What becomes of a part of a payload: inside a set, `raw`, nothing is redacted. */
  function Image(p: Policy, v: Value, raw: bool): Json {
    if raw then JsonSafe(p, v) else Clean(p, v)
  }

  predicate Dropped(j: Json) {
    j == S.JNull || j == S.JStr("")
  }

  /** `sanitize_payload`. */
  function Sanitize(p: Policy, payload: map<string, Value>): map<string, Json> {
    var safe := Clean(p, Dict(payload));
    if safe.JObj? then map k | k in safe.fields && !Dropped(safe.fields[k]) :: safe.fields[k] else map[]
  }

  lemma DictImage(p: Policy, f: map<string, Value>, raw: bool)
    ensures Image(p, Dict(f), raw).JObj? && Image(p, Dict(f), raw).fields.Keys == f.Keys
    ensures forall k :: k in f ==>
              Image(p, Dict(f), raw).fields[k] ==
                if !raw && p.hides(k) then S.JStr(PLACEHOLDER)
                else Image(p, f[k], raw)
  {
    assert |PLACEHOLDER| == 14;
    assert JsonSafe(p, Text(PLACEHOLDER)) == S.JStr(PLACEHOLDER);
    if !raw {
      var r := Redact(p, Dict(f));
      assert forall k :: k in f ==> r.fields[k] == if p.hides(k) then Text(PLACEHOLDER) else Redact(p, f[k]);
    }
  }

  lemma ListImage(p: Policy, items: seq<Value>, raw: bool)
    ensures Image(p, TupleOf(items), raw) == Image(p, ListOf(items), raw)
    ensures Image(p, ListOf(items), raw).JList? && |Image(p, ListOf(items), raw).items| == |items|
    ensures forall i :: 0 <= i < |items| ==> Image(p, ListOf(items), raw).items[i] == Image(p, items[i], raw)
  {
  }

  lemma SetImage(p: Policy, items: seq<Value>, raw: bool)
    ensures Image(p, SetOf(items), raw).JList? && |Image(p, SetOf(items), raw).items| == |items|
    ensures forall i :: 0 <= i < |items| ==> Image(p, SetOf(items), raw).items[i] == Image(p, items[i], true)
  {
  }

  // -- what differs only in secrets -----------------------------------------

  /** Equal but for what is stored under hidden keys, at any depth. */
  predicate Same(p: Policy, v: Value, w: Value)
    decreases v
  {
    match v
    case Dict(f) =>
      w.Dict? && f.Keys == w.fields.Keys && forall k :: k in f ==> p.hides(k) || Same(p, f[k], w.fields[k])
    case Mapping(name, f) =>
      w.Mapping? && name == w.name && f.Keys == w.fields.Keys &&
      forall k :: k in f ==> p.hides(k) || Same(p, f[k], w.fields[k])
    case ListOf(items) =>
      w.ListOf? && |items| == |w.items| && forall i :: 0 <= i < |items| ==> Same(p, items[i], w.items[i])
    case TupleOf(items) =>
      w.TupleOf? && |items| == |w.items| && forall i :: 0 <= i < |items| ==> Same(p, items[i], w.items[i])
    case SetOf(items) =>
      w.SetOf? && |items| == |w.items| && forall i :: 0 <= i < |items| ==> Same(p, items[i], w.items[i])
    case _ => v == w
  }

  /** The text of this mapping, as far as it is kept, depends on what is under its hidden keys. */
  ghost predicate Tells(p: Policy, name: string, f: map<string, Value>) {
    exists g :: Same(p, Mapping(name, f), Mapping(name, g)) && Cut(p.show(name, g)) != Cut(p.show(name, f))
  }

  /** A mapping that is not a dict and tells its secrets, itself not under a hidden key; or, in a
      set, where nothing is hidden, a secret in a dict. */
  ghost predicate Leaks(p: Policy, v: Value, raw: bool)
    decreases v
  {
    match v
    case Dict(f) => exists k :: k in f && if p.hides(k) then raw else Leaks(p, f[k], raw)
    case Mapping(name, f) => Tells(p, name, f)
    case ListOf(items) => exists i :: 0 <= i < |items| && Leaks(p, items[i], raw)
    case TupleOf(items) => exists i :: 0 <= i < |items| && Leaks(p, items[i], raw)
    case SetOf(items) => exists i :: 0 <= i < |items| && Leaks(p, items[i], true)
    case _ => false
  }

  lemma {:induction false} SameIsReflexive(p: Policy, v: Value)
    ensures Same(p, v, v)
    decreases v
  {
    match v
    case Dict(f) => forall k | k in f ensures Same(p, f[k], f[k]) { SameIsReflexive(p, f[k]); }
    case Mapping(_, f) => forall k | k in f ensures Same(p, f[k], f[k]) { SameIsReflexive(p, f[k]); }
    case ListOf(items) =>
      forall i | 0 <= i < |items| ensures Same(p, items[i], items[i]) { SameIsReflexive(p, items[i]); }
    case TupleOf(items) =>
      forall i | 0 <= i < |items| ensures Same(p, items[i], items[i]) { SameIsReflexive(p, items[i]); }
    case SetOf(items) =>
      forall i | 0 <= i < |items| ensures Same(p, items[i], items[i]) { SameIsReflexive(p, items[i]); }
    case _ =>
  }

  lemma SameObjects(p: Policy, f: map<string, Value>, g: map<string, Value>, raw: bool)
    requires f.Keys == g.Keys
    requires forall k :: k in f ==> (!raw && p.hides(k)) || Image(p, f[k], raw) == Image(p, g[k], raw)
    ensures Image(p, Dict(f), raw) == Image(p, Dict(g), raw)
  {
    DictImage(p, f, raw);
    DictImage(p, g, raw);
    assert Image(p, Dict(f), raw).fields == Image(p, Dict(g), raw).fields;
  }

  lemma SameLists(p: Policy, items: seq<Value>, others: seq<Value>, raw: bool)
    requires |items| == |others| && forall i :: 0 <= i < |items| ==> Image(p, items[i], raw) == Image(p, others[i], raw)
    ensures Image(p, ListOf(items), raw) == Image(p, ListOf(others), raw)
    ensures Image(p, TupleOf(items), raw) == Image(p, TupleOf(others), raw)
  {
    ListImage(p, items, raw);
    ListImage(p, others, raw);
    assert Image(p, ListOf(items), raw).items == Image(p, ListOf(others), raw).items;
  }

  lemma SameSets(p: Policy, items: seq<Value>, others: seq<Value>, raw: bool)
    requires |items| == |others| && forall i :: 0 <= i < |items| ==>
               Image(p, items[i], true) == Image(p, others[i], true)
    ensures Image(p, SetOf(items), raw) == Image(p, SetOf(others), raw)
  {
    SetImage(p, items, raw);
    SetImage(p, others, raw);
    assert Image(p, SetOf(items), raw).items == Image(p, SetOf(others), raw).items;
  }

  /** Values that differ only in secrets are cleaned alike, unless something leaks. */
  lemma {:induction false} SameIsCleanedAlike(p: Policy, v: Value, w: Value, raw: bool)
    requires Same(p, v, w) && !Leaks(p, v, raw)
    ensures Image(p, v, raw) == Image(p, w, raw)
    decreases v
  {
    match v
    case Dict(f) =>
      forall k | k in f && !p.hides(k) ensures Image(p, f[k], raw) == Image(p, w.fields[k], raw) {
        SameIsCleanedAlike(p, f[k], w.fields[k], raw);
      }
      SameObjects(p, f, w.fields, raw);
    case Mapping(name, f) => assert w == Mapping(name, w.fields);
    case ListOf(items) =>
      forall i | 0 <= i < |items| ensures Image(p, items[i], raw) == Image(p, w.items[i], raw) {
        SameIsCleanedAlike(p, items[i], w.items[i], raw);
      }
      SameLists(p, items, w.items, raw);
    case TupleOf(items) =>
      forall i | 0 <= i < |items| ensures Image(p, items[i], raw) == Image(p, w.items[i], raw) {
        SameIsCleanedAlike(p, items[i], w.items[i], raw);
      }
      SameLists(p, items, w.items, raw);
    case SetOf(items) =>
      forall i | 0 <= i < |items| ensures Image(p, items[i], true) == Image(p, w.items[i], true) {
        SameIsCleanedAlike(p, items[i], w.items[i], true);
      }
      SameSets(p, items, w.items, raw);
    case _ =>
  }

  // -- and what leaks -------------------------------------------------------

  /** w is v but for its secrets and is cleaned otherwise, so that one of them is seen. */
  predicate Varies(p: Policy, v: Value, w: Value, raw: bool) {
    && Same(p, v, w) && Image(p, v, raw) != Image(p, w, raw)
    && !(Dropped(Image(p, v, raw)) && Dropped(Image(p, w, raw)))
  }

  lemma FieldIsSame(p: Policy, f: map<string, Value>, k: string, other: Value)
    requires k in f && (p.hides(k) || Same(p, f[k], other))
    ensures Same(p, Dict(f), Dict(f[k := other]))
  {
    forall x | x in f ensures p.hides(x) || Same(p, f[x], f[k := other][x]) {
      SameIsReflexive(p, f[x]);
    }
  }

  lemma FieldIsSeen(p: Policy, f: map<string, Value>, k: string, other: Value, raw: bool)
    requires k in f && (raw || !p.hides(k)) && Image(p, f[k], raw) != Image(p, other, raw)
    ensures Image(p, Dict(f), raw) != Image(p, Dict(f[k := other]), raw) && Image(p, Dict(f), raw).JObj?
  {
    DictImage(p, f, raw);
    DictImage(p, f[k := other], raw);
    assert Image(p, Dict(f), raw).fields[k] != Image(p, Dict(f[k := other]), raw).fields[k];
  }

  lemma FieldVaries(p: Policy, f: map<string, Value>, k: string, other: Value, raw: bool)
    requires k in f && (raw || !p.hides(k)) && (p.hides(k) || Same(p, f[k], other))
    requires Image(p, f[k], raw) != Image(p, other, raw)
    ensures Varies(p, Dict(f), Dict(f[k := other]), raw)
  {
    FieldIsSame(p, f, k, other);
    FieldIsSeen(p, f, k, other, raw);
  }

  lemma MappingVaries(p: Policy, name: string, f: map<string, Value>, g: map<string, Value>, raw: bool)
    requires Same(p, Mapping(name, f), Mapping(name, g)) && Cut(p.show(name, g)) != Cut(p.show(name, f))
    ensures Varies(p, Mapping(name, f), Mapping(name, g), raw)
  {
  }

  lemma ItemIsSame(p: Policy, items: seq<Value>, i: nat, other: Value)
    requires i < |items| && Same(p, items[i], other)
    ensures Same(p, ListOf(items), ListOf(items[i := other])) && Same(p, TupleOf(items), TupleOf(items[i := other]))
    ensures Same(p, SetOf(items), SetOf(items[i := other]))
  {
    forall x | 0 <= x < |items| ensures Same(p, items[x], items[i := other][x]) {
      SameIsReflexive(p, items[x]);
    }
  }

  lemma ItemVaries(p: Policy, items: seq<Value>, i: nat, other: Value, raw: bool)
    requires i < |items| && Varies(p, items[i], other, raw)
    ensures Varies(p, ListOf(items), ListOf(items[i := other]), raw) &&
            Varies(p, TupleOf(items), TupleOf(items[i := other]), raw)
  {
    ItemIsSame(p, items, i, other);
    ListImage(p, items, raw);
    ListImage(p, items[i := other], raw);
    assert Image(p, ListOf(items), raw).items[i] != Image(p, ListOf(items[i := other]), raw).items[i];
  }

  lemma ElementVaries(p: Policy, items: seq<Value>, i: nat, other: Value, raw: bool)
    requires i < |items| && Varies(p, items[i], other, true)
    ensures Varies(p, SetOf(items), SetOf(items[i := other]), raw)
  {
    ItemIsSame(p, items, i, other);
    SetImage(p, items, raw);
    SetImage(p, items[i := other], raw);
    assert Image(p, SetOf(items), raw).items[i] != Image(p, SetOf(items[i := other]), raw).items[i];
  }

  function Otherwise(j: Json): Value {
    if j == S.JInt(0) then Int(1) else Int(0)
  }

  /** A leaking value has such a variant. */
  lemma {:induction false} LeakVaries(p: Policy, v: Value, raw: bool) returns (w: Value)
    requires Leaks(p, v, raw)
    ensures Varies(p, v, w, raw)
    decreases v
  {
    match v
    case Dict(f) =>
      var k :| k in f && if p.hides(k) then raw else Leaks(p, f[k], raw);
      var other := Otherwise(Image(p, f[k], raw));
      if !p.hides(k) { other := LeakVaries(p, f[k], raw); }
      w := Dict(f[k := other]);
      FieldVaries(p, f, k, other, raw);
    case Mapping(name, f) =>
      var g :| Same(p, Mapping(name, f), Mapping(name, g)) && Cut(p.show(name, g)) != Cut(p.show(name, f));
      w := Mapping(name, g);
      MappingVaries(p, name, f, g, raw);
    case ListOf(items) =>
      var i :| 0 <= i < |items| && Leaks(p, items[i], raw);
      var other := LeakVaries(p, items[i], raw);
      w := ListOf(items[i := other]);
      ItemVaries(p, items, i, other, raw);
    case TupleOf(items) =>
      var i :| 0 <= i < |items| && Leaks(p, items[i], raw);
      var other := LeakVaries(p, items[i], raw);
      w := TupleOf(items[i := other]);
      ItemVaries(p, items, i, other, raw);
    case SetOf(items) =>
      var i :| 0 <= i < |items| && Leaks(p, items[i], true);
      var other := LeakVaries(p, items[i], true);
      w := SetOf(items[i := other]);
      ElementVaries(p, items, i, other, raw);
  }

  /** Entry by entry, a payload is cleaned and left out when nothing remains. */
  lemma SanitizedEntry(p: Policy, payload: map<string, Value>, k: string)
    requires k in payload && !p.hides(k)
    ensures k in Sanitize(p, payload) <==> !Dropped(Clean(p, payload[k]))
    ensures k in Sanitize(p, payload) ==> Sanitize(p, payload)[k] == Clean(p, payload[k])
  {
    DictImage(p, payload, false);
  }

  lemma PayloadVaries(p: Policy, payload: map<string, Value>) returns (other: map<string, Value>)
    requires Leaks(p, Dict(payload), false)
    ensures Same(p, Dict(payload), Dict(other)) && Sanitize(p, payload) != Sanitize(p, other)
  {
    var k :| k in payload && !p.hides(k) && Leaks(p, payload[k], false);
    var w := LeakVaries(p, payload[k], false);
    other := payload[k := w];
    FieldVaries(p, payload, k, w, false);
    SanitizedEntry(p, payload, k);
    SanitizedEntry(p, other, k);
  }

  /** Nothing of what is under hidden keys shows in what is sent. */
  ghost predicate TellsNothing(p: Policy, payload: map<string, Value>) {
    forall other: map<string, Value> ::
      Same(p, Dict(payload), Dict(other)) ==> Sanitize(p, payload) == Sanitize(p, other)
  }

  /** The sanitized payload tells nothing of what is under hidden keys, whatever it is, exactly
      when no mapping that is not a dict tells its secrets in its text. */
  lemma NonInterferenceIff(p: Policy, payload: map<string, Value>)
    ensures TellsNothing(p, payload) <==> !Leaks(p, Dict(payload), false)
  {
    if Leaks(p, Dict(payload), false) {
      var other := PayloadVaries(p, payload);
    } else {
      forall other: map<string, Value> | Same(p, Dict(payload), Dict(other))
        ensures Sanitize(p, payload) == Sanitize(p, other)
      {
        SameIsCleanedAlike(p, Dict(payload), Dict(other), false);
      }
    }
  }

  /** Something is stored under a hidden key. */
  predicate HasSecret(p: Policy, v: Value)
    decreases v
  {
    match v
    case Dict(f) => exists k :: k in f && (p.hides(k) || HasSecret(p, f[k]))
    case Mapping(_, f) => exists k :: k in f && (p.hides(k) || HasSecret(p, f[k]))
    case ListOf(items) => exists i :: 0 <= i < |items| && HasSecret(p, items[i])
    case TupleOf(items) => exists i :: 0 <= i < |items| && HasSecret(p, items[i])
    case SetOf(items) => exists i :: 0 <= i < |items| && HasSecret(p, items[i])
    case _ => false
  }

  /** Without a secret there is nothing to differ in, and a mapping has nothing to tell. */
  lemma {:induction false} NoSecretMeansEqual(p: Policy, v: Value, w: Value)
    requires Same(p, v, w) && !HasSecret(p, v)
    ensures v == w
    decreases v
  {
    match v
    case Dict(f) => forall k | k in f ensures f[k] == w.fields[k] { NoSecretMeansEqual(p, f[k], w.fields[k]); }
    case Mapping(_, f) =>
      forall k | k in f ensures f[k] == w.fields[k] { NoSecretMeansEqual(p, f[k], w.fields[k]); }
      assert f == w.fields;
    case ListOf(items) =>
      forall i | 0 <= i < |items| ensures items[i] == w.items[i] { NoSecretMeansEqual(p, items[i], w.items[i]); }
    case TupleOf(items) =>
      forall i | 0 <= i < |items| ensures items[i] == w.items[i] { NoSecretMeansEqual(p, items[i], w.items[i]); }
    case SetOf(items) =>
      forall i | 0 <= i < |items| ensures items[i] == w.items[i] { NoSecretMeansEqual(p, items[i], w.items[i]); }
    case _ =>
  }

  lemma NoSecretNothingToTell(p: Policy, name: string, f: map<string, Value>)
    requires !HasSecret(p, Mapping(name, f))
    ensures !Tells(p, name, f)
  {
    forall g | Same(p, Mapping(name, f), Mapping(name, g)) ensures g == f {
      NoSecretMeansEqual(p, Mapping(name, f), Mapping(name, g));
    }
  }

  // -- for mappings of any text -----------------------------------------------

  /** Outside hidden keys stands a mapping other than a dict with something under a hidden key;
      or, in a set, where nothing is hidden, a dict has such a key. */
  predicate Exposed(p: Policy, v: Value, raw: bool)
    decreases v
  {
    match v
    case Dict(f) => exists k :: k in f && if p.hides(k) then raw else Exposed(p, f[k], raw)
    case Mapping(_, _) => HasSecret(p, v)
    case ListOf(items) => exists i :: 0 <= i < |items| && Exposed(p, items[i], raw)
    case TupleOf(items) => exists i :: 0 <= i < |items| && Exposed(p, items[i], raw)
    case SetOf(items) => exists i :: 0 <= i < |items| && Exposed(p, items[i], true)
    case _ => false
  }

  function Another(v: Value): Value {
    if v == Nothing then Bool(true) else Nothing
  }

  lemma FieldDiffers(p: Policy, f: map<string, Value>, k: string, other: Value)
    requires k in f && f[k] != other && (p.hides(k) || Same(p, f[k], other))
    ensures f[k := other] != f && Same(p, Dict(f), Dict(f[k := other]))
    ensures forall name :: Same(p, Mapping(name, f), Mapping(name, f[k := other]))
  {
    FieldIsSame(p, f, k, other);
    assert f[k := other][k] != f[k];
  }

  lemma ItemDiffers(p: Policy, items: seq<Value>, i: nat, other: Value)
    requires i < |items| && items[i] != other && Same(p, items[i], other)
    ensures items[i := other] != items && Same(p, ListOf(items), ListOf(items[i := other]))
    ensures Same(p, TupleOf(items), TupleOf(items[i := other])) && Same(p, SetOf(items), SetOf(items[i := other]))
  {
    ItemIsSame(p, items, i, other);
    assert items[i := other][i] != items[i];
  }

  /** Where there is a secret, it can be another one. */
  lemma {:induction false} SecretVaries(p: Policy, v: Value) returns (w: Value)
    requires HasSecret(p, v)
    ensures Same(p, v, w) && v != w
    decreases v
  {
    match v
    case Dict(f) =>
      var k :| k in f && (p.hides(k) || HasSecret(p, f[k]));
      var other := Another(f[k]);
      if !p.hides(k) { other := SecretVaries(p, f[k]); }
      w := Dict(f[k := other]);
      FieldDiffers(p, f, k, other);
    case Mapping(name, f) =>
      var k :| k in f && (p.hides(k) || HasSecret(p, f[k]));
      var other := Another(f[k]);
      if !p.hides(k) { other := SecretVaries(p, f[k]); }
      w := Mapping(name, f[k := other]);
      FieldDiffers(p, f, k, other);
    case ListOf(items) =>
      var i :| 0 <= i < |items| && HasSecret(p, items[i]);
      var other := SecretVaries(p, items[i]);
      w := ListOf(items[i := other]);
      ItemDiffers(p, items, i, other);
    case TupleOf(items) =>
      var i :| 0 <= i < |items| && HasSecret(p, items[i]);
      var other := SecretVaries(p, items[i]);
      w := TupleOf(items[i := other]);
      ItemDiffers(p, items, i, other);
    case SetOf(items) =>
      var i :| 0 <= i < |items| && HasSecret(p, items[i]);
      var other := SecretVaries(p, items[i]);
      w := SetOf(items[i := other]);
      ItemDiffers(p, items, i, other);
  }

  type Show = (string, map<string, Value>) -> string

  lemma SameForAnyText(p: Policy, show: Show, v: Value, w: Value)
    ensures Same(p.(show := show), v, w) <==> Same(p, v, w)
    decreases v
  {
    match v
    case Dict(f) =>
      if w.Dict? && f.Keys == w.fields.Keys {
        forall k | k in f { SameForAnyText(p, show, f[k], w.fields[k]); }
      }
    case Mapping(_, f) =>
      if w.Mapping? && f.Keys == w.fields.Keys {
        forall k | k in f { SameForAnyText(p, show, f[k], w.fields[k]); }
      }
    case ListOf(items) =>
      if w.ListOf? && |items| == |w.items| {
        forall i | 0 <= i < |items| { SameForAnyText(p, show, items[i], w.items[i]); }
      }
    case TupleOf(items) =>
      if w.TupleOf? && |items| == |w.items| {
        forall i | 0 <= i < |items| { SameForAnyText(p, show, items[i], w.items[i]); }
      }
    case SetOf(items) =>
      if w.SetOf? && |items| == |w.items| {
        forall i | 0 <= i < |items| { SameForAnyText(p, show, items[i], w.items[i]); }
      }
    case _ =>
  }

  lemma MappingCanTell(p: Policy, name: string, f: map<string, Value>) returns (show: Show)
    requires HasSecret(p, Mapping(name, f))
    ensures Tells(p.(show := show), name, f)
  {
    var w := SecretVaries(p, Mapping(name, f));
    show := (m, g) => if g == f then "a" else "b";
    SameForAnyText(p, show, Mapping(name, f), w);
    assert Same(p.(show := show), Mapping(name, f), Mapping(name, w.fields));
  }

  /** What is exposed leaks under some text of mappings, */
  lemma {:induction false} ExposedCanLeak(p: Policy, v: Value, raw: bool) returns (show: Show)
    requires Exposed(p, v, raw)
    ensures Leaks(p.(show := show), v, raw)
    decreases v
  {
    match v
    case Dict(f) =>
      var k :| k in f && if p.hides(k) then raw else Exposed(p, f[k], raw);
      show := p.show;
      if !p.hides(k) { show := ExposedCanLeak(p, f[k], raw); }
    case Mapping(name, f) => show := MappingCanTell(p, name, f);
    case ListOf(items) =>
      var i :| 0 <= i < |items| && Exposed(p, items[i], raw);
      show := ExposedCanLeak(p, items[i], raw);
    case TupleOf(items) =>
      var i :| 0 <= i < |items| && Exposed(p, items[i], raw);
      show := ExposedCanLeak(p, items[i], raw);
    case SetOf(items) =>
      var i :| 0 <= i < |items| && Exposed(p, items[i], true);
      show := ExposedCanLeak(p, items[i], true);
  }

  /** and nothing else does under any. */
  lemma {:induction false} LeaksAreExposed(p: Policy, v: Value, raw: bool)
    requires Leaks(p, v, raw)
    ensures Exposed(p, v, raw)
    decreases v
  {
    match v
    case Dict(f) =>
      var k :| k in f && if p.hides(k) then raw else Leaks(p, f[k], raw);
      if !p.hides(k) { LeaksAreExposed(p, f[k], raw); }
    case Mapping(name, f) => if !HasSecret(p, v) { NoSecretNothingToTell(p, name, f); }
    case ListOf(items) =>
      var i :| 0 <= i < |items| && Leaks(p, items[i], raw);
      LeaksAreExposed(p, items[i], raw);
    case TupleOf(items) =>
      var i :| 0 <= i < |items| && Leaks(p, items[i], raw);
      LeaksAreExposed(p, items[i], raw);
    case SetOf(items) =>
      var i :| 0 <= i < |items| && Leaks(p, items[i], true);
      LeaksAreExposed(p, items[i], true);
  }

  lemma {:induction false} ExposedForAnyText(p: Policy, show: Show, v: Value, raw: bool)
    ensures Exposed(p.(show := show), v, raw) <==> Exposed(p, v, raw)
    ensures HasSecret(p.(show := show), v) <==> HasSecret(p, v)
    decreases v
  {
    match v
    case Dict(f) => forall k | k in f { ExposedForAnyText(p, show, f[k], raw); }
    case Mapping(_, f) => forall k | k in f { ExposedForAnyText(p, show, f[k], raw); }
    case ListOf(items) => forall i | 0 <= i < |items| { ExposedForAnyText(p, show, items[i], raw); }
    case TupleOf(items) => forall i | 0 <= i < |items| { ExposedForAnyText(p, show, items[i], raw); }
    case SetOf(items) => forall i | 0 <= i < |items| { ExposedForAnyText(p, show, items[i], true); }
    case _ =>
  }

  /** Whatever text the mappings have: the sanitized payload tells nothing of what is under hidden
      keys exactly when nothing is exposed, which the payload alone decides. */
  lemma TellsNothingIff(p: Policy, payload: map<string, Value>)
    ensures (forall show: Show :: TellsNothing(p.(show := show), payload)) <==> !Exposed(p, Dict(payload), false)
  {
    if Exposed(p, Dict(payload), false) {
      var show := ExposedCanLeak(p, Dict(payload), false);
      NonInterferenceIff(p.(show := show), payload);
      assert !TellsNothing(p.(show := show), payload);
    } else {
      forall show: Show ensures TellsNothing(p.(show := show), payload) {
        var q := p.(show := show);
        ExposedForAnyText(p, show, Dict(payload), false);
        if Leaks(q, Dict(payload), false) { LeaksAreExposed(q, Dict(payload), false); }
        NonInterferenceIff(q, payload);
      }
    }
  }

  /** `str` of a mapping proxy over one text entry. */
  function ProxyText(key: string, value: string): string {
    "mappingproxy({'" + key + "': '" + value + "'})"
  }

  predicate Letters(s: string) {
    forall c :: c in s ==> 'a' <= c <= 'z' || 'A' <= c <= 'Z' || '0' <= c <= '9' || c == '_' || c == '-'
  }

  /** A read-only view of a dict, as `types.MappingProxyType` makes it, passes its secret on. */
  lemma ProxyTells(p: Policy, entry: string, key: string, secret: string)
    requires forall value :: Letters(value) ==> p.show("mappingproxy", map[key := Text(value)]) == ProxyText(key, value)
    requires p.hides(key) && !p.hides(entry) && Letters(secret) && |key| + |secret| <= 200
    ensures Leaks(p, Dict(map[entry := Mapping("mappingproxy", map[key := Text(secret)])]), false)
    ensures Sanitize(p, map[entry := Mapping("mappingproxy", map[key := Text(secret)])]) ==
              map[entry := S.JStr(ProxyText(key, secret))]
  {
    var f := map[key := Text(secret)];
    var value := if |secret| == 1 then "" else "x";
    var g := map[key := Text(value)];
    assert |ProxyText(key, secret)| == |key| + |secret| + 22;
    assert |ProxyText(key, value)| == |key| + |value| + 22;
    assert Same(p, Mapping("mappingproxy", f), Mapping("mappingproxy", g));
    assert Tells(p, "mappingproxy", f);
    var payload := map[entry := Mapping("mappingproxy", f)];
    assert Leaks(p, payload[entry], false);
    SanitizedEntry(p, payload, entry);
    assert Sanitize(p, payload).Keys <= payload.Keys;
  }

  // -- which texts the patterns see -----------------------------------------

  /** What one would expect: like `Image`, with the patterns applied to every text. */
  function Scrubbed(p: Policy, v: Value, raw: bool): Json
    decreases v
  {
    match v
    case Text(s) => S.JStr(Cut(p.scrub(s)))
    case Dict(f) =>
      S.JObj(map k | k in f :: if !raw && p.hides(k) then S.JStr(PLACEHOLDER) else Scrubbed(p, f[k], raw))
    case ListOf(items) => S.JList(seq(|items|, i requires 0 <= i < |items| => Scrubbed(p, items[i], raw)))
    case TupleOf(items) => S.JList(seq(|items|, i requires 0 <= i < |items| => Scrubbed(p, items[i], raw)))
    case SetOf(items) => S.JList(seq(|items|, i requires 0 <= i < |items| => Scrubbed(p, items[i], true)))
    case Mapping(name, f) => S.JStr(Cut(p.scrub(p.show(name, f))))
    case Dated(shown) => S.JStr(Cut(p.scrub(shown)))
    case Object(shown) => S.JStr(Cut(p.scrub(shown)))
    case _ => Image(p, v, raw)
  }

  /** A text, not under a hidden key, that is in a set or is the text of a mapping or an object. */
  predicate Unseen(p: Policy, v: Value, text: string -> bool, raw: bool)
    decreases v
  {
    match v
    case Text(s) => raw && text(s)
    case Dict(f) => exists k :: k in f && (raw || !p.hides(k)) && Unseen(p, f[k], text, raw)
    case ListOf(items) => exists i :: 0 <= i < |items| && Unseen(p, items[i], text, raw)
    case TupleOf(items) => exists i :: 0 <= i < |items| && Unseen(p, items[i], text, raw)
    case SetOf(items) => exists i :: 0 <= i < |items| && Unseen(p, items[i], text, true)
    case Mapping(name, f) => text(p.show(name, f))
    case Dated(shown) => text(shown)
    case Object(shown) => text(shown)
    case _ => false
  }

  /** The patterns would change what is kept of it. */
  function Scrubbable(p: Policy): string -> bool {
    s => Cut(p.scrub(s)) != Cut(s)
  }

  /** Every text in the output has gone through the patterns, exactly when those that did not
      hold nothing the patterns would change. */
  lemma {:induction false} TextsAreScrubbedIff(p: Policy, v: Value, raw: bool)
    ensures Image(p, v, raw) == Scrubbed(p, v, raw) <==> !Unseen(p, v, Scrubbable(p), raw)
    decreases v
  {
    match v
    case Dict(f) =>
      forall k | k in f
        ensures Image(p, f[k], raw) == Scrubbed(p, f[k], raw) <==> !Unseen(p, f[k], Scrubbable(p), raw)
      {
        TextsAreScrubbedIff(p, f[k], raw);
      }
      FieldsAreScrubbedIff(p, f, raw);
    case ListOf(items) =>
      ListImage(p, items, raw);
      ItemsAreScrubbedIff(p, items, raw, Image(p, v, raw).items, Scrubbed(p, v, raw).items);
    case TupleOf(items) =>
      ListImage(p, items, raw);
      ItemsAreScrubbedIff(p, items, raw, Image(p, v, raw).items, Scrubbed(p, v, raw).items);
    case SetOf(items) =>
      SetImage(p, items, raw);
      ItemsAreScrubbedIff(p, items, true, Image(p, v, raw).items, Scrubbed(p, v, raw).items);
    case _ =>
  }

  lemma FieldsAreScrubbedIff(p: Policy, f: map<string, Value>, raw: bool)
    requires forall k :: k in f ==> (Image(p, f[k], raw) == Scrubbed(p, f[k], raw) <==>
                                     !Unseen(p, f[k], Scrubbable(p), raw))
    ensures Image(p, Dict(f), raw) == Scrubbed(p, Dict(f), raw) <==> !Unseen(p, Dict(f), Scrubbable(p), raw)
  {
    DictImage(p, f, raw);
    var got, want := Image(p, Dict(f), raw).fields, Scrubbed(p, Dict(f), raw).fields;
    assert got.Keys == want.Keys;
    assert got == want <==> forall k :: k in f ==> got[k] == want[k];
  }

  lemma {:induction false} ItemsAreScrubbedIff(p: Policy, items: seq<Value>, raw: bool, got: seq<Json>, want: seq<Json>)
    requires |got| == |want| == |items|
    requires forall i :: 0 <= i < |items| ==> got[i] == Image(p, items[i], raw) && want[i] == Scrubbed(p, items[i], raw)
    ensures got == want <==> !exists i :: 0 <= i < |items| && Unseen(p, items[i], Scrubbable(p), raw)
    decreases items
  {
    forall i | 0 <= i < |items| ensures got[i] != want[i] <==> Unseen(p, items[i], Scrubbable(p), raw) {
      TextsAreScrubbedIff(p, items[i], raw);
    }
  }

  /** Whatever the patterns are: all of the output's texts went through them exactly when no set
      holds a text and no mapping or other object stands outside the hidden keys. */
  lemma AnyPatternsSeeAllIff(p: Policy, v: Value)
    ensures (forall scrub: string -> string :: Clean(p.(scrub := scrub), v) == Scrubbed(p.(scrub := scrub), v, false))
            <==> !Unseen(p, v, _ => true, false)
  {
    if Unseen(p, v, _ => true, false) {
      var scrub := (s: string) => if Cut(s) == "" then "x" else "";
      var q := p.(scrub := scrub);
      UnseenGrows(p, q, v, _ => true, Scrubbable(q), false);
      TextsAreScrubbedIff(q, v, false);
      assert Clean(p.(scrub := scrub), v) != Scrubbed(p.(scrub := scrub), v, false);
    } else {
      forall scrub: string -> string ensures Clean(p.(scrub := scrub), v) == Scrubbed(p.(scrub := scrub), v, false) {
        var q := p.(scrub := scrub);
        if Unseen(q, v, Scrubbable(q), false) {
          UnseenGrows(q, p, v, Scrubbable(q), _ => true, false);
        }
        TextsAreScrubbedIff(q, v, false);
      }
    }
  }

  lemma {:induction false} UnseenGrows(p: Policy, q: Policy, v: Value, some: string -> bool, more: string -> bool,
                                       raw: bool)
    requires p.hides == q.hides && p.show == q.show && (forall s :: some(s) ==> more(s)) && Unseen(p, v, some, raw)
    ensures Unseen(q, v, more, raw)
    decreases v
  {
    match v
    case Dict(f) =>
      var k :| k in f && (raw || !p.hides(k)) && Unseen(p, f[k], some, raw);
      UnseenGrows(p, q, f[k], some, more, raw);
    case ListOf(items) =>
      var i :| 0 <= i < |items| && Unseen(p, items[i], some, raw);
      UnseenGrows(p, q, items[i], some, more, raw);
    case TupleOf(items) =>
      var i :| 0 <= i < |items| && Unseen(p, items[i], some, raw);
      UnseenGrows(p, q, items[i], some, more, raw);
    case SetOf(items) =>
      var i :| 0 <= i < |items| && Unseen(p, items[i], some, true);
      UnseenGrows(p, q, items[i], some, more, true);
    case _ =>
  }

  /** In a set, whatever the patterns would hide in a text is left there. */
  lemma SetsAreNotScrubbed(p: Policy, s: string)
    requires |s| <= MAX_VALUE_CHARS
    ensures Clean(p, SetOf([Text(s)])) == S.JList([S.JStr(s)])
  {
    SetImage(p, [Text(s)], false);
  }

  // -- what the output looks like -------------------------------------------

  /** No text longer than the limit, at any depth. */
  predicate Bounded(j: Json)
    decreases j
  {
    match j
    case JStr(s) => |s| <= MAX_VALUE_CHARS
    case JList(items) => forall i :: 0 <= i < |items| ==> Bounded(items[i])
    case JObj(fields) => forall k :: k in fields ==> Bounded(fields[k])
    case _ => true
  }

  lemma {:induction false} JsonSafeIsBounded(p: Policy, v: Value)
    ensures Bounded(JsonSafe(p, v))
    decreases v
  {
    match v
    case Dict(f) => forall k | k in f ensures Bounded(JsonSafe(p, f[k])) { JsonSafeIsBounded(p, f[k]); }
    case ListOf(items) =>
      forall i | 0 <= i < |items| ensures Bounded(JsonSafe(p, items[i])) { JsonSafeIsBounded(p, items[i]); }
    case TupleOf(items) =>
      forall i | 0 <= i < |items| ensures Bounded(JsonSafe(p, items[i])) { JsonSafeIsBounded(p, items[i]); }
    case SetOf(items) =>
      forall i | 0 <= i < |items| ensures Bounded(JsonSafe(p, items[i])) { JsonSafeIsBounded(p, items[i]); }
    case _ =>
  }

  /** In every object, at any depth, a hidden key holds the placeholder. */
  predicate Masked(p: Policy, j: Json)
    decreases j
  {
    match j
    case JList(items) => forall i :: 0 <= i < |items| ==> Masked(p, items[i])
    case JObj(fields) =>
      forall k :: k in fields ==> if p.hides(k) then fields[k] == S.JStr(PLACEHOLDER) else Masked(p, fields[k])
    case _ => true
  }

  /** What a set may hold. */
  predicate Hashable(v: Value)
    decreases v
  {
    match v
    case Dict(_) => false
    case ListOf(_) => false
    case TupleOf(items) => forall i :: 0 <= i < |items| ==> Hashable(items[i])
    case SetOf(items) => forall i :: 0 <= i < |items| ==> Hashable(items[i])
    case _ => true
  }

  predicate WellFormed(v: Value)
    decreases v
  {
    match v
    case Dict(f) => forall k :: k in f ==> WellFormed(f[k])
    case ListOf(items) => forall i :: 0 <= i < |items| ==> WellFormed(items[i])
    case TupleOf(items) => forall i :: 0 <= i < |items| ==> WellFormed(items[i])
    case SetOf(items) => forall i :: 0 <= i < |items| ==> Hashable(items[i])
    case _ => true
  }

  lemma {:induction false} HashableIsMasked(p: Policy, v: Value)
    requires Hashable(v)
    ensures Masked(p, JsonSafe(p, v))
    decreases v
  {
    match v
    case TupleOf(items) =>
      forall i | 0 <= i < |items| ensures Masked(p, JsonSafe(p, items[i])) { HashableIsMasked(p, items[i]); }
    case SetOf(items) =>
      forall i | 0 <= i < |items| ensures Masked(p, JsonSafe(p, items[i])) { HashableIsMasked(p, items[i]); }
    case _ =>
  }

  lemma {:induction false} CleanIsMasked(p: Policy, v: Value)
    requires WellFormed(v)
    ensures Masked(p, Clean(p, v))
    decreases v
  {
    match v
    case Dict(f) =>
      var j := Clean(p, v);
      assert |PLACEHOLDER| == 14;
      forall k | k in f ensures if p.hides(k) then j.fields[k] == S.JStr(PLACEHOLDER) else Masked(p, j.fields[k]) {
        if p.hides(k) {
          assert j.fields[k] == JsonSafe(p, Text(PLACEHOLDER));
        } else {
          CleanIsMasked(p, f[k]);
          assert j.fields[k] == Clean(p, f[k]);
        }
      }
    case ListOf(items) =>
      forall i | 0 <= i < |items| ensures Masked(p, Clean(p, items[i])) { CleanIsMasked(p, items[i]); }
    case TupleOf(items) =>
      forall i | 0 <= i < |items| ensures Masked(p, Clean(p, items[i])) { CleanIsMasked(p, items[i]); }
    case SetOf(items) => HashableIsMasked(p, v);
    case _ =>
  }

  /** Every text of the payload is at most 300 characters long, every object's hidden keys hold
      the placeholder, and no entry is null or empty. */
  lemma SanitizedIsSafe(p: Policy, payload: map<string, Value>, k: string)
    requires WellFormed(Dict(payload)) && k in Sanitize(p, payload)
    ensures k in payload && Bounded(Sanitize(p, payload)[k]) && !Dropped(Sanitize(p, payload)[k])
    ensures if p.hides(k) then Sanitize(p, payload)[k] == S.JStr(PLACEHOLDER) else Masked(p, Sanitize(p, payload)[k])
  {
    JsonSafeIsBounded(p, Redact(p, Dict(payload)));
    CleanIsMasked(p, Dict(payload));
  }

  /** Numbers, truth values and None pass as they are, inside sets and out; of a longer text its
      first 300 characters. */
  lemma ScalarsAreKept(p: Policy, b: bool, i: int, r: real, s: string, raw: bool)
    ensures Image(p, Bool(b), raw) == S.JBool(b) && Image(p, Int(i), raw) == S.JInt(i)
    ensures Image(p, Float(r), raw) == S.JFloat(r) && Image(p, Nothing, raw) == S.JNull
    ensures Image(p, Text(s), true) == S.JStr(if |s| > 300 then s[..300] else s)
    ensures Image(p, Text(s), false) == Image(p, Text(p.scrub(s)), true)
    ensures Image(p, Dated(s), raw) == Image(p, Text(s), true) && Image(p, Object(s), raw) == Image(p, Text(s), true)
  {
  }

  // -- the keys -------------------------------------------------------------

  const REDACTED_KEYS := {
    "authorization", "auth", "token", "access_token", "refresh_token", "api_key", "apikey", "secret",
    "client_secret", "password", "passwd", "credential", "hetzner_api_token", "provider_token",
    "provider_credential_encryption_key", "x-lsw-auth", "lsw-auth", "authorization_header", "auth_header",
    "cloud_init", "user_data", "private_key", "ssh_private_key", "database_url", "redis_url"}

  const TERMS := {"token", "secret", "password", "credential", "apikey", "auth"}

  function LowerChar(c: char): char {
    if 'A' <= c <= 'Z' then c - 'A' + 'a' else c
  }

  function Lower(key: string): string {
    seq(|key|, i requires 0 <= i < |key| => LowerChar(key[i]))
  }

  predicate Separator(c: char) {
    c == '_' || c == '-'
  }

  /** The term at position i, with a separator or an end of the key at either side. */
  predicate TermAt(key: string, term: string, i: int) {
    && 0 <= i && i + |term| <= |key| && key[i..i + |term|] == term
    && (i == 0 || Separator(key[i - 1]))
    && (var e := i + |term|; e == |key| || (e == |key| - 1 && key[e] == '\n') || Separator(key[e]))
  }

  /** `_should_redact_key`. */
  predicate ShouldRedactKey(key: string) {
    || Lower(key) in REDACTED_KEYS
    || exists term :: term in TERMS && exists i :: 0 <= i <= |key| && TermAt(Lower(key), term, i)
  }

  /** Every key that is hidden by its name, in any case. */
  lemma NamedKeysAreHidden(key: string)
    requires Lower(key) in {
      "authorization", "auth", "token", "access_token", "refresh_token", "api_key", "apikey", "secret",
      "client_secret", "password", "passwd", "credential", "hetzner_api_token", "provider_token",
      "provider_credential_encryption_key", "x-lsw-auth", "lsw-auth", "authorization_header", "auth_header",
      "cloud_init", "user_data", "private_key", "ssh_private_key", "database_url", "redis_url"}
    ensures ShouldRedactKey(key)
  {
  }

  lemma LowerConcat(a: string, b: string)
    ensures Lower(a + b) == Lower(a) + Lower(b)
  {
  }

  /** Character by character: only A to Z change, to the letter 32 codes on. */
  lemma LowerIs(key: string, i: nat)
    requires i < |key|
    ensures |Lower(key)| == |key|
    ensures Lower(key)[i] as int == key[i] as int + if 65 <= key[i] as int <= 90 then 32 else 0
  {
  }

  /** Which keys are hidden, exactly: those hidden by name, and those with one of six terms in
      them that has a separator or an end of the key at either side. */
  lemma HiddenIff(key: string)
    ensures ShouldRedactKey(key) <==>
              || Lower(key) in REDACTED_KEYS
              || exists before, term, after :: Around(Lower(key), before, term, after)
  {
    var low := Lower(key);
    if term, i :| term in TERMS && 0 <= i <= |key| && TermAt(low, term, i) { TermIsAround(low, term, i); }
    if before, term, after :| Around(low, before, term, after) {
      AroundIsTerm(low, before, term, after);
      assert |before| <= |key|;
    }
  }

  lemma TermIsAround(low: string, term: string, i: int)
    requires term in TERMS && TermAt(low, term, i)
    ensures Around(low, low[..i], term, low[i + |term|..])
  {
    assert low == low[..i] + term + low[i + |term|..];
  }

  lemma AroundIsTerm(low: string, before: string, term: string, after: string)
    requires Around(low, before, term, after)
    ensures term in TERMS && TermAt(low, term, |before|)
  {
    assert low[|before|..|before| + |term|] == term;
    assert before != "" ==> low[|before| - 1] == before[|before| - 1];
    assert after != "" ==> low[|before| + |term|] == after[0];
  }

  predicate Around(key: string, before: string, term: string, after: string) {
    && key == before + term + after
    && (term == "token" || term == "secret" || term == "password" || term == "credential" || term == "apikey" ||
        term == "auth")
    && (before == "" || before[|before| - 1] == '_' || before[|before| - 1] == '-')
    && (after == "" || after == "\n" || after[0] == '_' || after[0] == '-')
  }

  /** A term between separators hides a key, whatever is around it and in whatever case. */
  lemma TermHidesKey(before: string, term: string, after: string)
    requires Lower(term) in TERMS
    requires before == "" || Separator(before[|before| - 1])
    requires after == "" || Separator(after[0])
    ensures ShouldRedactKey(before + term + after)
  {
    var key := before + term + after;
    LowerConcat(before + term, after);
    LowerConcat(before, term);
    var low := Lower(key);
    assert low[|before|..|before| + |term|] == Lower(term);
    assert before != "" ==> low[|before| - 1] == LowerChar(before[|before| - 1]);
    assert after != "" ==> low[|before| + |term|] == LowerChar(after[0]);
    assert TermAt(low, Lower(term), |before|);
  }
}
