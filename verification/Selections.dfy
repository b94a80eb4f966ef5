/** Remembered selections: the tagged encoding of what a customer saw, and finding it again. */
module Selections {
  import opened Prelude
  import opened PythonText
  import opened SessionStore

  const NS_SELECTION := "selection"
  const TAG := "__t__"
  const VALUE := "v"
  const MAX_SELECTIONS := 32

  // -- Python values ------------------------------------------------------

  datatype DictKey = StrKey(s: string) | OtherKey(shown: string)

  function Shown(k: DictKey): string {
    match k case StrKey(s) => s case OtherKey(s) => s
  }

  /** `PDict` in insertion order; `PMap` a dict with text keys, order forgotten; `PData` an
      instance of a dataclass of that name, which is the registered class of the name or another
      one called the same; `PObject` anything else. */
  datatype PyValue =
    | PNone
    | PBool(b: bool)
    | PInt(i: int)
    | PFloat(r: real)
    | PStr(s: string)
    | PList(items: seq<PyValue>)
    | PTuple(items: seq<PyValue>)
    | PDict(entries: seq<(DictKey, PyValue)>)
    | PMap(fields: map<string, PyValue>)
    | PData(registered: bool, name: string, fields: map<string, PyValue>)
    | PObject

  /** A dict comprehension over `str(key)`: a later entry replaces an earlier one. */
  function Collapse(entries: seq<(DictKey, PyValue)>): (m: map<string, PyValue>)
    ensures forall k :: k in m ==> exists i :: 0 <= i < |entries| && m[k] == entries[i].1
  {
    if entries == [] then map[]
    else
      var last := |entries| - 1;
      Collapse(entries[..last])[Shown(entries[last].0) := entries[last].1]
  }

  /** The dataclasses a selection may carry: required fields, and optional ones with defaults. */
  function Required(name: string): set<string> {
    if name == "IpAddressView" then {"ip", "version"}
    else if name == "ReinstallImageView" then {"ref", "name"}
    else if name == "ServerSnapshotView" then {"ref"}
    else {}
  }

  function Defaults(name: string): map<string, PyValue> {
    if name == "IpAddressView" then
      map["network_type" := PNone, "main_ip" := PBool(false), "null_routed" := PBool(false),
          "reverse_lookup" := PNone, "ddos_profile" := PNone]
    else if name == "ReinstallImageView" then map["family" := PNone]
    else if name == "ServerSnapshotView" then map["name" := PNone, "state" := PNone, "created_at" := PNone]
    else map[]
  }

  const REGISTERED := {"IpAddressView", "ReinstallImageView", "ServerSnapshotView"}

  function AllFields(name: string): set<string> {
    Required(name) + Defaults(name).Keys
  }

  predicate Fits(name: string, given: set<string>) {
    Required(name) <= given <= AllFields(name)
  }

  /** Calling the class: `TypeError` (None) on a missing or an unknown field. */
  function Construct(name: string, fields: map<string, PyValue>): PyValue {
    if Fits(name, fields.Keys) then PData(true, name, Defaults(name) + fields) else PNone
  }

  /** The three classes: with which keywords each can be called, */
  lemma ClassesAre(given: set<string>)
    ensures REGISTERED == {"IpAddressView", "ReinstallImageView", "ServerSnapshotView"}
    ensures Fits("IpAddressView", given) <==>
              {"ip", "version"} <= given <=
              {"ip", "version", "network_type", "main_ip", "null_routed", "reverse_lookup", "ddos_profile"}
    ensures Fits("ReinstallImageView", given) <==> {"ref", "name"} <= given <= {"ref", "name", "family"}
    ensures Fits("ServerSnapshotView", given) <==> {"ref"} <= given <= {"ref", "name", "state", "created_at"}
  {
    assert AllFields("IpAddressView") ==
      {"ip", "version", "network_type", "main_ip", "null_routed", "reverse_lookup", "ddos_profile"};
    assert AllFields("ReinstallImageView") == {"ref", "name", "family"};
    assert AllFields("ServerSnapshotView") == {"ref", "name", "state", "created_at"};
  }

  /** and what the other fields then are. */
  lemma FieldsAre(name: string, fields: map<string, PyValue>)
    requires name in REGISTERED && Fits(name, fields.Keys)
    ensures Construct(name, fields).PData? && Construct(name, fields).fields.Keys == AllFields(name)
    ensures forall k :: k in AllFields(name) ==>
              Construct(name, fields).fields[k] ==
                if k in fields then fields[k] else if k == "main_ip" || k == "null_routed" then PBool(false) else PNone
  {
    DefaultsAre(name);
  }

  lemma DefaultsAre(name: string)
    ensures forall k :: k in Defaults(name) ==>
              Defaults(name)[k] == if k == "main_ip" || k == "null_routed" then PBool(false) else PNone
  {
  }

  /** Instances of the registered classes have exactly their fields. */
  predicate WellFormed(v: PyValue)
    decreases v
  {
    match v
    case PList(items) => forall i :: 0 <= i < |items| ==> WellFormed(items[i])
    case PTuple(items) => forall i :: 0 <= i < |items| ==> WellFormed(items[i])
    case PDict(entries) => forall i :: 0 <= i < |entries| ==> WellFormed(entries[i].1)
    case PMap(fields) => forall k :: k in fields ==> WellFormed(fields[k])
    case PData(registered, name, fields) =>
      (registered ==> name in REGISTERED && fields.Keys == AllFields(name)) && forall k :: k in fields ==>
        WellFormed(fields[k])
    case _ => true
  }

  // -- encoding and decoding ----------------------------------------------

  function Tagged(tag: string, value: Json): Json {
    JObj(map[TAG := JStr(tag), VALUE := value])
  }

  function Encode(v: PyValue): Json
    decreases v
  {
    match v
    case PNone => JNull
    case PBool(b) => JBool(b)
    case PInt(i) => JInt(i)
    case PFloat(r) => JFloat(r)
    case PStr(s) => JStr(s)
    case PData(_, name, fields) => Tagged(name, JObj(map k | k in fields :: Encode(fields[k])))
    case PTuple(items) => Tagged("list", JList(seq(|items|, i requires 0 <= i < |items| => Encode(items[i]))))
    case PList(items) => Tagged("list", JList(seq(|items|, i requires 0 <= i < |items| => Encode(items[i]))))
    case PDict(entries) =>
      var m := Collapse(entries);
      Tagged("dict", JObj(map k | k in m :: Encode(m[k])))
    case PMap(fields) => Tagged("dict", JObj(map k | k in fields :: Encode(fields[k])))
    case PObject => Tagged("list", JList([]))
  }

  function Decode(j: Json): PyValue
    decreases j
  {
    match j
    case JNull => PNone
    case JBool(b) => PBool(b)
    case JInt(i) => PInt(i)
    case JFloat(r) => PFloat(r)
    case JStr(s) => PStr(s)
    case JList(items) => PList(seq(|items|, i requires 0 <= i < |items| => Decode(items[i])))
    case JObj(fields) =>
      var tag, value := Field(fields, TAG), if VALUE in fields then fields[VALUE] else JNull;
      if tag == JStr("list") then
        if value.JList? then PList(seq(|value.items|, i requires 0 <= i < |value.items| => Decode(value.items[i])))
        else PNone
      else if tag == JStr("dict") then
        if value.JObj? then PMap(map k | k in value.fields :: Decode(value.fields[k])) else PNone
      else if tag.JStr? && tag.s in REGISTERED && value.JObj? then
        Construct(tag.s, map k | k in value.fields :: Decode(value.fields[k]))
      else PNone
  }

  /** What is meant to survive: tuples become lists, keys become text, dataclasses other than the
      registered ones become None, and objects of no known kind an empty list. */
  function Normal(v: PyValue): PyValue
    decreases v
  {
    match v
    case PTuple(items) => PList(seq(|items|, i requires 0 <= i < |items| => Normal(items[i])))
    case PList(items) => PList(seq(|items|, i requires 0 <= i < |items| => Normal(items[i])))
    case PDict(entries) =>
      var m := Collapse(entries);
      PMap(map k | k in m :: Normal(m[k]))
    case PMap(fields) => PMap(map k | k in fields :: Normal(fields[k]))
    case PData(registered, name, fields) =>
      if registered then PData(true, name, map k | k in fields :: Normal(fields[k])) else PNone
    case PObject => PList([])
    case _ => v
  }

  /** An instance that passes for something else: of a class that is not registered but called
      `dict`, or called like a registered one and with fields that one can be made of. */
  predicate Impostor(name: string, fields: map<string, PyValue>) {
    name == "dict" || (name in REGISTERED && Fits(name, fields.Keys))
  }

  /** Some part that survives is such an instance. */
  predicate Shadowed(v: PyValue)
    decreases v
  {
    match v
    case PTuple(items) => exists i :: 0 <= i < |items| && Shadowed(items[i])
    case PList(items) => exists i :: 0 <= i < |items| && Shadowed(items[i])
    case PDict(entries) =>
      var m := Collapse(entries);
      exists k :: k in m && Shadowed(m[k])
    case PMap(fields) => exists k :: k in fields && Shadowed(fields[k])
    case PData(registered, name, fields) =>
      if registered then exists k :: k in fields && Shadowed(fields[k]) else Impostor(name, fields)
    case _ => false
  }

  lemma TaggedDecodes(tag: string, value: Json)
    ensures var m := map[TAG := JStr(tag), VALUE := value];
            Field(m, TAG) == JStr(tag) && VALUE in m && m[VALUE] == value
  {
    assert |TAG| != |VALUE|;
  }

  ghost predicate RoundTrips(v: PyValue) {
    Decode(Encode(v)) == Normal(v)
  }

  lemma ListRoundTrip(items: seq<PyValue>)
    requires forall i :: 0 <= i < |items| ==> (RoundTrips(items[i]) <==> !Shadowed(items[i]))
    ensures var encoded := seq(|items|, i requires 0 <= i < |items| => Encode(items[i]));
            seq(|encoded|, i requires 0 <= i < |encoded| => Decode(encoded[i]))
              == seq(|items|, i requires 0 <= i < |items| => Normal(items[i]))
            <==> !exists i :: 0 <= i < |items| && Shadowed(items[i])
  {
    var encoded := seq(|items|, i requires 0 <= i < |items| => Encode(items[i]));
    var decoded := seq(|encoded|, i requires 0 <= i < |encoded| => Decode(encoded[i]));
    var normal := seq(|items|, i requires 0 <= i < |items| => Normal(items[i]));
    assert forall i :: 0 <= i < |items| ==> (decoded[i] == normal[i] <==> RoundTrips(items[i]));
  }

  lemma ListCase(v: PyValue)
    requires v.PTuple? || v.PList?
    requires forall i :: 0 <= i < |v.items| ==> (RoundTrips(v.items[i]) <==> !Shadowed(v.items[i]))
    ensures RoundTrips(v) <==> !Shadowed(v)
  {
    var encoded := seq(|v.items|, i requires 0 <= i < |v.items| => Encode(v.items[i]));
    assert Encode(v) == Tagged("list", JList(encoded));
    TaggedDecodes("list", JList(encoded));
    var decoded := seq(|encoded|, i requires 0 <= i < |encoded| => Decode(encoded[i]));
    assert Decode(Encode(v)) == PList(decoded);
    var normal := seq(|v.items|, i requires 0 <= i < |v.items| => Normal(v.items[i]));
    assert Normal(v) == PList(normal);
    ListRoundTrip(v.items);
  }

  ghost predicate Dict(v: PyValue, m: map<string, PyValue>) {
    (v.PDict? && m == Collapse(v.entries)) || (v.PMap? && m == v.fields)
  }

  lemma EncodedDict(v: PyValue, m: map<string, PyValue>) returns (encoded: map<string, Json>)
    requires Dict(v, m)
    ensures Encode(v) == Tagged("dict", JObj(encoded))
    ensures encoded.Keys == m.Keys && forall k :: k in m ==> encoded[k] == Encode(m[k])
  {
    encoded := map k | k in m :: Encode(m[k]);
  }

  lemma DecodedDict(encoded: map<string, Json>) returns (decoded: map<string, PyValue>)
    ensures Decode(Tagged("dict", JObj(encoded))) == PMap(decoded)
    ensures decoded.Keys == encoded.Keys && forall k :: k in encoded ==> decoded[k] == Decode(encoded[k])
  {
    TaggedDecodes("dict", JObj(encoded));
    decoded := map k | k in encoded :: Decode(encoded[k]);
  }

  lemma NormalDict(v: PyValue, m: map<string, PyValue>) returns (normal: map<string, PyValue>)
    requires Dict(v, m)
    ensures Normal(v) == PMap(normal)
    ensures normal.Keys == m.Keys && forall k :: k in m ==> normal[k] == Normal(m[k])
  {
    normal := map k | k in m :: Normal(m[k]);
  }

  lemma DictCase(v: PyValue, m: map<string, PyValue>)
    requires Dict(v, m)
    requires forall k :: k in m ==> (RoundTrips(m[k]) <==> !Shadowed(m[k]))
    ensures RoundTrips(v) <==> !Shadowed(v)
  {
    var encoded := EncodedDict(v, m);
    var decoded := DecodedDict(encoded);
    var normal := NormalDict(v, m);
    var bad := ShadowedKeys(m);
    forall k | k in m ensures decoded[k] == normal[k] <==> k !in bad {
      assert decoded[k] == Decode(Encode(m[k])) && normal[k] == Normal(m[k]);
    }
    MapsAgree(decoded, normal, bad);
    ShadowedDict(v, m);
  }

  function ShadowedKeys(m: map<string, PyValue>): set<string> {
    set k | k in m && Shadowed(m[k])
  }

  lemma ShadowedDict(v: PyValue, m: map<string, PyValue>)
    requires Dict(v, m) || (v.PData? && v.registered && m == v.fields)
    ensures Shadowed(v) <==> ShadowedKeys(m) != {}
  {
    if k :| k in m && Shadowed(m[k]) {
      assert k in ShadowedKeys(m);
    }
    if k :| k in ShadowedKeys(m) {
      assert Shadowed(m[k]);
    }
  }

  lemma MapsAgree(a: map<string, PyValue>, b: map<string, PyValue>, bad: set<string>)
    requires a.Keys == b.Keys && bad <= a.Keys
    requires forall k :: k in a ==> (a[k] == b[k] <==> k !in bad)
    ensures a == b <==> bad == {}
  {
  }

  lemma EncodedData(v: PyValue) returns (encoded: map<string, Json>)
    requires v.PData?
    ensures Encode(v) == Tagged(v.name, JObj(encoded))
    ensures encoded.Keys == v.fields.Keys && forall k :: k in v.fields ==> encoded[k] == Encode(v.fields[k])
  {
    encoded := map k | k in v.fields :: Encode(v.fields[k]);
  }

  lemma TagsAreNotRegistered(name: string)
    requires name in REGISTERED
    ensures name != "list" && name != "dict"
  {
    assert |name| > 4;
  }

  lemma DecodedFields(name: string, encoded: map<string, Json>) returns (decoded: map<string, PyValue>)
    requires name in REGISTERED
    ensures Decode(Tagged(name, JObj(encoded))) == Construct(name, decoded)
    ensures decoded.Keys == encoded.Keys && forall k :: k in encoded ==> decoded[k] == Decode(encoded[k])
  {
    TaggedDecodes(name, JObj(encoded));
    TagsAreNotRegistered(name);
    decoded := map k | k in encoded :: Decode(encoded[k]);
  }

  lemma DecodedData(name: string, encoded: map<string, Json>) returns (decoded: map<string, PyValue>)
    requires name in REGISTERED && encoded.Keys == AllFields(name)
    ensures Decode(Tagged(name, JObj(encoded))) == PData(true, name, decoded)
    ensures decoded.Keys == encoded.Keys && forall k :: k in encoded ==> decoded[k] == Decode(encoded[k])
  {
    decoded := DecodedFields(name, encoded);
    DefaultsOverridden(Defaults(name), decoded);
  }

  lemma DefaultsOverridden(defaults: map<string, PyValue>, fields: map<string, PyValue>)
    requires defaults.Keys <= fields.Keys
    ensures defaults + fields == fields
  {
  }

  /** Whatever was encoded under a registered name decodes to the registered class, if it can be
      made of those fields. */
  lemma DecodedImpostor(name: string, encoded: map<string, Json>)
    requires name in REGISTERED
    ensures Decode(Tagged(name, JObj(encoded))).PData? <==> Fits(name, encoded.Keys)
    ensures !Decode(Tagged(name, JObj(encoded))).PData? ==> Decode(Tagged(name, JObj(encoded))) == PNone
  {
    var decoded := DecodedFields(name, encoded);
  }

  lemma NormalData(v: PyValue) returns (normal: map<string, PyValue>)
    requires v.PData? && v.registered
    ensures Normal(v) == PData(true, v.name, normal)
    ensures normal.Keys == v.fields.Keys && forall k :: k in v.fields ==> normal[k] == Normal(v.fields[k])
  {
    normal := map k | k in v.fields :: Normal(v.fields[k]);
  }

  lemma DataCase(v: PyValue)
    requires v.PData? && WellFormed(v)
    requires forall k :: k in v.fields ==> (RoundTrips(v.fields[k]) <==> !Shadowed(v.fields[k]))
    ensures RoundTrips(v) <==> !Shadowed(v)
  {
    var encoded := EncodedData(v);
    if v.registered {
      var decoded := DecodedData(v.name, encoded);
      var normal := NormalData(v);
      var bad := ShadowedKeys(v.fields);
      forall k | k in v.fields ensures decoded[k] == normal[k] <==> k !in bad {
        assert decoded[k] == Decode(Encode(v.fields[k])) && normal[k] == Normal(v.fields[k]);
      }
      MapsAgree(decoded, normal, bad);
      ShadowedDict(v, v.fields);
    } else if v.name == "dict" {
      var decoded := DecodedDict(encoded);
    } else if v.name in REGISTERED {
      DecodedImpostor(v.name, encoded);
    } else {
      TaggedDecodes(v.name, JObj(encoded));
    }
  }

  /** The round trip gives back the normal form of every nested value that holds no impostor, and
      of no other. */
  lemma {:induction false} RoundTripIff(v: PyValue)
    requires WellFormed(v)
    ensures RoundTrips(v) <==> !Shadowed(v)
    decreases v
  {
    match v
    case PTuple(items) =>
      forall i | 0 <= i < |items| ensures RoundTrips(items[i]) <==> !Shadowed(items[i]) { RoundTripIff(items[i]); }
      ListCase(v);
    case PList(items) =>
      forall i | 0 <= i < |items| ensures RoundTrips(items[i]) <==> !Shadowed(items[i]) { RoundTripIff(items[i]); }
      ListCase(v);
    case PDict(entries) =>
      var m := Collapse(entries);
      forall k | k in m ensures RoundTrips(m[k]) <==> !Shadowed(m[k]) {
        var i :| 0 <= i < |entries| && m[k] == entries[i].1;
        RoundTripIff(entries[i].1);
      }
      DictCase(v, m);
    case PMap(fields) =>
      forall k | k in fields ensures RoundTrips(fields[k]) <==> !Shadowed(fields[k]) { RoundTripIff(fields[k]); }
      DictCase(v, fields);
    case PData(_, _, fields) =>
      forall k | k in fields ensures RoundTrips(fields[k]) <==> !Shadowed(fields[k]) { RoundTripIff(fields[k]); }
      DataCase(v);
    case PObject => TaggedDecodes("list", JList([]));
    case _ =>
  }

  // -- remembering a rendered list ------------------------------------------

  function SelectionKey(customer: Uuid, ref: string, name: string): Key {
    Key(NS_SELECTION, Join(customer, ref + ":" + name))
  }

  /** `list(items)[-32:]`. */
  function Kept(items: seq<PyValue>): seq<PyValue> {
    if |items| <= MAX_SELECTIONS then items else items[|items| - MAX_SELECTIONS..]
  }

  function EncodeAll(items: seq<PyValue>): (r: seq<Json>)
    ensures |r| == |items| && forall i :: 0 <= i < |items| ==> r[i] == Encode(items[i])
  {
    seq(|items|, i requires 0 <= i < |items| => Encode(items[i]))
  }

  function DecodeAll(items: seq<Json>): (r: seq<PyValue>)
    ensures |r| == |items| && forall i :: 0 <= i < |items| ==> r[i] == Decode(items[i])
  {
    seq(|items|, i requires 0 <= i < |items| => Decode(items[i]))
  }

  function RememberRecord(items: seq<PyValue>): Record {
    map["items" := JList(EncodeAll(Kept(items)))]
  }

  function SelectionOf(record: Option<Record>): seq<PyValue> {
    if record.None? then []
    else if Field(record.value, "items").JList? then DecodeAll(Field(record.value, "items").items)
    else []
  }

  /** Both kinds of impostor: a class called `dict` comes back as a dict, */
  lemma DictNamedComesBack(fields: map<string, PyValue>)
    ensures Normal(PData(false, "dict", fields)) == PNone
    ensures Decode(Encode(PData(false, "dict", fields))).PMap?
  {
    var encoded := EncodedData(PData(false, "dict", fields));
    var decoded := DecodedDict(encoded);
  }

  /** and one called like a registered class, with its fields, as that class. */
  lemma LikeNamedComesBack(name: string, fields: map<string, PyValue>)
    requires name in REGISTERED && Fits(name, fields.Keys)
    ensures Normal(PData(false, name, fields)) == PNone
    ensures Decode(Encode(PData(false, name, fields))).PData?
  {
    DataDecodes(PData(false, name, fields));
  }

  lemma DataDecodes(v: PyValue)
    requires v.PData? && v.name in REGISTERED && Fits(v.name, v.fields.Keys)
    ensures Decode(Encode(v)).PData?
  {
    var encoded := EncodedData(v);
    var json := JObj(encoded);
    assert Encode(v) == Tagged(v.name, json);
    FittingDecodes(v.name, encoded);
  }

  lemma FittingDecodes(name: string, encoded: map<string, Json>)
    requires name in REGISTERED && Fits(name, encoded.Keys)
    ensures Decode(Tagged(name, JObj(encoded))).PData?
  {
    DecodedImpostor(name, encoded);
  }

  /** The item behind a pressed index; None when stale. */
  function Pressed(items: seq<PyValue>, index: string): Option<PyValue> {
    if index == "" || !Digits(index) then None
    else
      var position := Num(index);
      if position < 0 || position >= |items| then None else Some(items[position])
  }

  /** What a press on index `i` finds while the rendered list is still remembered. */
  lemma PressedItem(items: seq<PyValue>, i: nat)
    requires forall j :: 0 <= j < |items| ==> WellFormed(items[j]) && !Shadowed(items[j])
    ensures var found := Pressed(SelectionOf(Some(RememberRecord(items))), Decimal(i));
            if |items| <= 32 then found == (if i < |items| then Some(Normal(items[i])) else None)
            else found == (if i < 32 then Some(Normal(items[|items| - 32 + i])) else None)
  {
    if |items| > 32 && i < 32 { assert Kept(items)[i] == items[|items| - 32 + i]; }
    if i < |Kept(items)| {
      RoundTripIff(Kept(items)[i]);
    }
  }

  /** Nothing is found for an index that is no number, or in a record without a list. */
  lemma NothingElseIsPressed(items: seq<PyValue>, index: string, record: Record)
    ensures (exists i :: 0 <= i < |index| && !('0' <= index[i] <= '9')) || index == "" ==> Pressed(items, index) == None
    ensures "items" !in record || !record["items"].JList? ==> SelectionOf(Some(record)) == []
    ensures SelectionOf(None) == []
  {
  }

  /** Every button of a rendered list leads to the item shown beside it exactly when the list
      has at most 32 items. */
  lemma ButtonsMatchIff(items: seq<PyValue>)
    requires forall j :: 0 <= j < |items| ==> WellFormed(items[j]) && !Shadowed(items[j])
    ensures (forall i :: 0 <= i < |items| ==>
               Pressed(SelectionOf(Some(RememberRecord(items))), Decimal(i)) == Some(Normal(items[i])))
            <==> |items| <= 32
  {
    if |items| <= 32 {
      forall i | 0 <= i < |items|
        ensures Pressed(SelectionOf(Some(RememberRecord(items))), Decimal(i)) == Some(Normal(items[i]))
      {
        PressedItem(items, i);
      }
    } else {
      PressedItem(items, |items| - 1);
    }
  }

  /** And it stays so until the list expires or is rendered anew. */
  lemma RememberedUntilExpiry(s: Store, customer: Uuid, ref: string, name: string, items: seq<PyValue>, ttl: int,
                              d: nat)
    requires ttl > 0
    ensures var t := s.Put(SelectionKey(customer, ref, name), RememberRecord(items), ttl).Tick(d);
            SelectionOf(t.Get(SelectionKey(customer, ref, name)))
            == if d < ttl then DecodeAll(EncodeAll(Kept(items))) else []
  {
  }
}
