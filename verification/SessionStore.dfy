/** The bot's transient-state store: namespaced keys, expiring entries, atomic claim and take. */
module SessionStore {
  import opened Prelude

  /** What a record may hold. */
  datatype Json =
    | JNull
    | JBool(b: bool)
    | JInt(i: int)
    | JFloat(r: real)
    | JStr(s: string)
    | JList(items: seq<Json>)
    | JObj(fields: map<string, Json>)

  type Record = map<string, Json>

  function Field(record: Record, name: string): Json {
    if name in record then record[name] else JNull
  }

  datatype Key = Key(namespace: string, key: string)

  datatype Entry = Entry(value: Record, deadline: int)

  /** The live entries at an instant. */
  datatype Store = Store(entries: map<Key, Entry>, now: int) {

    function Get(k: Key): Option<Record> {
      if k in entries then Some(entries[k].value) else None
    }

    function Put(k: Key, value: Record, ttl: int): Store {
      this.(entries := entries[k := Entry(value, now + ttl)])
    }

    function Delete(k: Key): Store {
      this.(entries := entries - {k})
    }

    /** Time passes; whatever reached its deadline is gone. */
    function Tick(d: nat): Store {
      Store(map k | k in entries && now + d < entries[k].deadline :: entries[k], now + d)
    }
  }

  /** Time passes in one go or in two. */
  lemma TickTwice(s: Store, d: nat, e: nat)
    ensures s.Tick(d).Tick(e) == s.Tick(d + e) && s.Tick(d).now == s.now + d
  {
    assert s.Tick(d).Tick(e).entries == s.Tick(d + e).entries;
  }

  /** A value put is found for ttl, and no longer, unless it is put again or removed. */
  lemma LivesForItsTtl(s: Store, k: Key, value: Record, ttl: int, d: nat)
    ensures s.Put(k, value, ttl).Tick(d).Get(k) == if d < ttl then Some(value) else None
    ensures s.Put(k, value, ttl).Get(k) == Some(value) && s.Delete(k).Get(k) == None
    ensures forall other :: other != k ==>
              s.Put(k, value, ttl).Get(other) == s.Get(other) && s.Delete(k).Get(other) == s.Get(other)
  {
  }

  const EMPTY := Store(map[], 0)

  datatype StoreError = InvalidTtl

  class InMemoryStore {
    var values: map<Key, Entry>
    var clock: int

    /** What a caller can still observe. */
    function Contents(): Store
      reads this
    {
      Store(map k | k in values && clock < values[k].deadline :: values[k], clock)
    }

    constructor ()
      ensures Contents() == EMPTY
    {
      values, clock := map[], 0;
    }

    /** The monotonic clock moves on. */
    method Advance(d: nat)
      modifies `clock
      ensures Contents() == old(Contents()).Tick(d)
    {
      clock := clock + d;
      assert Contents().entries == old(Contents()).Tick(d).entries;
    }

    method Prune()
      modifies `values
      ensures Contents() == old(Contents())
      ensures values == Contents().entries
    {
      var expired := set k | k in values && values[k].deadline <= clock;
      values := values - expired;
    }

    method Put(namespace: string, key: string, value: Record, ttl: int) returns (r: Result<(), StoreError>)
      modifies `values
      ensures r.Ok? <==> ttl > 0
      ensures Contents() == if ttl > 0 then old(Contents()).Put(Key(namespace, key), value, ttl) else old(Contents())
    {
      if ttl <= 0 {
        return Err(InvalidTtl);
      }
      values := values[Key(namespace, key) := Entry(value, clock + ttl)];
      assert Contents().entries == old(Contents()).Put(Key(namespace, key), value, ttl).entries;
      return Ok(());
    }

    method Get(namespace: string, key: string) returns (r: Option<Record>)
      modifies `values
      ensures Contents() == old(Contents())
      ensures r == Contents().Get(Key(namespace, key))
    {
      Prune();
      return if Key(namespace, key) in values then Some(values[Key(namespace, key)].value) else None;
    }

    method Exists(namespace: string, key: string) returns (r: bool)
      modifies `values
      ensures Contents() == old(Contents())
      ensures r <==> Key(namespace, key) in Contents().entries
    {
      Prune();
      return Key(namespace, key) in values;
    }

    /** Set only if absent. */
    method Claim(namespace: string, key: string, value: Record, ttl: int) returns (r: Result<bool, StoreError>)
      modifies `values
      ensures r.Ok? <==> ttl > 0
      ensures r == Ok(true) <==> ttl > 0 && Key(namespace, key) !in old(Contents()).entries
      ensures Contents() ==
                if r == Ok(true) then old(Contents()).Put(Key(namespace, key), value, ttl)
                else old(Contents())
    {
      if ttl <= 0 {
        return Err(InvalidTtl);
      }
      Prune();
      if Key(namespace, key) in values {
        return Ok(false);
      }
      values := values[Key(namespace, key) := Entry(value, clock + ttl)];
      assert Contents().entries == old(Contents()).Put(Key(namespace, key), value, ttl).entries;
      return Ok(true);
    }

    /** Read and delete in one step. */
    method Take(namespace: string, key: string) returns (r: Option<Record>)
      modifies `values
      ensures r == old(Contents()).Get(Key(namespace, key))
      ensures Contents() == old(Contents()).Delete(Key(namespace, key))
    {
      Prune();
      var k := Key(namespace, key);
      r := if k in values then Some(values[k].value) else None;
      values := values - {k};
      assert Contents().entries == old(Contents()).Delete(k).entries;
    }

    method Delete(namespace: string, key: string)
      modifies `values
      ensures Contents() == old(Contents()).Delete(Key(namespace, key))
    {
      values := values - {Key(namespace, key)};
      assert Contents().entries == old(Contents()).Delete(Key(namespace, key)).entries;
    }
  }

  // -- keys ---------------------------------------------------------------

  /** A UUID in canonical text: 36 characters, no colon. */
  type Uuid = s: string | |s| == 36 && ':' !in s witness seq(36, _ => '0')

  function Join(owner: Uuid, rest: string): string {
    owner + ":" + rest
  }

  lemma JoinInjective(a: Uuid, x: string, b: Uuid, y: string)
    requires Join(a, x) == Join(b, y)
    ensures a == b && x == y
  {
    assert a == Join(a, x)[..36] && b == Join(b, y)[..36];
    assert x == Join(a, x)[37..] && y == Join(b, y)[37..];
  }

  /** Two colon-joined pairs agree only if equal, as long as the first halves hold no colon. */
  lemma {:induction false} SplitInjective(a: string, x: string, b: string, y: string)
    requires ':' !in a && ':' !in b && a + ":" + x == b + ":" + y
    ensures a == b && x == y
  {
    if a != [] && b != [] {
      assert (a + ":" + x)[1..] == a[1..] + ":" + x && (b + ":" + y)[1..] == b[1..] + ":" + y;
      SplitInjective(a[1..], x, b[1..], y);
      assert a[0] == (a + ":" + x)[0] && b[0] == (b + ":" + y)[0];
      assert a == [a[0]] + a[1..] && b == [b[0]] + b[1..];
    } else {
      assert (a + ":" + x)[|a|] == ':' && (b + ":" + y)[|b|] == ':';
      assert x == (a + ":" + x)[|a| + 1..] && y == (b + ":" + y)[|b| + 1..];
    }
  }
}
