/**
 `CachedSubspace`: a per-transaction cache in front of a key-value subspace that
 writes back once, when the transaction commits. Partnered with direct access to a
 plain map in program order.
 */
module CachedSubspace {
  import opened Wrappers

  /** A packed key in hex, and stored bytes. */
  type Key = string
  type Bytes = seq<int>

  /** How values are stored; `truthy` is JavaScript's test of a value. */
  datatype Codec<!T> = Codec(serialize: T -> Bytes, parse: Bytes -> T, truthy: T -> bool)

  /** The subspace as the transaction sees it, its cache, its pending writes, its commit hooks. */
  datatype State<T> = State(
    store: map<Key, Bytes>, cache: map<Key, Option<T>>, writes: map<Key, Option<T>>, hooks: nat)

  function Stored<T>(codec: Codec<T>, store: map<Key, Bytes>, key: Key): Option<T> {
    if key in store then Some(codec.parse(store[key])) else None
  }

  function ReadState<T>(codec: Codec<T>, s: State<T>, key: Key): State<T> {
    if key in s.cache then s else s.(cache := s.cache[key := Stored(codec, s.store, key)])
  }

  function ReadResult<T>(codec: Codec<T>, s: State<T>, key: Key): Option<T> {
    if key in s.cache then s.cache[key] else Stored(codec, s.store, key)
  }

  function WriteState<T>(s: State<T>, key: Key, value: Option<T>): State<T> {
    State(s.store, s.cache[key := value], s.writes[key := value],
          if s.writes == map[] then s.hooks + 1 else s.hooks)
  }

  /** What the hook does with one pending write: a falsy value is cleared like `null`. */
  function Cleared<T>(codec: Codec<T>, value: Option<T>): bool {
    value.None? || !codec.truthy(value.value)
  }

  function FlushedStore<T>(codec: Codec<T>, store: map<Key, Bytes>, writes: map<Key, Option<T>>): map<Key, Bytes> {
    map k | k in store.Keys + writes.Keys && !(k in writes && Cleared(codec, writes[k])) ::
      if k in writes then codec.serialize(writes[k].value) else store[k]
  }

  lemma FlushOneMore<T>(codec: Codec<T>, store: map<Key, Bytes>, done: map<Key, Option<T>>, w: Key, v: Option<T>)
    ensures FlushedStore(codec, store, done[w := v]) ==
      if Cleared(codec, v) then FlushedStore(codec, store, done) - {w}
      else FlushedStore(codec, store, done)[w := codec.serialize(v.value)]
  {
    var before, after := FlushedStore(codec, store, done), FlushedStore(codec, store, done[w := v]);
    if Cleared(codec, v) {
      assert after == before - {w};
    } else {
      assert after == before[w := codec.serialize(v.value)];
    }
  }

  class Subspace<T(==)> {
    const codec: Codec<T>
    var store: map<Key, Bytes>
    var cache: map<Key, Option<T>>
    var writes: map<Key, Option<T>>
    var hooks: nat

    ghost function Model(): State<T>
      reads this
    {
      State(store, cache, writes, hooks)
    }

    constructor (codec: Codec<T>, store: map<Key, Bytes>)
      ensures this.codec == codec && Model() == State(store, map[], map[], 0)
    {
      this.codec, this.store := codec, store;
      cache, writes, hooks := map[], map[], 0;
    }

    method Read(key: Key) returns (r: Option<T>)
      modifies this
      ensures Model() == ReadState(codec, old(Model()), key)
      ensures r == ReadResult(codec, old(Model()), key)
    {
      if key in cache {
        return cache[key];
      }
      if key !in store {
        cache := cache[key := None];
        return None;
      }
      var parsed := codec.parse(store[key]);
      cache := cache[key := Some(parsed)];
      return Some(parsed);
    }

    method Write(key: Key, value: Option<T>)
      modifies this
      ensures Model() == WriteState(old(Model()), key, value)
    {
      var wasEmpty := |writes.Keys| == 0;
      assert wasEmpty <==> writes == map[];
      writes := writes[key := value];
      cache := cache[key := value];
      if wasEmpty {
        hooks := hooks + 1;
      }
    }

    /** The body of the commit hook. */
    method Flush()
      modifies this`store
      ensures store == FlushedStore(codec, old(store), writes)
    {
      ghost var before, done := store, map[];
      assert FlushedStore(codec, store, done) == store;
      hide FlushedStore;
      var keys := writes.Keys;
      while keys != {}
        invariant keys <= writes.Keys
        invariant done == map k | k in writes && k !in keys :: writes[k]
        invariant store == FlushedStore(codec, before, done)
      {
        ghost var some := SomeElement(keys);
        var w :| w in keys;
        FlushOneMore(codec, before, done, w, writes[w]);
        done := done[w := writes[w]];
        if writes[w].None? || !codec.truthy(writes[w].value) {
          store := store - {w};
        } else {
          store := store[w := codec.serialize(writes[w].value)];
        }
        keys := keys - {w};
      }
      assert done == writes;
    }
  }

  // ---------- direct access, in program order ----------

  datatype Op<T> = Read(key: Key) | Write(key: Key, value: Option<T>)

  /** A plain map of values; absent keys read as `null`. */
  type Plain<T> = map<Key, T>

  function Lookup<T>(m: Plain<T>, key: Key): Option<T> {
    if key in m then Some(m[key]) else None
  }

  function PlainWrite<T>(m: Plain<T>, key: Key, value: Option<T>): Plain<T> {
    if value.Some? then m[key := value.value] else m - {key}
  }

  function PlainRun<T>(m: Plain<T>, ops: seq<Op<T>>): (Plain<T>, seq<Option<T>>) {
    if ops == [] then (m, [])
    else
      var (n, results) := PlainRun(m, ops[..|ops| - 1]);
      match ops[|ops| - 1]
      case Read(k) => (n, results + [Lookup(n, k)])
      case Write(k, v) => (PlainWrite(n, k, v), results)
  }

  function CachedRun<T>(codec: Codec<T>, s: State<T>, ops: seq<Op<T>>): (State<T>, seq<Option<T>>) {
    if ops == [] then (s, [])
    else
      var (t, results) := CachedRun(codec, s, ops[..|ops| - 1]);
      match ops[|ops| - 1]
      case Read(k) => (ReadState(codec, t, k), results + [ReadResult(codec, t, k)])
      case Write(k, v) => (WriteState(t, k, v), results)
  }

  function Parsed<T>(codec: Codec<T>, store: map<Key, Bytes>): Plain<T> {
    map k | k in store :: codec.parse(store[k])
  }

  /** The cache agrees with the plain map, and what is not written is still as stored. */
  ghost predicate Agrees<T>(codec: Codec<T>, store: map<Key, Bytes>, s: State<T>, m: Plain<T>) {
    && s.store == store
    && (forall k | k in s.cache :: s.cache[k] == Lookup(m, k))
    && (forall k | k in s.writes :: k in s.cache && s.writes[k] == s.cache[k])
    && (forall k | k !in s.writes :: Lookup(m, k) == Stored(codec, store, k))
    && s.hooks == if s.writes == map[] then 0 else 1
  }

  lemma ReadAgrees<T>(codec: Codec<T>, store: map<Key, Bytes>, s: State<T>, m: Plain<T>, key: Key)
    requires Agrees(codec, store, s, m)
    ensures ReadResult(codec, s, key) == Lookup(m, key)
    ensures Agrees(codec, store, ReadState(codec, s, key), m)
  {
  }

  lemma WriteAgrees<T>(codec: Codec<T>, store: map<Key, Bytes>, s: State<T>, m: Plain<T>, key: Key, v: Option<T>)
    requires Agrees(codec, store, s, m)
    ensures Agrees(codec, store, WriteState(s, key, v), PlainWrite(m, key, v))
  {
    assert key in WriteState(s, key, v).writes;
    forall k
      ensures Lookup(PlainWrite(m, key, v), k) == if k == key then v else Lookup(m, k)
    {
    }
  }

  /** Every read of any sequence of reads and writes sees what direct access would see. */
  lemma {:induction false} RunsAgree<T>(codec: Codec<T>, store: map<Key, Bytes>, ops: seq<Op<T>>)
    ensures var (s, seen) := CachedRun(codec, State(store, map[], map[], 0), ops);
      var (m, expected) := PlainRun(Parsed(codec, store), ops);
      seen == expected && Agrees(codec, store, s, m)
  {
    if ops != [] {
      hide Agrees;
      var before := ops[..|ops| - 1];
      RunsAgree(codec, store, before);
      var s := CachedRun(codec, State(store, map[], map[], 0), before).0;
      var m := PlainRun(Parsed(codec, store), before).0;
      match ops[|ops| - 1]
      case Read(k) => ReadAgrees(codec, store, s, m, k);
      case Write(k, v) => WriteAgrees(codec, store, s, m, k, v);
    }
  }

  /** The hook is registered by the first write and only then. */
  lemma OneHookIfWritten<T>(codec: Codec<T>, store: map<Key, Bytes>, ops: seq<Op<T>>)
    ensures CachedRun(codec, State(store, map[], map[], 0), ops).0.hooks ==
      if exists i :: 0 <= i < |ops| && ops[i].Write? then 1 else 0
  {
    RunsAgree(codec, store, ops);
    WrittenIffWrite(codec, State(store, map[], map[], 0), ops);
  }

  lemma {:induction false} WrittenIffWrite<T>(codec: Codec<T>, s: State<T>, ops: seq<Op<T>>)
    requires s.writes == map[]
    ensures CachedRun(codec, s, ops).0.writes != map[] <==> exists i :: 0 <= i < |ops| && ops[i].Write?
  {
    if ops != [] {
      var n := |ops| - 1;
      WrittenIffWrite(codec, s, ops[..n]);
      if i :| 0 <= i < n && ops[..n][i].Write? {
        assert ops[i].Write?;
      }
      if ops[n].Write? {
        assert ops[n].key in CachedRun(codec, s, ops).0.writes;
      } else if i :| 0 <= i < |ops| && ops[i].Write? {
        assert ops[..n][i].Write?;
      }
    }
  }

  /** What the last write of `key` wrote, if there was one. */
  function LastWrite<T>(ops: seq<Op<T>>, key: Key): Option<Option<T>> {
    if ops == [] then None
    else
      match ops[|ops| - 1]
      case Read(_) => LastWrite(ops[..|ops| - 1], key)
      case Write(k, v) => if k == key then Some(v) else LastWrite(ops[..|ops| - 1], key)
  }

  /** The pending writes are the last write of every written key. */
  lemma {:induction false} WritesAreLast<T>(codec: Codec<T>, s: State<T>, ops: seq<Op<T>>, key: Key)
    requires s.writes == map[]
    ensures var writes := CachedRun(codec, s, ops).0.writes;
      LastWrite(ops, key) == if key in writes then Some(writes[key]) else None
  {
    if ops != [] {
      WritesAreLast(codec, s, ops[..|ops| - 1], key);
    }
  }

  /**
   A read returns the last write of its key in this transaction, `null` included, and if
   there is none what is stored; from then on its key is cached, so the store is asked once.
   */
  lemma {:induction false} ReadIsLastWrite<T>(codec: Codec<T>, store: map<Key, Bytes>, ops: seq<Op<T>>, key: Key)
    ensures var s := CachedRun(codec, State(store, map[], map[], 0), ops).0;
      && s.store == store
      && ReadResult(codec, s, key) ==
           (match LastWrite(ops, key)
            case Some(v) => v
            case None => if key in store then Some(codec.parse(store[key])) else None)
      && (key in s.cache <==> exists i :: 0 <= i < |ops| && ops[i].key == key)
  {
    if ops != [] {
      var n := |ops| - 1;
      var before := ops[..n];
      ReadIsLastWrite(codec, store, before, key);
      if i :| 0 <= i < n && before[i].key == key {
        assert ops[i].key == key;
      }
      if i :| 0 <= i < |ops| && ops[i].key == key && ops[n].key != key {
        assert before[i].key == key;
      }
    }
  }

  /**
   After the write-back a key is as it was if nothing was written to it; it is gone if
   `null` or another falsy value was written last; else it has the last value, serialized.
   */
  lemma WriteBackStores<T>(codec: Codec<T>, store: map<Key, Bytes>, ops: seq<Op<T>>, key: Key)
    ensures var s := CachedRun(codec, State(store, map[], map[], 0), ops).0;
      var after := FlushedStore(codec, s.store, s.writes);
      match LastWrite(ops, key)
      case None => (key in after <==> key in store) && (key in store ==> key in after && after[key] == store[key])
      case Some(None) => key !in after
      case Some(Some(v)) =>
        if codec.truthy(v) then key in after && after[key] == codec.serialize(v) else key !in after
  {
    ReadIsLastWrite(codec, store, ops, key);
    WritesAreLast(codec, State(store, map[], map[], 0), ops, key);
    hide CachedRun, LastWrite;
  }

  /** What is stored for `v` is there after the write-back and reads as `v` again. */
  ghost predicate Survives<T>(codec: Codec<T>, v: T) {
    codec.truthy(v) && codec.parse(codec.serialize(v)) == v
  }

  /** Every key's last write is of `null` or of a value that survives being written back. */
  ghost predicate LastWritesSurvive<T>(codec: Codec<T>, ops: seq<Op<T>>) {
    forall key ::
      var last := LastWrite(ops, key);
      last.Some? && last.value.Some? ==> Survives(codec, last.value.value)
  }

  /** No key's last write is of a value that is falsy and not `null`. */
  ghost predicate OnlyTruthy<T>(codec: Codec<T>, ops: seq<Op<T>>) {
    forall key ::
      var last := LastWrite(ops, key);
      last.Some? && last.value.Some? ==> codec.truthy(last.value.value)
  }

  /**
   The single write-back leaves the subspace equal to direct access exactly when every
   key's last write is of `null` or of a value that is truthy and parses back to itself.
   */
  lemma FlushAgreesIffWritesSurvive<T>(codec: Codec<T>, store: map<Key, Bytes>, ops: seq<Op<T>>)
    ensures var s := CachedRun(codec, State(store, map[], map[], 0), ops).0;
      var m := PlainRun(Parsed(codec, store), ops).0;
      Parsed(codec, FlushedStore(codec, store, s.writes)) == m <==> LastWritesSurvive(codec, ops)
  {
    var start := State(store, map[], map[], 0);
    RunsAgree(codec, store, ops);
    var s := CachedRun(codec, start, ops).0;
    var m := PlainRun(Parsed(codec, store), ops).0;
    forall key
      ensures LastWrite(ops, key) == if key in s.writes then Some(s.writes[key]) else None
    {
      WritesAreLast(codec, start, ops, key);
    }
    hide CachedRun, PlainRun, LastWrite;
    WriteBackAgrees(codec, store, ops, s, m);
  }

  lemma WriteBackAgrees<T>(codec: Codec<T>, store: map<Key, Bytes>, ops: seq<Op<T>>, s: State<T>, m: Plain<T>)
    requires Agrees(codec, store, s, m)
    requires forall key :: LastWrite(ops, key) == if key in s.writes then Some(s.writes[key]) else None
    ensures Parsed(codec, FlushedStore(codec, store, s.writes)) == m <==> LastWritesSurvive(codec, ops)
  {
    hide LastWrite;
    var flushed := Parsed(codec, FlushedStore(codec, store, s.writes));
    if LastWritesSurvive(codec, ops) {
      forall k
        ensures k in flushed <==> k in m
        ensures k in flushed && k in m ==> flushed[k] == m[k]
      {
        assert LastWrite(ops, k) == if k in s.writes then Some(s.writes[k]) else None;
        assert Lookup(m, k) == if k in s.writes then s.writes[k] else Stored(codec, store, k);
      }
      assert flushed == m;
    } else {
      var k :|
        var last := LastWrite(ops, k);
        last.Some? && last.value.Some? && !Survives(codec, last.value.value);
      assert Lookup(m, k) == s.writes[k];
      assert k in m && (k in flushed ==> flushed[k] != m[k]);
    }
  }

  lemma SurvivingIsTruthy<T>(codec: Codec<T>, ops: seq<Op<T>>)
    requires forall v: T | codec.truthy(v) :: codec.parse(codec.serialize(v)) == v
    ensures LastWritesSurvive(codec, ops) <==> OnlyTruthy(codec, ops)
  {
    if OnlyTruthy(codec, ops) {
      forall key
        ensures var last := LastWrite(ops, key);
          last.Some? && last.value.Some? ==> Survives(codec, last.value.value)
      {
        match LastWrite(ops, key)
        case Some(Some(v)) => assert codec.truthy(v) ==> codec.parse(codec.serialize(v)) == v;
        case _ =>
      }
    }
  }

  /**
   With a codec that parses back what it serialized, it is exactly the falsy values that
   are not `null` that the write-back gets wrong.
   */
  lemma FlushAgreesIffTruthy<T>(codec: Codec<T>, store: map<Key, Bytes>, ops: seq<Op<T>>)
    requires forall v: T | codec.truthy(v) :: codec.parse(codec.serialize(v)) == v
    ensures var s := CachedRun(codec, State(store, map[], map[], 0), ops).0;
      var m := PlainRun(Parsed(codec, store), ops).0;
      Parsed(codec, FlushedStore(codec, store, s.writes)) == m <==> OnlyTruthy(codec, ops)
  {
    hide CachedRun, PlainRun, LastWrite;
    FlushAgreesIffWritesSurvive(codec, store, ops);
    SurvivingIsTruthy(codec, ops);
  }

  /** Any falsy value that is not `null`, written once: direct access has it, the write-back does not. */
  lemma FalsyWriteIsLost<T>(codec: Codec<T>, store: map<Key, Bytes>, key: Key, v: T)
    requires !codec.truthy(v)
    ensures var ops := [Write(key, Some(v))];
      var s := CachedRun(codec, State(store, map[], map[], 0), ops).0;
      var m := PlainRun(Parsed(codec, store), ops).0;
      && ReadResult(codec, s, key) == Some(v) == Lookup(m, key)
      && key !in FlushedStore(codec, store, s.writes)
  {
    var ops := [Write(key, Some(v))];
    assert ops[..0] == [];
  }

  // ---------- the numbers of the recent-items collection ----------

  /** The byte of weight 256 to the `i` of a 32-bit number. */
  function Digit(v: int, i: nat): int
    requires i < 4
  {
    match i
    case 0 => v % 256
    case 1 => v / 256 % 256
    case 2 => v / 65536 % 256
    case 3 => v / 16777216 % 256
  }

  function PackBE(v: int): Bytes {
    [Digit(v, 3), Digit(v, 2), Digit(v, 1), Digit(v, 0)]
  }

  function UnpackLE(bytes: Bytes): int {
    if |bytes| != 4 then 0
    else
      var n := bytes[0] + 256 * bytes[1] + 65536 * bytes[2] + 16777216 * bytes[3];
      if n < 0x8000_0000 then n else n - 0x1_0000_0000
  }

  /** `RecentCollection` packs its numbers big-endian and unpacks them little-endian. */
  const RECENT: Codec<int> := Codec(PackBE, UnpackLE, v => v != 0)

  lemma DigitsAddUp(v: int)
    requires 0 <= v < 0x8000_0000
    ensures v == Digit(v, 0) + 256 * Digit(v, 1) + 65536 * Digit(v, 2) + 16777216 * Digit(v, 3)
    ensures 0 <= Digit(v, 0) < 256 && 0 <= Digit(v, 1) < 256 && 0 <= Digit(v, 2) < 256 && 0 <= Digit(v, 3) < 128
  {
    var a, b := v / 256, v / 65536;
    assert a / 256 == b && b / 256 == v / 16777216;
  }

  lemma BothOrders(d0: int, d1: int, d2: int, d3: int)
    requires 0 <= d0 < 256 && 0 <= d1 < 256 && 0 <= d2 < 256 && 0 <= d3 < 128
    ensures UnpackLE([d3, d2, d1, d0]) == d0 + 256 * d1 + 65536 * d2 + 16777216 * d3 <==> d0 == d3 && d1 == d2
  {
    var n := d3 + 256 * d2 + 65536 * d1 + 16777216 * d0;
    assert n < 0x8000_0000 <==> d0 < 128;
    assert n == d0 + 256 * d1 + 65536 * d2 + 16777216 * d3 <==> 16777215 * (d0 - d3) == 65280 * (d2 - d1);
    if d0 != d3 {
      assert 16777215 * (d0 - d3) != 65280 * (d2 - d1);
    }
  }

  /** So a number survives being written back iff it is not 0 and reads the same in both byte orders. */
  lemma RecentNumberSurvivesIff(v: int)
    requires 0 <= v < 0x8000_0000
    ensures Survives(RECENT, v) <==> v != 0 && Digit(v, 0) == Digit(v, 3) && Digit(v, 1) == Digit(v, 2)
  {
    DigitsAddUp(v);
    hide Digit;
    BothOrders(Digit(v, 0), Digit(v, 1), Digit(v, 2), Digit(v, 3));
  }

  /** Writing one such number agrees with direct access exactly then. */
  lemma RecentWriteAgreesIff(store: map<Key, Bytes>, key: Key, v: int)
    requires 0 <= v < 0x8000_0000
    ensures var ops := [Write(key, Some(v))];
      var s := CachedRun(RECENT, State(store, map[], map[], 0), ops).0;
      var m := PlainRun(Parsed(RECENT, store), ops).0;
      Parsed(RECENT, FlushedStore(RECENT, store, s.writes)) == m <==>
        v != 0 && Digit(v, 0) == Digit(v, 3) && Digit(v, 1) == Digit(v, 2)
  {
    hide Digit, PackBE, UnpackLE, Survives, CachedRun, PlainRun, Parsed, FlushedStore;
    var ops := [Write(key, Some(v))];
    FlushAgreesIffWritesSurvive(RECENT, store, ops);
    RecentNumberSurvivesIff(v);
    assert ops[..0] == [];
    assert forall k :: LastWrite(ops, k) == if k == key then Some(Some(v)) else None;
    assert LastWrite(ops, key) == Some(Some(v));
  }
}
