/**
 The two subspaces of the high-contention allocator, the mutations a transaction
 buffers against them, and one attempt of `allocate` as an effect on a store.
 */
module AllocatorStore {

  const COUNTER_MODULUS: nat := 0x1_0000_0000_0000_0000

  const UINT32_MODULUS: nat := 0x1_0000_0000

  function WindowSize(start: nat): (window: nat)
    ensures 0 < window <= 8192
  {
    if start < 255 then 64
    else if start < 65535 then 1024
    else 8192
  }

  /** `counters` maps a window start to its count; `recent` holds the marked candidates. */
  datatype Store = Store(counters: map<nat, nat>, recent: set<nat>)

  const EMPTY := Store(map[], {})

  datatype Mutation =
    | Increment(start: nat)
    | ClearCounters(below: nat)
    | ClearRecent(below: nat)
    | Mark(candidate: nat)

  function Count(counters: map<nat, nat>, start: nat): nat {
    if start in counters then counters[start] else 0
  }

  /** Atomic addition of one to a 64-bit little-endian counter. */
  function Bumped(counters: map<nat, nat>, start: nat): map<nat, nat> {
    counters[start := (Count(counters, start) + 1) % COUNTER_MODULUS]
  }

  /** What `readUInt32LE(0)` sees of an 8-byte counter. */
  function ReadUInt32(count: nat): nat {
    count % UINT32_MODULUS
  }

  function CountersFrom(counters: map<nat, nat>, below: nat): map<nat, nat> {
    map k | k in counters && below <= k :: counters[k]
  }

  function RecentFrom(recent: set<nat>, below: nat): set<nat> {
    set c | c in recent && below <= c
  }

  function Apply(s: Store, m: Mutation): Store {
    match m
    case Increment(k) => s.(counters := Bumped(s.counters, k))
    case ClearCounters(k) => s.(counters := CountersFrom(s.counters, k))
    case ClearRecent(k) => s.(recent := RecentFrom(s.recent, k))
    case Mark(c) => s.(recent := s.recent + {c})
  }

  /** Replays a mutation log, oldest first. */
  function ApplyAll(s: Store, log: seq<Mutation>): Store {
    if log == [] then s
    else Apply(ApplyAll(s, log[..|log| - 1]), log[|log| - 1])
  }

  lemma {:induction false} ApplyAllConcat(s: Store, a: seq<Mutation>, b: seq<Mutation>)
    ensures ApplyAll(s, a + b) == ApplyAll(ApplyAll(s, a), b)
  {
    if b == [] {
      assert a + b == a;
    } else {
      assert (a + b)[..|a + b| - 1] == a + b[..|b| - 1];
      ApplyAllConcat(s, a, b[..|b| - 1]);
    }
  }

  // ---------- the newest window ----------

  lemma {:induction false} MaximumExists(keys: set<nat>)
    requires keys != {}
    ensures exists m :: m in keys && forall k | k in keys :: k <= m
  {
    var x :| x in keys;
    if keys != {x} {
      MaximumExists(keys - {x});
      var m :| m in keys - {x} && forall k | k in keys - {x} :: k <= m;
      var top := if m < x then x else m;
      forall k | k in keys
        ensures k <= top
      {
        assert k == x || k in keys - {x};
      }
    }
  }

  /** The key a reversed range read with limit 1 returns, or 0 when there is none. */
  function Newest(s: Store): (newest: nat)
    ensures forall k | k in s.counters :: k <= newest
    ensures s.counters != map[] ==> newest in s.counters
    ensures s.counters == map[] ==> newest == 0
  {
    if s.counters == map[] then 0 else
      assert exists k :: k in s.counters.Keys;
      MaximumExists(s.counters.Keys);
      var m :| m in s.counters.Keys && forall k | k in s.counters.Keys :: k <= m;
      m
  }

  lemma NewestIs(s: Store, newest: nat)
    requires newest in s.counters && forall k | k in s.counters :: k <= newest
    ensures Newest(s) == newest
  {
  }

  // ---------- one attempt ----------

  /**
   One turn of the outer loop of `allocate`: it starts in window `from`, perhaps
   advances once, and then marks the candidates it draws. All but the last draw
   were found taken; the last is either the allocated number or was abandoned.
   */
  datatype Attempt = Attempt(from: nat, advanced: bool, draws: seq<nat>, accepted: bool) {
    function Start(): nat {
      if advanced then from + WindowSize(from) else from
    }

    function Opening(): seq<Mutation> {
      [Increment(from)] +
      if advanced then [ClearCounters(Start()), ClearRecent(Start()), Increment(Start())] else []
    }

    function Mutations(): seq<Mutation> {
      Opening() + Marks(draws)
    }

    function DrawSet(): set<nat> {
      set d | d in draws
    }
  }

  function Marks(draws: seq<nat>): seq<Mutation> {
    seq(|draws|, i requires 0 <= i < |draws| => Mark(draws[i]))
  }

  /** `s` with the window at `from`, or the one after it, opened and counted. */
  function WithWindow(s: Store, from: nat, advanced: bool): Store {
    var counters := Bumped(s.counters, from);
    var next := from + WindowSize(from);
    if advanced then
      Store(Bumped(CountersFrom(counters, next), next), RecentFrom(s.recent, next))
    else
      Store(counters, s.recent)
  }

  /** The store once the window of the attempt is open. */
  function Opened(s: Store, a: Attempt): Store {
    WithWindow(s, a.from, a.advanced)
  }

  /** The test that makes `allocate` leave a window: half of it is counted already. */
  predicate Crowded(s: Store, start: nat) {
    2 * ReadUInt32(Count(s.counters, start)) >= WindowSize(start)
  }

  /** Window `from` is the newest, and it was left exactly when its bumped counter was too high. */
  ghost predicate Chooses(view: Store, a: Attempt) {
    && a.from == Newest(view)
    && (a.advanced <==> Crowded(WithWindow(view, a.from, false), a.from))
  }

  function After(s: Store, a: Attempt): Store {
    var base := Opened(s, a);
    base.(recent := base.recent + a.DrawSet())
  }

  /** What the loops of `allocate` establish about an attempt made on `view`. */
  ghost predicate Legal(view: Store, a: Attempt) {
    && Chooses(view, a)
    && a.draws != []
    && (forall d | d in a.draws :: a.Start() <= d < a.Start() + WindowSize(a.Start()))
    && (forall i | 0 <= i < |a.draws| - 1 :: a.draws[i] in Opened(view, a).recent)
    && (a.accepted ==> a.draws[|a.draws| - 1] !in Opened(view, a).recent)
  }

  lemma {:induction false} MarksReplay(s: Store, draws: seq<nat>)
    ensures ApplyAll(s, Marks(draws)) == s.(recent := s.recent + set d | d in draws)
  {
    if draws != [] {
      var n := |draws| - 1;
      assert Marks(draws)[..n] == Marks(draws[..n]);
      MarksReplay(s, draws[..n]);
      assert draws == draws[..n] + [draws[n]];
      assert (set d | d in draws) == (set d | d in draws[..n]) + {draws[n]};
    }
  }

  lemma OpeningReplay(s: Store, a: Attempt)
    ensures ApplyAll(s, a.Opening()) == Opened(s, a)
  {
    var i0 := Increment(a.from);
    var s1 := Apply(s, i0);
    assert ApplyAll(s, [i0]) == s1;
    if a.advanced {
      var b, c, d := ClearCounters(a.Start()), ClearRecent(a.Start()), Increment(a.Start());
      assert a.Opening() == [i0, b, c, d];
      assert [i0, b, c, d][..3] == [i0, b, c];
      assert [i0, b, c][..2] == [i0, b];
      assert [i0, b][..1] == [i0];
      assert ApplyAll(s, [i0, b]) == Apply(s1, b);
      assert ApplyAll(s, [i0, b, c]) == Apply(Apply(s1, b), c);
      assert ApplyAll(s, [i0, b, c, d]) == Apply(Apply(Apply(s1, b), c), d);
    } else {
      assert a.Opening() == [i0];
    }
  }

  /** Replaying the buffered mutations of an attempt has the closed form `After`, on any store. */
  lemma AttemptReplay(s: Store, a: Attempt)
    ensures ApplyAll(s, a.Mutations()) == After(s, a)
  {
    OpeningReplay(s, a);
    ApplyAllConcat(s, a.Opening(), Marks(a.draws));
    MarksReplay(Opened(s, a), a.draws);
  }

  lemma RecentAfter(s: Store, a: Attempt)
    ensures forall d :: d in Opened(s, a).recent <==> d in s.recent && (a.advanced ==> a.Start() <= d)
    ensures forall d :: d in After(s, a).recent <==> d in a.draws || d in Opened(s, a).recent
  {
  }

  lemma NewestAfter(s: Store, a: Attempt)
    ensures Newest(Opened(s, a)) == Newest(After(s, a)) == if Newest(s) < a.Start() then a.Start() else Newest(s)
  {
    var keys := Opened(s, a).counters.Keys;
    if a.advanced {
      assert keys == set k | k in s.counters.Keys + {a.from, a.Start()} && a.Start() <= k;
    } else {
      assert keys == s.counters.Keys + {a.from};
    }
    assert a.Start() in keys;
    var top := if Newest(s) < a.Start() then a.Start() else Newest(s);
    NewestIs(Opened(s, a), top);
    NewestIs(After(s, a), top);
  }

  /** One advance past the newest counter is always enough. */
  lemma FreshWindowIsNotCrowded(view: Store, from: nat)
    requires from == Newest(view)
    ensures Count(WithWindow(view, from, true).counters, from + WindowSize(from)) == 1
    ensures !Crowded(WithWindow(view, from, true), from + WindowSize(from))
  {
  }

  // ---------- the chain of windows ----------

  function ChainStart(i: nat): nat {
    if i == 0 then 0 else ChainStart(i - 1) + WindowSize(ChainStart(i - 1))
  }

  /** The chain in numbers: four windows of 64, then 64 of 1024, then windows of 8192 for ever. */
  lemma {:induction false} ChainIs(i: nat)
    ensures ChainStart(i) ==
      if i <= 4 then 64 * i
      else if i <= 68 then 256 + 1024 * (i - 4)
      else 65792 + 8192 * (i - 68)
  {
    if i > 0 {
      ChainIs(i - 1);
    }
  }

  ghost predicate OnChain(start: nat) {
    exists i: nat :: ChainStart(i) == start
  }

  lemma NextOnChain(start: nat)
    requires OnChain(start)
    ensures OnChain(start + WindowSize(start))
  {
    var i: nat :| ChainStart(i) == start;
    assert ChainStart(i + 1) == start + WindowSize(start);
  }

  lemma {:induction false} ChainIncreases(i: nat, j: nat)
    requires i < j
    ensures ChainStart(i) + WindowSize(ChainStart(i)) <= ChainStart(j)
  {
    if i + 1 < j {
      ChainIncreases(i, j - 1);
    }
  }

  /** Two windows of the chain never overlap. */
  lemma WindowsDisjoint(a: nat, b: nat)
    requires OnChain(a) && OnChain(b) && a < b
    ensures a + WindowSize(a) <= b
  {
    var i: nat :| ChainStart(i) == a;
    var j: nat :| ChainStart(j) == b;
    if j < i {
      ChainIncreases(j, i);
    }
    ChainIncreases(i, j);
  }

  ghost predicate InWindow(n: nat, i: nat) {
    ChainStart(i) <= n < ChainStart(i) + WindowSize(ChainStart(i))
  }

  lemma {:induction false} WindowOf(n: nat, i: nat) returns (j: nat)
    requires ChainStart(i) <= n
    ensures InWindow(n, j)
    decreases n - ChainStart(i)
  {
    if InWindow(n, i) {
      j := i;
    } else {
      assert ChainStart(i + 1) == ChainStart(i) + WindowSize(ChainStart(i));
      j := WindowOf(n, i + 1);
    }
  }

  /** The windows of the chain tile the naturals: every number lies in exactly one. */
  lemma WindowsTile(n: nat)
    ensures exists i: nat :: InWindow(n, i)
    ensures forall i: nat, j: nat | InWindow(n, i) && InWindow(n, j) :: i == j
  {
    var k := WindowOf(n, 0);
    forall i: nat, j: nat | InWindow(n, i) && InWindow(n, j)
      ensures i == j
    {
      if i < j {
        ChainIncreases(i, j);
      } else if j < i {
        ChainIncreases(j, i);
      }
    }
  }

}
