/**
 `HighContentionAllocator.allocate` over one FoundationDB transaction.

 `Transaction` stands for the database client: reads see the snapshot overlaid
 with the transaction's own mutations, a non-snapshot read adds a read conflict
 unless the transaction's own writes already decide it, and no write conflict is
 recorded except on request.
 */
module HighContentionAllocator {
  import opened Wrappers
  import opened AllocatorStore

  /** The value of a transaction; `attempts` is its history, not client state. */
  datatype Tx = Tx(
    readVersion: nat, snapshot: Store, log: seq<Mutation>,
    readKeys: set<nat>, writeKeys: set<nat>, attempts: seq<Attempt>)

  /** The log alone decides whether `candidate` is marked, whatever the snapshot says. */
  predicate Touched(log: seq<Mutation>, candidate: nat) {
    exists i | 0 <= i < |log| ::
      log[i] == Mark(candidate) || (log[i].ClearRecent? && candidate < log[i].below)
  }

  function ReadConflicts(log: seq<Mutation>, draws: seq<nat>): set<nat> {
    if draws == [] then {}
    else
      var n := |draws| - 1;
      ReadConflicts(log, draws[..n]) +
      if Touched(log + Marks(draws[..n]), draws[n]) then {} else {draws[n]}
  }

  ghost function View(tx: Tx): Store {
    ApplyAll(tx.snapshot, tx.log)
  }

  /** The transaction after one more attempt. */
  ghost function Record(tx: Tx, a: Attempt): Tx
    requires a.draws != []
  {
    tx.(log := tx.log + a.Mutations(),
        readKeys := tx.readKeys + ReadConflicts(tx.log + a.Opening(), a.draws),
        writeKeys := tx.writeKeys + if a.accepted then {a.draws[|a.draws| - 1]} else {},
        attempts := tx.attempts + [a])
  }

  lemma {:induction false} DrawsAreRead(log: seq<Mutation>, draws: seq<nat>, d: nat)
    ensures d in ReadConflicts(log, draws) ==> d in draws && !Touched(log, d)
    ensures d in draws && !Touched(log, d) ==> d in ReadConflicts(log, draws)
  {
    if draws != [] {
      var n := |draws| - 1;
      DrawsAreRead(log, draws[..n], d);
      assert draws == draws[..n] + [draws[n]];
      TouchedWithMarks(log, draws[..n], d);
    }
  }

  lemma TouchedWithMarks(log: seq<Mutation>, draws: seq<nat>, d: nat)
    ensures Touched(log + Marks(draws), d) <==> Touched(log, d) || d in draws
  {
    var all := log + Marks(draws);
    if Touched(log, d) {
      var i :| 0 <= i < |log| && (log[i] == Mark(d) || (log[i].ClearRecent? && d < log[i].below));
      assert all[i] == log[i];
    }
    if d in draws {
      var i :| 0 <= i < |draws| && draws[i] == d;
      assert all[|log| + i] == Mark(d);
    }
  }

  /**
   The keys of an attempt: every candidate it drew is read with a conflict unless the
   transaction itself had decided it before, and the returned one alone is declared written.
   */
  lemma KeysOfAttempt(tx: Tx, a: Attempt, d: nat)
    requires a.draws != []
    ensures d in Record(tx, a).readKeys <==>
      d in tx.readKeys || (d in a.draws && !Touched(tx.log + a.Opening(), d))
    ensures d in Record(tx, a).writeKeys <==>
      d in tx.writeKeys || (a.accepted && d == a.draws[|a.draws| - 1])
  {
    DrawsAreRead(tx.log + a.Opening(), a.draws, d);
  }

  class Transaction {
    const readVersion: nat
    const snapshot: Store
    var log: seq<Mutation>
    var readKeys: set<nat>
    var writeKeys: set<nat>
    ghost var attempts: seq<Attempt>

    constructor (readVersion: nat, snapshot: Store)
      ensures Model() == Tx(readVersion, snapshot, [], {}, {}, [])
    {
      this.readVersion, this.snapshot := readVersion, snapshot;
      log, readKeys, writeKeys, attempts := [], {}, {}, [];
    }

    ghost function Model(): Tx
      reads this
    {
      Tx(readVersion, snapshot, log, readKeys, writeKeys, attempts)
    }

    method SnapshotNewestCounter() returns (start: nat)
      ensures start == Newest(View(Model()))
    {
      start := Newest(ApplyAll(snapshot, log));
    }

    method SnapshotGetCounter(start: nat) returns (count: Option<nat>)
      ensures var counters := View(Model()).counters;
        count == if start in counters then Some(counters[start]) else None
    {
      var counters := ApplyAll(snapshot, log).counters;
      count := if start in counters then Some(counters[start]) else None;
    }

    method Write(m: Mutation)
      modifies this`log
      ensures log == old(log) + [m]
      ensures View(Model()) == Apply(old(View(Model())), m)
    {
      log := log + [m];
    }

    method GetRecent(candidate: nat) returns (marked: bool)
      modifies this`readKeys
      ensures marked <==> candidate in View(Model()).recent
      ensures readKeys == old(readKeys) + if Touched(log, candidate) then {} else {candidate}
    {
      marked := candidate in ApplyAll(snapshot, log).recent;
      if !Touched(log, candidate) {
        readKeys := readKeys + {candidate};
      }
    }

    method AddWriteConflict(candidate: nat)
      modifies this`writeKeys
      ensures writeKeys == old(writeKeys) + {candidate}
    {
      writeKeys := writeKeys + {candidate};
    }
  }

  /** `Math.floor(Math.random() * window)`. */
  function Offset(random: real, window: nat): (offset: nat)
    requires 0.0 <= random < 1.0 && window > 0
    ensures offset < window
    ensures offset as real <= random * window as real < offset as real + 1.0
  {
    assert random * window as real < 1.0 * window as real;
    (random * window as real).Floor
  }

  /** A random number draws this candidate of a window. */
  predicate Hits(random: real, start: nat, window: nat, candidate: nat) {
    && start <= candidate < start + window
    && (candidate - start) as real <= random * window as real < (candidate - start + 1) as real
  }

  lemma OffsetHits(random: real, start: nat, window: nat)
    requires 0.0 <= random < 1.0 && window > 0
    ensures Hits(random, start, window, Offset(random, window) + start)
  {
  }

  /** Every random number draws one candidate, and every candidate of the window is drawn by some. */
  lemma EveryCandidateIsHit(start: nat, window: nat, candidate: nat) returns (random: real)
    requires start <= candidate < start + window
    ensures 0.0 <= random < 1.0 && Hits(random, start, window, candidate)
  {
    var k := candidate - start;
    random := k as real / window as real;
    assert random * window as real == k as real;
    assert k as real < window as real;
  }

  lemma HitsOne(random: real, start: nat, window: nat, c: nat, d: nat)
    requires Hits(random, start, window, c) && Hits(random, start, window, d)
    ensures c == d
  {
  }

  /**
   The opening loop. It turns at most twice: the newest window, and the window after
   it when the first is crowded.
   */
  method OpenWindow(tx: Transaction) returns (start: nat, window: nat, ghost a: Attempt)
    modifies tx`log
    ensures a.draws == [] && !a.accepted && Chooses(old(View(tx.Model())), a)
    ensures View(tx.Model()) == Opened(old(View(tx.Model())), a)
    ensures ReadConflicts(old(tx.log) + a.Opening(), a.draws) == {} && tx.log == old(tx.log) + a.Mutations()
    ensures start == a.Start() && window == WindowSize(start)
  {
    hide ApplyAll, WithWindow, Crowded, Newest;
    ghost var view := View(tx.Model());
    start := tx.SnapshotNewestCounter();
    ghost var from := start;
    a := Attempt(from, false, [], false);
    var windowAdvanced := false;
    window := 0;
    while true
      invariant a == Attempt(from, false, [], false)
      invariant !windowAdvanced ==> start == from && tx.log == old(tx.log)
      invariant windowAdvanced ==>
        && start == from + WindowSize(from)
        && tx.log == old(tx.log) + a.Opening()
        && Crowded(WithWindow(view, from, false), from)
      decreases !windowAdvanced
    {
      if windowAdvanced {
        tx.Write(ClearCounters(start));
        tx.Write(ClearRecent(start));
        FreshWindowIsNotCrowded(view, from);
      }
      tx.Write(Increment(start));
      a := a.(advanced := windowAdvanced);
      assert tx.log == old(tx.log) + a.Opening();
      ApplyAllConcat(tx.snapshot, old(tx.log), a.Opening());
      OpeningReplay(view, a);
      var newCount := tx.SnapshotGetCounter(start);
      var count := 0;
      if newCount.Some? {
        count := ReadUInt32(newCount.value);
      }
      window := WindowSize(start);
      CrowdedMeans(tx, start, newCount, count);
      if count * 2 < window {
        break;
      }
      start := start + window;
      windowAdvanced := true;
    }
  }

  lemma CrowdedMeans(tx: Transaction, start: nat, newCount: Option<nat>, count: nat)
    requires var counters := View(tx.Model()).counters;
      newCount == if start in counters then Some(counters[start]) else None
    requires count == if newCount.Some? then ReadUInt32(newCount.value) else 0
    ensures Crowded(View(tx.Model()), start) <==> count * 2 >= WindowSize(start)
  {
  }

  /** `now` is `before` with the draws of `a`, all of them taken, added to it. */
  ghost predicate Searching(before: Tx, a: Attempt, now: Tx) {
    && now.readVersion == before.readVersion && now.snapshot == before.snapshot
    && now.log == before.log + a.Mutations()
    && now.readKeys == before.readKeys + ReadConflicts(before.log + a.Opening(), a.draws)
    && now.writeKeys == before.writeKeys && now.attempts == before.attempts
    && View(now) == Opened(View(before), a)
    && !a.accepted
    && forall d | d in a.draws ::
         a.Start() <= d < a.Start() + WindowSize(a.Start()) && d in Opened(View(before), a).recent
  }

  lemma OneMoreDraw(log: seq<Mutation>, a: Attempt, candidate: nat, accepted: bool)
    ensures var b := a.(draws := a.draws + [candidate], accepted := accepted);
      && b.Opening() == a.Opening() && b.Start() == a.Start()
      && log + b.Mutations() == log + a.Mutations() + [Mark(candidate)]
      && ReadConflicts(log + b.Opening(), b.draws) ==
           ReadConflicts(log + a.Opening(), a.draws) +
           if Touched(log + a.Mutations(), candidate) then {} else {candidate}
  {
    var b := a.(draws := a.draws + [candidate], accepted := accepted);
    assert b.draws[..|b.draws| - 1] == a.draws;
    assert Marks(b.draws) == Marks(a.draws) + [Mark(candidate)];
    assert log + a.Opening() + Marks(a.draws) == log + a.Mutations();
  }

  /** One turn of the search loop: reads, marks, and accepts the candidate if it was free. */
  method Draw(tx: Transaction, candidate: nat, ghost before: Tx, ghost a: Attempt)
    returns (free: bool, ghost b: Attempt)
    requires Searching(before, a, tx.Model())
    requires a.Start() <= candidate < a.Start() + WindowSize(a.Start())
    modifies tx
    ensures b == a.(draws := a.draws + [candidate], accepted := free)
    ensures free <==> candidate !in Opened(View(before), a).recent
    ensures !free ==> Searching(before, b, tx.Model())
    ensures free ==> tx.Model() == Record(before, b)
  {
    hide WithWindow, ApplyAll, ReadConflicts, Touched;
    var marked := tx.GetRecent(candidate);
    tx.Write(Mark(candidate));
    free, b := !marked, a.(draws := a.draws + [candidate], accepted := !marked);
    OneMoreDraw(before.log, a, candidate, free);
    if free {
      tx.AddWriteConflict(candidate);
      tx.attempts := tx.attempts + [b];
    } else {
      assert Opened(View(before), a).recent + {candidate} == Opened(View(before), a).recent;
    }
  }

  /** A candidate was free before the attempt iff it is free in the opened window. */
  lemma FreeBefore(view: Store, a: Attempt, c: nat)
    requires a.Start() <= c
    ensures c in Opened(view, a).recent <==> c in view.recent
  {
    RecentAfter(view, a);
  }

  /** If the first draw that hits an unmarked candidate hits `c`, then `c` is returned. */
  ghost predicate ReturnsFirstFree(recent: set<nat>, start: nat, window: nat, randoms: seq<real>, n: Option<nat>) {
    forall i, c: nat |
      && 0 <= i < |randoms| && Hits(randoms[i], start, window, c) && c !in recent
      && (forall j, d: nat | 0 <= j < i && Hits(randoms[j], start, window, d) :: d in recent) ::
      n == Some(c)
  }

  lemma InWindow(start: nat, random: real, c: nat)
    requires Hits(random, start, WindowSize(start), c)
    ensures start <= c < start + WindowSize(start)
  {
  }

  /** `n` is the first of the drawn candidates that was free: this is what the loop has found out when it ends. */
  lemma FirstFree(view: Store, a: Attempt, randoms: seq<real>, n: Option<nat>, i: nat, c: nat)
    requires |a.draws| <= |randoms|
    requires forall j | 0 <= j < |a.draws| :: Hits(randoms[j], a.Start(), WindowSize(a.Start()), a.draws[j])
    requires n.Some? ==>
      && a.draws != [] && n.value == a.draws[|a.draws| - 1] && n.value !in Opened(view, a).recent
      && forall j | 0 <= j < |a.draws| - 1 :: a.draws[j] in Opened(view, a).recent
    requires n.None? ==> |a.draws| == |randoms| && forall d | d in a.draws :: d in Opened(view, a).recent
    requires i < |randoms| && Hits(randoms[i], a.Start(), WindowSize(a.Start()), c) && c !in view.recent
    requires forall j, d: nat | 0 <= j < i && Hits(randoms[j], a.Start(), WindowSize(a.Start()), d) :: d in view.recent
    ensures n == Some(c)
  {
    hide Hits, WithWindow, WindowSize;
    InWindow(a.Start(), randoms[i], c);
    FreeBefore(view, a, c);
    if i < |a.draws| {
      HitsOne(randoms[i], a.Start(), WindowSize(a.Start()), c, a.draws[i]);
      assert a.draws[i] in a.draws;
    } else {
      var last := |a.draws| - 1;
      InWindow(a.Start(), randoms[last], a.draws[last]);
      FreeBefore(view, a, a.draws[last]);
      assert false;
    }
  }

  lemma FreeComesFirst(view: Store, a: Attempt, randoms: seq<real>, n: Option<nat>)
    requires |a.draws| <= |randoms|
    requires forall j | 0 <= j < |a.draws| :: Hits(randoms[j], a.Start(), WindowSize(a.Start()), a.draws[j])
    requires n.Some? ==>
      && a.draws != [] && n.value == a.draws[|a.draws| - 1] && n.value !in Opened(view, a).recent
      && forall j | 0 <= j < |a.draws| - 1 :: a.draws[j] in Opened(view, a).recent
    requires n.None? ==> |a.draws| == |randoms| && forall d | d in a.draws :: d in Opened(view, a).recent
    ensures ReturnsFirstFree(view.recent, a.Start(), WindowSize(a.Start()), randoms, n)
  {
    hide Hits, WithWindow, WindowSize;
    forall i, c: nat |
      && 0 <= i < |randoms| && Hits(randoms[i], a.Start(), WindowSize(a.Start()), c) && c !in view.recent
      && (forall j, d: nat | 0 <= j < i && Hits(randoms[j], a.Start(), WindowSize(a.Start()), d) :: d in view.recent)
      ensures n == Some(c)
    {
      FirstFree(view, a, randoms, n, i, c);
    }
  }

  /** Whatever was free in the opened window is returned for some result of `Math.random()`. */
  lemma EveryFreeIsReached(recent: set<nat>, start: nat, candidate: nat) returns (random: real)
    requires start <= candidate < start + WindowSize(start) && candidate !in recent
    ensures 0.0 <= random < 1.0
    ensures forall n | ReturnsFirstFree(recent, start, WindowSize(start), [random], n) :: n == Some(candidate)
  {
    random := EveryCandidateIsHit(start, WindowSize(start), candidate);
    forall n | ReturnsFirstFree(recent, start, WindowSize(start), [random], n)
      ensures n == Some(candidate)
    {
      assert Hits([random][0], start, WindowSize(start), candidate);
    }
  }

  /**
   `allocate`, drawing from the given results of `Math.random()`. `None` means the
   draws ran out, every one of them having hit a marked candidate.
   */
  method Allocate(tx: Transaction, randoms: seq<real>) returns (n: Option<nat>, ghost a: Attempt)
    requires forall i | 0 <= i < |randoms| :: 0.0 <= randoms[i] < 1.0
    modifies tx
    ensures n.Some? ==>
      && Legal(old(View(tx.Model())), a) && a.accepted
      && tx.Model() == Record(old(tx.Model()), a)
      && n.value == a.draws[|a.draws| - 1]
    ensures n.None? ==> |a.draws| == |randoms| && Searching(old(tx.Model()), a, tx.Model())
    ensures Chooses(old(View(tx.Model())), a)
    ensures |a.draws| <= |randoms|
    ensures forall i | 0 <= i < |a.draws| :: Hits(randoms[i], a.Start(), WindowSize(a.Start()), a.draws[i])
    ensures ReturnsFirstFree(old(View(tx.Model())).recent, a.Start(), WindowSize(a.Start()), randoms, n)
  {
    hide WithWindow, ApplyAll, ReadConflicts, Touched, Newest, Crowded, Hits, ReturnsFirstFree, WindowSize;
    ghost var before := tx.Model();
    var start, window;
    start, window, a := OpenWindow(tx);
    ghost var opening := a;
    var i := 0;
    while i < |randoms|
      invariant 0 <= i <= |randoms| && |a.draws| == i
      invariant a == opening.(draws := a.draws)
      invariant start == a.Start() && window == WindowSize(start)
      invariant forall j | 0 <= j < i :: Hits(randoms[j], start, window, a.draws[j])
      invariant Searching(before, a, tx.Model())
    {
      var candidate := Offset(randoms[i], window) + start;
      OffsetHits(randoms[i], start, window);
      var free;
      free, a := Draw(tx, candidate, before, a);
      if free {
        FreeComesFirst(View(before), a, randoms, Some(candidate));
        return Some(candidate), a;
      }
      i := i + 1;
    }
    FreeComesFirst(View(before), a, randoms, None);
    n := None;
  }

}
