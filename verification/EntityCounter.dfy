/**
 Counting the rows of a subspace: the one-shot loop, and the restartable counter whose
 workers read the saved progress in one transaction and advance it in another. Any
 number of workers, of any job versions, interleave; a worker may stop for ever between
 its transactions, and its second transaction may run again after a failed commit.
 */
module EntityCounter {
  import opened Wrappers

  type Key = int

  const BATCH_SIZE := 1024

  // ---------- the rows ----------

  predicate Ascending(keys: seq<Key>) {
    forall i, j | 0 <= i < j < |keys| :: keys[i] < keys[j]
  }

  /** How many rows a cursor has passed; no cursor stands before the first row. */
  function Passed(keys: seq<Key>, after: Option<Key>): (n: nat)
    ensures n <= |keys|
  {
    if after == None || keys == [] || keys[0] > after.value then 0 else 1 + Passed(keys[1..], after)
  }

  function Batch(keys: seq<Key>, after: Option<Key>, limit: nat): (batch: seq<Key>)
    ensures |batch| <= limit
  {
    var from := Passed(keys, after);
    keys[from..if from + limit <= |keys| then from + limit else |keys|]
  }

  /** `Passed` splits the rows at the cursor. */
  lemma {:induction false} PassedSplits(keys: seq<Key>, after: Option<Key>)
    requires Ascending(keys)
    ensures forall i | 0 <= i < |keys| :: i < Passed(keys, after) <==> after.Some? && keys[i] <= after.value
  {
    if after.Some? && keys != [] {
      var rest := keys[1..];
      if keys[0] <= after.value {
        PassedSplits(rest, after);
        assert Passed(keys, after) == 1 + Passed(rest, after);
      } else {
        assert Passed(keys, after) == 0;
      }
      forall i | 0 <= i < |keys|
        ensures i < Passed(keys, after) <==> after.Some? && keys[i] <= after.value
      {
        if i > 0 {
          assert keys[0] < keys[i] && keys[i] == rest[i - 1];
          assert keys[0] <= after.value ==> (i - 1 < Passed(rest, after) <==> rest[i - 1] <= after.value);
        }
      }
    } else {
      assert Passed(keys, after) == 0;
    }
  }

  lemma PassedAt(keys: seq<Key>, i: nat)
    requires Ascending(keys) && i < |keys|
    ensures Passed(keys, Some(keys[i])) == i + 1
  {
    PassedSplits(keys, Some(keys[i]));
    var n := Passed(keys, Some(keys[i]));
    assert i < n;
    if i + 1 < |keys| {
      assert !(i + 1 < n);
    }
  }

  /** The rows a cursor has passed, as a set, are as many as `Passed` says. */
  lemma PassedCounts(keys: seq<Key>, after: Option<Key>)
    requires Ascending(keys)
    ensures |set k | k in keys && after.Some? && k <= after.value| == Passed(keys, after)
  {
    PassedSplits(keys, after);
    var n := Passed(keys, after);
    DistinctElements(keys[..n]);
    assert (set k | k in keys && after.Some? && k <= after.value) == set k | k in keys[..n];
  }

  lemma {:induction false} DistinctElements(s: seq<Key>)
    requires Ascending(s)
    ensures |set k | k in s| == |s|
  {
    if s != [] {
      var n := |s| - 1;
      DistinctElements(s[..n]);
      assert (set k | k in s) == (set k | k in s[..n]) + {s[n]};
      assert s[n] !in s[..n];
    }
  }

  /** Every read sees the same rows. */
  predicate Unchanging(views: seq<seq<Key>>) {
    forall i, j | 0 <= i < |views| && 0 <= j < |views| :: views[i] == views[j]
  }

  /** Reading on behind a cursor skips no row that is there, and repeats none. */
  lemma BatchContinues(keys: seq<Key>, after: Option<Key>, limit: nat)
    requires Ascending(keys)
    ensures var batch := Batch(keys, after, limit);
      && Ascending(batch)
      && (forall k | k in batch :: k in keys && (after.Some? ==> k > after.value))
      && (forall k | k in keys && (after.Some? ==> k > after.value) && (batch != [] ==> k <= batch[|batch| - 1]) ::
            k in batch || limit == 0)
  {
    PassedSplits(keys, after);
    hide Passed;
    var from, batch := Passed(keys, after), Batch(keys, after, limit);
    forall k | k in keys && (after.Some? ==> k > after.value) && (batch != [] ==> k <= batch[|batch| - 1]) && limit > 0
      ensures k in batch
    {
      var i :| 0 <= i < |keys| && keys[i] == k;
      assert from <= i;
      assert batch == [] ==> from == |keys|;
      assert i < from + |batch|;
      assert batch[i - from] == k;
    }
  }

  lemma AppendAscends(a: seq<Key>, b: seq<Key>)
    requires Ascending(a) && Ascending(b) && (a != [] ==> forall k | k in b :: k > a[|a| - 1])
    ensures Ascending(a + b)
  {
    forall i, j | 0 <= i < j < |a + b|
      ensures (a + b)[i] < (a + b)[j]
    {
      if i < |a| <= j {
        assert b[j - |a|] in b;
      }
    }
  }

  /**
   The one-shot loop, `views[i]` being the rows its `i`-th transaction sees; it is `done`
   unless those views end first. The rows it counts are distinct, were all there when
   read, and leave out none that was there all the time. Over unchanging rows it gets
   done, and the result is their number.
   */
  method FindEntitiesCount(views: seq<seq<Key>>) returns (res: nat, done: bool, ghost counted: seq<Key>)
    requires forall i | 0 <= i < |views| :: Ascending(views[i])
    ensures res == |counted| && Ascending(counted)
    ensures forall k | k in counted :: exists i :: 0 <= i < |views| && k in views[i]
    ensures done ==> forall k | (forall i | 0 <= i < |views| :: k in views[i]) :: k in counted
    ensures views != [] && Unchanging(views) && |views| > |views[0]| ==> done && counted == views[0]
  {
    var after: Option<Key> := None;
    res, done, counted := 0, false, [];
    for n := 0 to |views|
      invariant res == |counted| && Ascending(counted) && res >= n
      invariant after == if counted == [] then None else Some(counted[|counted| - 1])
      invariant forall k | k in counted :: exists i :: 0 <= i < |views| && k in views[i]
      invariant forall k | after.Some? && k <= after.value && (forall i | 0 <= i < |views| :: k in views[i]) ::
        k in counted
    {
      var data := Batch(views[n], after, BATCH_SIZE);
      BatchContinues(views[n], after, BATCH_SIZE);
      if |data| == 0 {
        done := true;
        break;
      }
      AppendAscends(counted, data);
      res := res + |data|;
      after := Some(data[|data| - 1]);
      counted := counted + data;
    }
    if views != [] && Unchanging(views) && |views| > |views[0]| {
      SameRows(counted, views[0], done);
    }
  }

  /** Distinct rows out of `keys` are no more than `keys`, and all of them in order if none is left out. */
  lemma SameRows(counted: seq<Key>, keys: seq<Key>, all: bool)
    requires Ascending(counted) && Ascending(keys) && forall k | k in counted :: k in keys
    requires all ==> forall k | k in keys :: k in counted
    ensures |counted| <= |keys|
    ensures all ==> counted == keys
  {
    DistinctElements(counted);
    DistinctElements(keys);
    Subset((set k | k in counted), (set k | k in keys));
    if all {
      assert (set k | k in counted) == (set k | k in keys);
      SameElements(counted, keys);
    }
  }

  lemma {:induction false} Subset(a: set<Key>, b: set<Key>)
    requires a <= b
    ensures |a| <= |b|
  {
    assert b == a + (b - a);
  }

  lemma {:induction false} SameElements(a: seq<Key>, b: seq<Key>)
    requires Ascending(a) && Ascending(b) && |a| == |b| && forall k :: k in a <==> k in b
    ensures a == b
  {
    if a != [] {
      var n := |a| - 1;
      LastIsGreatest(a, b);
      LastIsGreatest(b, a);
      WithoutLast(a);
      WithoutLast(b);
      hide Ascending;
      assert a[n] == b[n];
      forall k
        ensures k in a[..n] <==> k in b[..n]
      {
        assert k in a <==> k in b;
      }
      SameElements(a[..n], b[..n]);
      assert a == a[..n] + [a[n]] && b == b[..n] + [b[n]];
    }
  }

  lemma LastIsGreatest(a: seq<Key>, b: seq<Key>)
    requires Ascending(b) && a != [] && b != [] && forall k | k in a :: k in b
    ensures a[|a| - 1] <= b[|b| - 1]
  {
    assert a[|a| - 1] in a;
    var j :| 0 <= j < |b| && b[j] == a[|a| - 1];
  }

  lemma WithoutLast(a: seq<Key>)
    requires Ascending(a) && a != []
    ensures Ascending(a[..|a| - 1])
    ensures forall k :: k in a[..|a| - 1] <==> k in a && k != a[|a| - 1]
  {
  }

  // ---------- the saved progress and its workers ----------

  datatype Saved = Saved(lastId: Option<Key>, version: Option<nat>, count: nat, versionCode: nat)

  /** What a worker remembers between its transactions. */
  datatype Worker = Worker(version: nat, batchSize: nat, existing: Option<Saved>, first: bool, after: Option<Key>)

  predicate Stale(saved: Saved, version: nat) {
    saved.version.None? || saved.version.value < version
  }

  /** The first transaction. */
  function Begin(saved: Option<Saved>, version: nat, batchSize: nat): Worker {
    var first := saved.None? || Stale(saved.value, version);
    Worker(version, batchSize, saved, first, if first then None else saved.value.lastId)
  }

  /** What the second transaction leaves as the saved progress, if it commits. */
  function Advanced(keys: seq<Key>, w: Worker, saved: Option<Saved>): Option<Saved> {
    var res := Batch(keys, w.after, w.batchSize);
    if res == [] then saved
    else
      var after := Some(res[|res| - 1]);
      if w.existing.Some? && saved.Some? then
        if w.existing.value.versionCode == saved.value.versionCode then
          var count := if w.first then |res| else saved.value.count + |res|;
          Some(Saved(after, Some(w.version), count, saved.value.versionCode + 1))
        else saved
      else if saved.None? then Some(Saved(after, Some(w.version), |res|, 0))
      else saved
  }

  /** Running the body moves the worker's cursor, even when the commit fails. */
  function Moved(keys: seq<Key>, w: Worker): Worker {
    var res := Batch(keys, w.after, w.batchSize);
    if res == [] then w else w.(after := Some(res[|res| - 1]))
  }

  class CounterStore {
    var saved: Option<Saved>

    constructor (saved: Option<Saved>)
      ensures this.saved == saved
    {
      this.saved := saved;
    }
  }

  class CounterWorker {
    const version: nat
    const batchSize: nat
    var existing: Option<Saved>
    var first: bool
    var after: Option<Key>

    ghost function Model(): Worker
      reads this
    {
      Worker(version, batchSize, existing, first, after)
    }

    constructor (version: nat, batchSize: nat)
      ensures this.version == version && this.batchSize == batchSize
    {
      this.version, this.batchSize := version, batchSize;
      existing, first, after := None, false, None;
    }

    method ReadProgress(db: CounterStore)
      modifies this
      ensures Model() == Begin(db.saved, version, batchSize)
    {
      existing := db.saved;
      first := false;
      after := None;
      if existing.Some? {
        if existing.value.version == None || existing.value.version.value < version {
          after := None;
          first := true;
        } else {
          after := existing.value.lastId;
        }
      } else {
        after := None;
        first := true;
      }
    }

    /** The second transaction, when its commit succeeds. */
    method Advance(db: CounterStore, keys: seq<Key>)
      modifies this, db
      ensures db.saved == Advanced(keys, old(Model()), old(db.saved))
      ensures Model() == Moved(keys, old(Model()))
    {
      var res := Batch(keys, after, batchSize);
      if |res| == 0 {
        return;
      }
      after := Some(res[|res| - 1]);
      var latest := db.saved;
      if existing.Some? && latest.Some? {
        if existing.value.versionCode == latest.value.versionCode {
          var count := if first then |res| else latest.value.count + |res|;
          db.saved := Some(Saved(after, Some(version), count, latest.value.versionCode + 1));
        }
      } else if latest.None? {
        db.saved := Some(Saved(after, Some(version), |res|, 0));
      }
    }
  }

  // ---------- runs ----------

  datatype System = System(saved: Option<Saved>, workers: seq<Worker>)

  /** A worker starts; commits its second transaction; or has that transaction fail after running its body. */
  datatype Step = Start(version: nat, batchSize: nat) | Commit(i: nat) | Fail(i: nat)

  function Do(keys: seq<Key>, s: System, step: Step): System {
    match step
    case Start(version, batchSize) => s.(workers := s.workers + [Begin(s.saved, version, batchSize)])
    case Commit(i) =>
      if i < |s.workers| then
        System(Advanced(keys, s.workers[i], s.saved), s.workers[i := Moved(keys, s.workers[i])])
      else s
    case Fail(i) =>
      if i < |s.workers| then s.(workers := s.workers[i := Moved(keys, s.workers[i])]) else s
  }

  /** The counter was written after the worker read it. */
  predicate Overtaken(w: Worker, saved: Option<Saved>) {
    saved.Some? && (w.existing.None? || w.existing.value.versionCode < saved.value.versionCode)
  }

  function Exec(keys: seq<Key>, initial: Option<Saved>, steps: seq<Step>): System {
    if steps == [] then System(initial, [])
    else Do(keys, Exec(keys, initial, steps[..|steps| - 1]), steps[|steps| - 1])
  }

  /** All jobs are newer than what was found at first. */
  predicate NewJobs(initial: Option<Saved>, steps: seq<Step>) {
    forall i | 0 <= i < |steps| && steps[i].Start? && initial.Some? ::
      initial.value.version.Some? ==> initial.value.version.value < steps[i].version
  }

  // ---------- the count is exact ----------

  /** The saved count is the number of rows up to the saved cursor, which is a row. */
  ghost predicate Exact(keys: seq<Key>, saved: Saved) {
    saved.lastId.Some? && saved.lastId.value in keys && saved.count == Passed(keys, saved.lastId)
  }

  /** Still what was there before the jobs, or exact. */
  ghost predicate Good(keys: seq<Key>, initial: Option<Saved>, saved: Option<Saved>) {
    saved == initial || (saved.Some? && Exact(keys, saved.value))
  }

  /** A row past `other`: where the runs of a body can leave its cursor. */
  predicate IsLater(keys: seq<Key>, after: Option<Key>, other: Option<Key>) {
    after.Some? && after.value in keys && Passed(keys, after) > Passed(keys, other)
  }

  /** A worker is as its first transaction left it, except that its cursor may have moved on. */
  ghost predicate Begun(keys: seq<Key>, w: Worker) {
    var chosen := Begin(w.existing, w.version, w.batchSize);
    w == chosen.(after := w.after) && (w.after == chosen.after || IsLater(keys, w.after, chosen.after))
  }

  ghost predicate WorkerOk(keys: seq<Key>, initial: Option<Saved>, saved: Option<Saved>, w: Worker) {
    && Good(keys, initial, w.existing)
    && (initial.Some? ==> Stale(initial.value, w.version))
    && Begun(keys, w)
    && (Overtaken(w, saved) || w.existing == saved)
  }

  ghost predicate Inv(keys: seq<Key>, initial: Option<Saved>, s: System) {
    && Good(keys, initial, s.saved)
    && forall w | w in s.workers :: WorkerOk(keys, initial, s.saved, w)
  }

  lemma BatchEnds(keys: seq<Key>, after: Option<Key>, limit: nat)
    requires Ascending(keys) && Batch(keys, after, limit) != []
    ensures var res := Batch(keys, after, limit);
      res[|res| - 1] in keys && Passed(keys, Some(res[|res| - 1])) == Passed(keys, after) + |res|
  {
    var res := Batch(keys, after, limit);
    PassedAt(keys, Passed(keys, after) + |res| - 1);
  }

  /**
   A commit does no harm if its worker was overtaken, finds no rows, or still has the
   cursor its first transaction chose.
   */
  predicate SafeCommit(keys: seq<Key>, w: Worker, saved: Option<Saved>) {
    || Overtaken(w, saved)
    || Batch(keys, w.after, w.batchSize) == []
    || w.after == Begin(saved, w.version, w.batchSize).after
  }

  /** A worker that was overtaken changes nothing; one that was not leaves an exact count, if its commit is safe. */
  lemma AdvanceIsGood(keys: seq<Key>, initial: Option<Saved>, saved: Option<Saved>, w: Worker)
    requires Ascending(keys) && Good(keys, initial, saved) && WorkerOk(keys, initial, saved, w)
    requires SafeCommit(keys, w, saved)
    ensures var next := Advanced(keys, w, saved);
      next == saved || (Overtaken(w, next) && Exact(keys, next.value))
  {
    hide Passed, Ascending, IsLater;
    if Batch(keys, w.after, w.batchSize) != [] {
      BatchEnds(keys, w.after, w.batchSize);
      assert Passed(keys, None) == 0 by { NothingPassed(keys); }
    }
  }

  lemma NothingPassed(keys: seq<Key>)
    ensures Passed(keys, None) == 0
  {
  }

  /**
   A body that runs again after a failed commit starts from the cursor its failed run
   left. If the counter was not written meanwhile, the new count is exact iff the cursor
   still is the one the first transaction chose.
   */
  lemma ExactIffCursorUnmoved(keys: seq<Key>, saved: Option<Saved>, w: Worker)
    requires Ascending(keys) && (saved.Some? && !Stale(saved.value, w.version) ==> Exact(keys, saved.value))
    requires w.existing == saved && Begun(keys, w)
    requires Batch(keys, w.after, w.batchSize) != []
    ensures Advanced(keys, w, saved).Some?
    ensures Exact(keys, Advanced(keys, w, saved).value) <==> w.after == Begin(saved, w.version, w.batchSize).after
  {
    hide Passed, Ascending;
    NothingPassed(keys);
    BatchEnds(keys, w.after, w.batchSize);
  }

  /** A commit that is not safe leaves a count that is wrong. */
  lemma UnsafeCommitMiscounts(keys: seq<Key>, initial: Option<Saved>, saved: Option<Saved>, w: Worker)
    requires Ascending(keys) && Good(keys, initial, saved) && WorkerOk(keys, initial, saved, w)
    requires !SafeCommit(keys, w, saved)
    ensures !Good(keys, initial, Advanced(keys, w, saved))
  {
    hide Ascending, Passed;
    ExactIffCursorUnmoved(keys, saved, w);
  }

  lemma StaysOvertaken(keys: seq<Key>, w: Worker, saved: Option<Saved>, other: Worker)
    ensures Overtaken(w, saved) ==> Overtaken(w, Advanced(keys, other, saved))
    ensures w.existing == saved && Advanced(keys, other, saved) != saved ==> Overtaken(w, Advanced(keys, other, saved))
  {
  }

  /** What a step must satisfy for the count to stay exact. */
  predicate SafeStep(keys: seq<Key>, s: System, step: Step) {
    step.Commit? && step.i < |s.workers| ==> SafeCommit(keys, s.workers[step.i], s.saved)
  }

  /** Running its body leaves a worker fine, and overtaken if it was. */
  lemma MovedIsOk(keys: seq<Key>, initial: Option<Saved>, saved: Option<Saved>, w: Worker)
    requires Ascending(keys) && WorkerOk(keys, initial, saved, w)
    ensures WorkerOk(keys, initial, saved, Moved(keys, w))
  {
    hide Passed, Ascending;
    if Batch(keys, w.after, w.batchSize) != [] {
      BatchEnds(keys, w.after, w.batchSize);
    }
  }

  /** A commit leaves every worker fine: whoever had read the counter before is overtaken if it changed. */
  lemma WorkersAfterCommit(keys: seq<Key>, initial: Option<Saved>, saved: Option<Saved>, w: Worker, other: Worker)
    requires WorkerOk(keys, initial, saved, w)
    ensures WorkerOk(keys, initial, Advanced(keys, other, saved), w)
  {
    hide Advanced, Begun, Good;
    StaysOvertaken(keys, w, saved, other);
  }

  lemma StepKeepsInv(keys: seq<Key>, initial: Option<Saved>, s: System, step: Step)
    requires Ascending(keys) && Inv(keys, initial, s) && NewJobs(initial, [step]) && SafeStep(keys, s, step)
    ensures Inv(keys, initial, Do(keys, s, step))
  {
    hide Ascending, Exact, Batch, Passed;
    var t := Do(keys, s, step);
    match step
    case Start(version, batchSize) =>
      assert [step][0].Start?;
      assert forall w | w in t.workers :: w in s.workers || w == Begin(s.saved, version, batchSize);
      assert WorkerOk(keys, initial, t.saved, Begin(s.saved, version, batchSize));
    case Fail(i) =>
      if i < |s.workers| {
        assert forall w | w in t.workers :: w in s.workers || w == Moved(keys, s.workers[i]);
        MovedIsOk(keys, initial, s.saved, s.workers[i]);
      }
    case Commit(i) =>
      if i < |s.workers| {
        hide Advanced, WorkerOk;
        var other := s.workers[i];
        AdvanceIsGood(keys, initial, s.saved, other);
        MovedIsOk(keys, initial, s.saved, other);
        forall w | w in t.workers
          ensures WorkerOk(keys, initial, t.saved, w)
        {
          assert w in s.workers || w == Moved(keys, other);
          WorkersAfterCommit(keys, initial, s.saved, w, other);
        }
      }
  }

  /** Every commit of the run was safe when it was made. */
  predicate Safe(keys: seq<Key>, initial: Option<Saved>, steps: seq<Step>) {
    steps != [] ==>
      var n := |steps| - 1;
      Safe(keys, initial, steps[..n]) && SafeStep(keys, Exec(keys, initial, steps[..n]), steps[n])
  }

  /** At every moment of the run the saved progress was what was found at first, or exact. */
  ghost predicate GoodThroughout(keys: seq<Key>, initial: Option<Saved>, steps: seq<Step>) {
    && Good(keys, initial, Exec(keys, initial, steps).saved)
    && (steps != [] ==> GoodThroughout(keys, initial, steps[..|steps| - 1]))
  }

  lemma JobsBefore(initial: Option<Saved>, steps: seq<Step>)
    requires NewJobs(initial, steps) && steps != []
    ensures NewJobs(initial, steps[..|steps| - 1]) && NewJobs(initial, [steps[|steps| - 1]])
  {
  }

  /**
   Never double counted, never skipped: in every run of safe commits the saved progress
   is what was found at first until some job writes it, and from then on its count is
   exactly the number of rows up to its cursor.
   */
  lemma {:induction false} CountIsExact(keys: seq<Key>, initial: Option<Saved>, steps: seq<Step>)
    requires Ascending(keys) && NewJobs(initial, steps) && Safe(keys, initial, steps)
    ensures Inv(keys, initial, Exec(keys, initial, steps))
  {
    if steps != [] {
      var n := |steps| - 1;
      JobsBefore(initial, steps);
      CountIsExact(keys, initial, steps[..n]);
      hide Inv, Do, Ascending, NewJobs, SafeStep;
      StepKeepsInv(keys, initial, Exec(keys, initial, steps[..n]), steps[n]);
    }
  }

  /** Over all runs: the saved count was right at every moment iff every commit was safe. */
  lemma {:induction false} CountIsExactIffSafe(keys: seq<Key>, initial: Option<Saved>, steps: seq<Step>)
    requires Ascending(keys) && NewJobs(initial, steps)
    ensures GoodThroughout(keys, initial, steps) <==> Safe(keys, initial, steps)
  {
    if steps != [] {
      var n := |steps| - 1;
      JobsBefore(initial, steps);
      CountIsExactIffSafe(keys, initial, steps[..n]);
      hide Ascending, NewJobs, Good, SafeCommit;
      if Safe(keys, initial, steps[..n]) {
        var s := Exec(keys, initial, steps[..n]);
        CountIsExact(keys, initial, steps[..n]);
        if SafeStep(keys, s, steps[n]) {
          CountIsExact(keys, initial, steps);
        } else {
          UnsafeCommitMiscounts(keys, initial, s.saved, s.workers[steps[n].i]);
        }
      }
    }
  }

  /** Commits that fail only because another one was made meanwhile are harmless. */
  lemma {:induction false} ConflictsAreSafe(keys: seq<Key>, initial: Option<Saved>, steps: seq<Step>)
    requires Ascending(keys) && NewJobs(initial, steps)
    requires forall n | 0 <= n < |steps| && steps[n].Fail? ::
      var s := Exec(keys, initial, steps[..n]);
      steps[n].i < |s.workers| ==> Overtaken(s.workers[steps[n].i], s.saved)
    ensures Safe(keys, initial, steps)
    ensures var s := Exec(keys, initial, steps);
      forall w | w in s.workers :: Overtaken(w, s.saved) || w == Begin(s.saved, w.version, w.batchSize)
  {
    if steps != [] {
      var n := |steps| - 1;
      var before := steps[..n];
      forall m | 0 <= m < n
        ensures before[m] == steps[m] && before[..m] == steps[..m]
      {
      }
      JobsBefore(initial, steps);
      ConflictsAreSafe(keys, initial, before);
      ConflictStep(keys, Exec(keys, initial, before), steps[n]);
    }
  }

  lemma ConflictStep(keys: seq<Key>, s: System, step: Step)
    requires forall w | w in s.workers :: Overtaken(w, s.saved) || w == Begin(s.saved, w.version, w.batchSize)
    requires step.Fail? && step.i < |s.workers| ==> Overtaken(s.workers[step.i], s.saved)
    ensures SafeStep(keys, s, step)
    ensures var t := Do(keys, s, step);
      forall w | w in t.workers :: Overtaken(w, t.saved) || w == Begin(t.saved, w.version, w.batchSize)
  {
    hide Batch;
    var t := Do(keys, s, step);
    forall w | w in t.workers
      ensures Overtaken(w, t.saved) || w == Begin(t.saved, w.version, w.batchSize)
    {
      match step
      case Start(version, batchSize) =>
        assert w in s.workers || w == Begin(s.saved, version, batchSize);
      case Fail(i) =>
        assert w in s.workers || w == Moved(keys, s.workers[i]);
      case Commit(i) =>
        if i < |s.workers| {
          var other := s.workers[i];
          StaysOvertaken(keys, w, s.saved, other);
          StaysOvertaken(keys, other, s.saved, other);
          assert w in s.workers || w == Moved(keys, other);
        }
    }
  }

  /** A pass that some job started and that has no rows left shows the true number of rows. */
  lemma FinishedPassIsTrue(keys: seq<Key>, initial: Option<Saved>, steps: seq<Step>)
    requires Ascending(keys) && NewJobs(initial, steps) && Safe(keys, initial, steps)
    requires var saved := Exec(keys, initial, steps).saved; saved != initial && saved.Some?
    ensures var saved := Exec(keys, initial, steps).saved.value;
      saved.count == |set k | k in keys && saved.lastId.Some? && k <= saved.lastId.value|
    ensures var saved := Exec(keys, initial, steps).saved.value;
      (forall k | k in keys :: saved.lastId.Some? && k <= saved.lastId.value) <==> saved.count == |keys|
  {
    CountIsExact(keys, initial, steps);
    var saved := Exec(keys, initial, steps).saved.value;
    hide Exec;
    PassedCounts(keys, saved.lastId);
    PassedSplits(keys, saved.lastId);
    if saved.count == |keys| {
      forall k | k in keys
        ensures k <= saved.lastId.value
      {
        var i :| 0 <= i < |keys| && keys[i] == k;
      }
    } else {
      assert keys[saved.count] in keys && keys[saved.count] > saved.lastId.value;
    }
  }

  // ---------- progress ----------

  /** The progress after one undisturbed worker, and after `n` of them in a row. */
  function Undisturbed(keys: seq<Key>, saved: Option<Saved>, version: nat, batchSize: nat): Option<Saved> {
    Advanced(keys, Begin(saved, version, batchSize), saved)
  }

  function Pass(keys: seq<Key>, saved: Option<Saved>, version: nat, batchSize: nat, n: nat): Option<Saved> {
    if n == 0 then saved else Undisturbed(keys, Pass(keys, saved, version, batchSize, n - 1), version, batchSize)
  }

  function AtMost(n: nat, size: nat): nat {
    if n <= size then n else size
  }

  lemma OneMoreBatch(keys: seq<Key>, saved: Option<Saved>, version: nat, batchSize: nat)
    requires Ascending(keys) && keys != [] && batchSize > 0
    requires saved.Some? && !Stale(saved.value, version) ==>
      Exact(keys, saved.value) && saved.value.version == Some(version)
    ensures var before := if saved.None? || Stale(saved.value, version) then 0 else saved.value.count;
      var next := Undisturbed(keys, saved, version, batchSize);
      next.Some? && Exact(keys, next.value) && next.value.version == Some(version) &&
      next.value.count == AtMost(before + batchSize, |keys|)
  {
    hide Passed, Ascending;
    NothingPassed(keys);
    var w := Begin(saved, version, batchSize);
    if Batch(keys, w.after, batchSize) != [] {
      BatchEnds(keys, w.after, batchSize);
    }
  }

  /** Undisturbed workers count one batch each, up to the true size, from whatever was found at first. */
  lemma {:induction false} PassFinishes(keys: seq<Key>, initial: Option<Saved>, version: nat, batchSize: nat, n: nat)
    requires Ascending(keys) && keys != [] && batchSize > 0 && n > 0
    requires initial.Some? && initial.value.version.Some? ==> initial.value.version.value < version
    ensures var saved := Pass(keys, initial, version, batchSize, n);
      saved.Some? && Exact(keys, saved.value) && saved.value.version == Some(version) &&
      saved.value.count == AtMost(n * batchSize, |keys|)
  {
    hide Exact, Undisturbed;
    var before := Pass(keys, initial, version, batchSize, n - 1);
    if n == 1 {
      OneMoreBatch(keys, initial, version, batchSize);
    } else {
      PassFinishes(keys, initial, version, batchSize, n - 1);
      OneMoreBatch(keys, before, version, batchSize);
      OneMoreTime(n, batchSize);
    }
  }

  lemma OneMoreTime(n: nat, batchSize: nat)
    requires n > 0
    ensures n * batchSize == (n - 1) * batchSize + batchSize
  {
  }

  // ---------- where the count fails ----------

  /** Two rows, batches of one, a first commit that fails on its own: the pass ends with a count of one. */
  lemma RetriedBodySkipsABatch()
    ensures var keys := [1, 2];
      var s := Do(keys, Do(keys, Do(keys, System(None, []), Start(1, 1)), Fail(0)), Commit(0));
      s.saved == Some(Saved(Some(2), Some(1), 1, 0)) && Batch(keys, s.saved.value.lastId, 1) == []
  {
    var keys := [1, 2];
    var w := Begin(None, 1, 1);
    assert Batch(keys, None, 1) == [1];
    assert keys[1..] == [2];
    assert Passed([2], Some(1)) == 0;
    assert Batch(keys, Some(1), 1) == [2];
    assert Passed([2], Some(2)) == 1;
    assert Batch(keys, Some(2), 1) == [];
  }

  /** With no rows a stale count is never replaced. */
  lemma {:induction false} EmptyNeverStarts(initial: Option<Saved>, steps: seq<Step>)
    ensures Exec([], initial, steps).saved == initial
  {
    if steps != [] {
      EmptyNeverStarts(initial, steps[..|steps| - 1]);
    }
  }
}
