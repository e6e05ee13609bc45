/**
 How full the newest window can be. In every run, abandoned attempts or not, its marks
 are at most its counter and none lies beyond it, until the counter wraps. So whenever the
 search loop starts more than half of the candidates are free.
 */
module AllocatorMarks {
  import opened AllocatorStore
  import opened HighContentionAllocator
  import opened AllocatorRuns
  import opened AllocatorWindows

  /** The marks of the newest window are counted, by no more than `made` attempts, and none lies beyond it. */
  ghost predicate Covered(s: Store, made: nat) {
    && |RecentFrom(s.recent, Newest(s))| <= Count(s.counters, Newest(s)) <= made
    && forall c | c in s.recent :: c < Newest(s) + WindowSize(Newest(s))
  }

  /** An attempt in a window that `y` has already left behind does not touch the newest window. */
  lemma CoveredBehind(y: Store, made: nat, a: Attempt)
    requires Covered(y, made) && a.Start() + WindowSize(a.Start()) <= Newest(y)
    requires forall d | d in a.draws :: d < a.Start() + WindowSize(a.Start())
    ensures Covered(After(y, a), made + 1)
  {
    NewestAfter(y, a);
    CountAfterOpening(y, a);
    assert RecentFrom(After(y, a).recent, Newest(y)) == RecentFrom(y.recent, Newest(y));
  }

  /** Of the draws of an attempt, all but the last were marked in `y` already, if `y` has not left its window. */
  lemma OneNewMark(x: Store, y: Store, a: Attempt, d: nat)
    requires Later(x, y) && Legal(x, a) && Newest(y) <= a.Start() && d in a.draws && d != Last(a)
    ensures d in y.recent
  {
    RejectedWereMarked(x, a);
    RecentAfter(x, a);
  }

  lemma AtMostOneMore(before: set<nat>, after: set<nat>, n: nat)
    requires after <= before + {n}
    ensures |after| <= |before| + 1
  {
    assert |after| + |(before + {n}) - after| == |before + {n}| by {
      assert after + ((before + {n}) - after) == before + {n};
    }
  }

  /** One mark and one count more than before. */
  lemma CoveredByOneMore(s: Store, before: set<nat>, n: nat, count: nat, made: nat)
    requires RecentFrom(s.recent, Newest(s)) <= before + {n} && |before| <= count <= made
    requires Count(s.counters, Newest(s)) == count + 1
    requires forall c | c in s.recent :: c < Newest(s) + WindowSize(Newest(s))
    ensures Covered(s, made + 1)
  {
    hide RecentFrom, Count, WindowSize, Newest;
    AtMostOneMore(before, RecentFrom(s.recent, Newest(s)), n);
  }

  lemma OneNewMarkInside(x: Store, y: Store, a: Attempt)
    requires Later(x, y) && Legal(x, a) && a.Start() == Newest(y)
    ensures RecentFrom(After(y, a).recent, Newest(y)) <= RecentFrom(y.recent, Newest(y)) + {Last(a)}
  {
    hide Later, Legal, Newest;
    forall d | d in a.draws && d != Last(a)
      ensures d in y.recent
    {
      OneNewMark(x, y, a, d);
    }
    RecentAfter(y, a);
  }

  /** An attempt in the newest window of `y` adds at most one mark, and one count. */
  lemma CoveredInside(x: Store, y: Store, made: nat, a: Attempt)
    requires Later(x, y) && Legal(x, a) && made + 1 < COUNTER_MODULUS
    requires Covered(y, made) && a.Start() == Newest(y)
    ensures Covered(After(y, a), made + 1)
  {
    OneNewMarkInside(x, y, a);
    assert forall d | d in a.draws :: d < a.Start() + WindowSize(a.Start());
    assert a.advanced ==> a.from < a.Start();
    hide After, WithWindow, Newest, Chooses, Later, Legal, RecentFrom, WindowSize, Count;
    RecentAfter(y, a);
    NewestAfter(y, a);
    CountedOnce(y, a);
    CoveredByOneMore(After(y, a), RecentFrom(y.recent, Newest(y)), Last(a), Count(y.counters, Newest(y)), made);
  }

  lemma OneNewMarkAhead(x: Store, y: Store, made: nat, a: Attempt)
    requires Later(x, y) && Legal(x, a) && Covered(y, made) && a.advanced && a.from == Newest(y)
    ensures forall c | c in After(y, a).recent :: c == Last(a)
  {
    assert forall c | c in y.recent :: c < a.Start();
    hide Later, Legal, Newest, RecentFrom;
    RecentAfter(y, a);
    forall d | d in a.draws
      ensures d == Last(a)
    {
      if d != Last(a) {
        OneNewMark(x, y, a, d);
      }
    }
  }

  /** An attempt that moves `y` to its next window starts it with one mark and one count. */
  lemma CoveredAhead(x: Store, y: Store, made: nat, a: Attempt)
    requires Later(x, y) && Legal(x, a)
    requires Covered(y, made) && a.advanced && a.from == Newest(y)
    ensures Covered(After(y, a), made + 1)
  {
    OneNewMarkAhead(x, y, made, a);
    assert Last(a) in a.draws && Last(a) < a.Start() + WindowSize(a.Start());
    assert a.from < a.Start() && a.Start() !in y.counters;
    assert Count(y.counters, a.Start()) == 0;
    hide After, Legal, Later, WindowSize, Newest, Covered, Count;
    NewestAfter(y, a);
    CountedOnce(y, a);
    assert RecentFrom(After(y, a).recent, a.Start()) <= {} + {Last(a)};
    CoveredByOneMore(After(y, a), {}, Last(a), 0, made);
  }

  lemma CoveredStep(x: Store, y: Store, made: nat, a: Attempt)
    requires Later(x, y) && Legal(x, a) && ChainKeys(x) && ChainKeys(y) && made + 1 < COUNTER_MODULUS
    requires Covered(y, made)
    ensures Covered(After(y, a), made + 1)
  {
    hide After, WithWindow, Covered;
    StartOnChain(x, a);
    NewestOnChain(y);
    if a.Start() < Newest(y) {
      WindowsDisjoint(a.Start(), Newest(y));
      CoveredBehind(y, made, a);
    } else if a.Start() == Newest(y) {
      CoveredInside(x, y, made, a);
    } else {
      if a.from < Newest(y) {
        WindowsDisjoint(a.from, Newest(y));
      }
      CoveredAhead(x, y, made, a);
    }
  }

  lemma {:induction false} CoveredReplay(x: Store, y: Store, made: nat, attempts: seq<Attempt>)
    requires Later(x, y) && LegalAll(x, attempts) && ChainKeys(x) && ChainKeys(y)
    requires Covered(y, made) && made + |attempts| < COUNTER_MODULUS
    ensures Covered(Replay(y, attempts), made + |attempts|)
  {
    hide Covered, After, Chooses, ChainKeys, Later;
    if attempts != [] {
      var m := |attempts| - 1;
      CoveredReplay(x, y, made, attempts[..m]);
      LaterReplay(x, y, attempts[..m]);
      ChainReplay(x, y, attempts[..m]);
      CoveredStep(Replay(x, attempts[..m]), Replay(y, attempts[..m]), made + m, attempts[m]);
    }
  }

  // ---------- in every run ----------

  /** How many attempts the commits hold. */
  function Made(commits: seq<Commit>): nat {
    if commits == [] then 0 else Made(commits[..|commits| - 1]) + |commits[|commits| - 1].attempts|
  }

  ghost predicate CoveredInv(db: Db) {
    && (Made(db.commits) < COUNTER_MODULUS ==> Covered(db.store, Made(db.commits)))
    && forall id | id in db.txs ::
         var made := Made(Seen(db, db.txs[id]));
         made < COUNTER_MODULUS ==> Covered(db.txs[id].snapshot, made)
  }

  lemma OneMoreMade(commits: seq<Commit>, c: Commit)
    ensures Made(commits + [c]) == Made(commits) + |c.attempts|
  {
    assert (commits + [c])[..|commits|] == commits;
  }

  lemma CommitKeepsStoreCovered(db: Db, tx: Tx)
    requires TxInv(db, tx) && ChainKeys(db.store) && ChainKeys(tx.snapshot)
    requires Covered(db.store, Made(db.commits)) && Made(db.commits) + |tx.attempts| < COUNTER_MODULUS
    ensures Covered(ApplyAll(db.store, tx.log), Made(db.commits) + |tx.attempts|)
  {
    hide Covered, LegalAll, Later, ChainKeys;
    LogReplay(db.store, tx.attempts);
    CoveredReplay(tx.snapshot, db.store, Made(db.commits), tx.attempts);
  }

  /** The other transactions see what they saw, so only the new store is to be looked at. */
  lemma CoveredWithout(db: Db, db': Db, id: nat)
    requires CoveredInv(db) && db'.txs == db.txs - {id}
    requires forall i | i in db'.txs :: Seen(db', db.txs[i]) == Seen(db, db.txs[i])
    requires Made(db'.commits) < COUNTER_MODULUS ==> Covered(db'.store, Made(db'.commits))
    ensures CoveredInv(db')
  {
    hide Covered, Seen, Made;
    forall i | i in db'.txs
      ensures db'.txs[i] == db.txs[i] && i in db.txs
    {
    }
  }

  lemma StoreAfterCommit(db: Db, db': Db, tx: Tx)
    requires TxInv(db, tx) && ChainKeys(db.store) && ChainKeys(tx.snapshot)
    requires Made(db.commits) < COUNTER_MODULUS ==> Covered(db.store, Made(db.commits))
    requires db'.store == ApplyAll(db.store, tx.log)
    requires db'.commits == db.commits + [Commit(tx.attempts, tx.writeKeys)]
    requires Made(db'.commits) < COUNTER_MODULUS
    ensures Covered(db'.store, Made(db'.commits))
  {
    hide TxInv, ChainKeys, Made, Covered;
    OneMoreMade(db.commits, Commit(tx.attempts, tx.writeKeys));
    CommitKeepsStoreCovered(db, tx);
  }

  lemma CommitKeepsCovered(db: Db, id: nat)
    requires Inv(db) && ChainInv(db) && CoveredInv(db)
    requires id in db.txs && !Conflicted(db, db.txs[id])
    ensures CoveredInv(Do(db, Finish(id)))
  {
    hide Covered, TxInv, Conflicted, Seen, ChainKeys, Made, Distinct, AllSpent, CommitsOnChain;
    CommitDoes(db, id);
    hide Inv, Do;
    if Made(Do(db, Finish(id)).commits) < COUNTER_MODULUS {
      StoreAfterCommit(db, Do(db, Finish(id)), db.txs[id]);
    }
    CoveredWithout(db, Do(db, Finish(id)), id);
  }

  lemma BeginKeepsCovered(db: Db, id: nat)
    requires Inv(db) && CoveredInv(db) && id !in db.txs
    ensures CoveredInv(Do(db, Begin(id)))
  {
    hide Covered, TxInv, Distinct, AllSpent, Made;
    var db' := Do(db, Begin(id));
    assert db.commits[..|db.commits|] == db.commits;
    assert forall i | i in db.txs :: Seen(db', db'.txs[i]) == Seen(db, db.txs[i]);
  }

  lemma StepKeepsCovered(db: Db, step: Step)
    requires Inv(db) && ChainInv(db) && CoveredInv(db)
    ensures CoveredInv(Do(db, step))
  {
    hide Covered, TxInv, Distinct, AllSpent, Made;
    match step
    case Begin(id) =>
      if id !in db.txs {
        BeginKeepsCovered(db, id);
      }
    case Finish(id) =>
      if id in db.txs && !Conflicted(db, db.txs[id]) {
        CommitKeepsCovered(db, id);
      }
    case _ =>
  }

  lemma {:induction false} RunKeepsCovered(steps: seq<Step>)
    ensures Inv(Exec(steps)) && ChainInv(Exec(steps)) && CoveredInv(Exec(steps))
  {
    RunKeepsChain(steps);
    if steps == [] {
      assert Newest(EMPTY) == 0 && RecentFrom({}, 0) == {};
    } else {
      RunKeepsCovered(steps[..|steps| - 1]);
      RunKeepsChain(steps[..|steps| - 1]);
      StepKeepsCovered(Exec(steps[..|steps| - 1]), steps[|steps| - 1]);
    }
  }

  /** In every run, until the 64-bit counter can wrap, the newest window's marks are at most its counter. */
  lemma MarksAreCounted(steps: seq<Step>)
    requires Made(Exec(steps).commits) < COUNTER_MODULUS
    ensures Covered(Exec(steps).store, Made(Exec(steps).commits))
  {
    RunKeepsCovered(steps);
  }

  /** How many attempts there are in what an open transaction sees, its own included. */
  ghost function MadeIn(db: Db, tx: Tx): nat {
    Made(Seen(db, tx)) + |tx.attempts|
  }

  /** The same as seen inside any open transaction. */
  lemma ViewMarksAreCounted(steps: seq<Step>, id: nat)
    requires id in Exec(steps).txs && MadeIn(Exec(steps), Exec(steps).txs[id]) < COUNTER_MODULUS
    ensures var db := Exec(steps);
      Covered(View(db.txs[id]), MadeIn(db, db.txs[id]))
  {
    RunKeepsCovered(steps);
    var db := Exec(steps);
    var tx := db.txs[id];
    assert TxInv(db, tx);
    hide Covered, LegalAll, Exec, Made;
    LogReplay(tx.snapshot, tx.attempts);
    CoveredReplay(tx.snapshot, tx.snapshot, Made(Seen(db, tx)), tx.attempts);
  }

  // ---------- free candidates ----------

  function Interval(low: nat, size: nat): (ns: set<nat>)
    ensures forall n: nat :: n in ns <==> low <= n < low + size
    ensures |ns| == size
  {
    if size == 0 then {} else Interval(low, size - 1) + {low + size - 1}
  }

  /** The candidates of the window opened by `a` that are not marked. */
  function Free(view: Store, a: Attempt): set<nat> {
    Interval(a.Start(), WindowSize(a.Start())) - Opened(view, a).recent
  }

  /** The marks in the window that `a` opens. */
  function Taken(view: Store, a: Attempt): set<nat> {
    RecentFrom(Opened(view, a).recent, a.Start())
  }

  lemma FreeAndTaken(view: Store, a: Attempt)
    requires forall c | c in Taken(view, a) :: c < a.Start() + WindowSize(a.Start())
    ensures |Free(view, a)| == WindowSize(a.Start()) - |Taken(view, a)|
  {
    hide WithWindow, WindowSize;
    assert Interval(a.Start(), WindowSize(a.Start())) == Free(view, a) + Taken(view, a);
  }

  /** A window just advanced to has no marks. */
  lemma AdvancedIsFree(view: Store, made: nat, a: Attempt)
    requires Covered(view, made) && a.from == Newest(view) && a.advanced
    ensures Taken(view, a) == {}
  {
    RecentAfter(view, a);
  }

  /** A window that was not left holds the marks of the newest window. */
  lemma StayedIsCounted(view: Store, made: nat, a: Attempt)
    requires Covered(view, made) && a.from == Newest(view) && !a.advanced
    ensures |Taken(view, a)| <= Count(view.counters, a.from)
    ensures forall c | c in Taken(view, a) :: c < a.Start() + WindowSize(a.Start())
  {
    RecentAfter(view, a);
    assert Taken(view, a) == RecentFrom(view.recent, a.from);
  }

  lemma StayedMeansHalfEmpty(view: Store, a: Attempt)
    requires Chooses(view, a) && !a.advanced && Count(view.counters, a.from) + 1 < UINT32_MODULUS
    ensures 2 * (Count(view.counters, a.from) + 1) < WindowSize(a.from)
  {
  }

  /** The test of the opening loop leaves more than half of the window free, as long as 32 bits hold its counter. */
  lemma HalfFree(view: Store, made: nat, a: Attempt)
    requires Covered(view, made) && Chooses(view, a) && Count(view.counters, a.from) + 1 < UINT32_MODULUS
    ensures 2 * |Free(view, a)| > WindowSize(a.Start())
  {
    hide Covered, Taken, Free;
    if a.advanced {
      AdvancedIsFree(view, made, a);
    } else {
      StayedIsCounted(view, made, a);
      StayedMeansHalfEmpty(view, a);
    }
    hide Chooses;
    FreeAndTaken(view, a);
  }

  /** An exact store is covered, by as many attempts as its counter counts. */
  lemma ExactIsCovered(s: Store, issued: set<nat>)
    requires Exact(s, issued)
    ensures Covered(s, Count(s.counters, Newest(s)))
  {
    forall c | c in s.recent
      ensures c < Newest(s) + WindowSize(Newest(s))
    {
      MarksWereIssued(s, issued, c);
    }
  }

  /** No attempt that the transaction sees was abandoned. */
  ghost predicate NoneAbandoned(db: Db, tx: Tx) {
    CommitsAccepted(Seen(db, tx)) && AllAccepted(tx.attempts)
  }

  /** Without abandoned attempts the counter never exceeds its window. */
  lemma CounterFitsWindow(steps: seq<Step>, id: nat)
    requires id in Exec(steps).txs && NoneAbandoned(Exec(steps), Exec(steps).txs[id])
    ensures var view := View(Exec(steps).txs[id]);
      Covered(view, WindowSize(Newest(view))) && Count(view.counters, Newest(view)) <= WindowSize(Newest(view))
  {
    hide Exec, View, Exact, ChainKeys;
    ViewCounterIsExact(steps, id);
    var tx := Exec(steps).txs[id];
    var issued := Elements(AllNumbers(Seen(Exec(steps), tx))) + Elements(Numbers(tx.attempts));
    ExactCountFits(View(tx), issued);
    ExactIsCovered(View(tx), issued);
  }

  /**
   Whenever the search loop is entered, in a run without abandoned attempts or with fewer
   than 2^32 of them, strictly more than half of the window's candidates are free, and
   the counter does not wrap in the 32 bits that are read of it. Without abandoned
   attempts, as the code runs, the counter never even exceeds its window.
   */
  lemma MoreThanHalfFree(steps: seq<Step>, id: nat, a: Attempt)
    requires id in Exec(steps).txs && Chooses(View(Exec(steps).txs[id]), a)
    requires var db := Exec(steps);
      NoneAbandoned(db, db.txs[id]) || MadeIn(db, db.txs[id]) + 1 < UINT32_MODULUS
    ensures var view := View(Exec(steps).txs[id]);
      && 2 * |Free(view, a)| > WindowSize(a.Start())
      && Count(view.counters, a.from) + 1 < UINT32_MODULUS
    ensures var db := Exec(steps);
      NoneAbandoned(db, db.txs[id]) ==> Count(View(db.txs[id]).counters, a.from) <= WindowSize(a.from)
  {
    var db := Exec(steps);
    var view := View(db.txs[id]);
    hide Exec, View, NoneAbandoned, MadeIn, Free;
    if NoneAbandoned(db, db.txs[id]) {
      CounterFitsWindow(steps, id);
      HalfFree(view, WindowSize(Newest(view)), a);
    } else {
      ViewMarksAreCounted(steps, id);
      HalfFree(view, MadeIn(db, db.txs[id]), a);
    }
  }

  /**
   The opening loop leaves the newest window exactly when at least half of it is issued,
   the number about to be issued included.
   */
  lemma LeavesWhenHalfIssued(steps: seq<Step>, id: nat, a: Attempt)
    requires id in Exec(steps).txs && Chooses(View(Exec(steps).txs[id]), a)
    requires NoneAbandoned(Exec(steps), Exec(steps).txs[id])
    ensures var view := View(Exec(steps).txs[id]);
      a.advanced <==>
        2 * (|set c | c in view.recent && Newest(view) <= c| + 1) >= WindowSize(Newest(view))
  {
    var view := View(Exec(steps).txs[id]);
    ViewCounterIsExact(steps, id);
    CounterFitsWindow(steps, id);
    hide Exec, View, NoneAbandoned, Covered, ChainKeys, Newest;
    assert RecentFrom(view.recent, Newest(view)) == set c | c in view.recent && Newest(view) <= c;
    CrowdedIsHalf(view, a);
  }

  lemma CrowdedIsHalf(view: Store, a: Attempt)
    requires Chooses(view, a) && Count(view.counters, a.from) <= 8192
    ensures a.advanced <==> 2 * (Count(view.counters, a.from) + 1) >= WindowSize(a.from)
  {
  }
}
