/**
 What every run keeps about windows. Window starts stay on one chain whose windows
 do not overlap, and as long as no attempt is abandoned the newest counter equals
 the number of marks in its window.
 */
module AllocatorWindows {
  import opened AllocatorStore
  import opened HighContentionAllocator
  import opened AllocatorRuns

  ghost predicate ChainKeys(s: Store) {
    forall k | k in s.counters :: OnChain(k)
  }

  lemma NewestOnChain(s: Store)
    requires ChainKeys(s)
    ensures OnChain(Newest(s))
  {
    assert ChainStart(0) == 0;
  }

  lemma StartOnChain(x: Store, a: Attempt)
    requires ChainKeys(x) && a.from == Newest(x)
    ensures OnChain(a.from) && OnChain(a.Start())
  {
    NewestOnChain(x);
    NextOnChain(a.from);
  }

  lemma AfterKeys(s: Store, a: Attempt)
    ensures After(s, a).counters.Keys <= s.counters.Keys + {a.from, a.Start()}
  {
  }

  ghost predicate StartsOnChain(attempts: seq<Attempt>) {
    forall i | 0 <= i < |attempts| :: OnChain(attempts[i].from) && OnChain(attempts[i].Start())
  }

  lemma {:induction false} ChainReplay(x: Store, y: Store, attempts: seq<Attempt>)
    requires LegalAll(x, attempts) && ChainKeys(x) && ChainKeys(y)
    ensures ChainKeys(Replay(x, attempts)) && ChainKeys(Replay(y, attempts))
    ensures StartsOnChain(attempts)
  {
    hide After;
    if attempts != [] {
      var n := |attempts| - 1;
      ChainReplay(x, y, attempts[..n]);
      StartOnChain(Replay(x, attempts[..n]), attempts[n]);
      AfterKeys(Replay(x, attempts[..n]), attempts[n]);
      AfterKeys(Replay(y, attempts[..n]), attempts[n]);
    }
  }

  ghost predicate CommitsOnChain(commits: seq<Commit>) {
    forall v | 0 <= v < |commits| :: StartsOnChain(commits[v].attempts)
  }

  ghost predicate ChainInv(db: Db) {
    && ChainKeys(db.store)
    && CommitsOnChain(db.commits)
    && (forall id | id in db.txs :: ChainKeys(db.txs[id].snapshot))
  }

  lemma CommitKeepsChain(db: Db, tx: Tx)
    requires TxInv(db, tx) && ChainInv(db) && ChainKeys(tx.snapshot)
    ensures ChainKeys(ApplyAll(db.store, tx.log))
    ensures CommitsOnChain(db.commits + [Commit(tx.attempts, tx.writeKeys)])
  {
    LogReplay(db.store, tx.attempts);
    ChainReplay(tx.snapshot, db.store, tx.attempts);
  }

  lemma StepKeepsChain(db: Db, step: Step)
    requires Inv(db) && ChainInv(db)
    ensures ChainInv(Do(db, step))
  {
    if step.Finish? && step.id in db.txs {
      CommitKeepsChain(db, db.txs[step.id]);
    }
  }

  lemma {:induction false} RunKeepsChain(steps: seq<Step>)
    ensures Inv(Exec(steps)) && ChainInv(Exec(steps))
  {
    RunKeepsInv(steps);
    if steps != [] {
      RunKeepsChain(steps[..|steps| - 1]);
      StepKeepsChain(Exec(steps[..|steps| - 1]), steps[|steps| - 1]);
    }
  }

  /**
   In every run all counter keys and all windows ever used, committed or not, start
   on the chain; so two different windows in use never overlap.
   */
  lemma WindowsStayOnChain(steps: seq<Step>)
    ensures ChainKeys(Exec(steps).store)
    ensures CommitsOnChain(Exec(steps).commits)
    ensures forall id | id in Exec(steps).txs :: StartsOnChain(Exec(steps).txs[id].attempts)
  {
    RunKeepsChain(steps);
    var db := Exec(steps);
    forall id | id in db.txs
      ensures StartsOnChain(db.txs[id].attempts)
    {
      ChainReplay(db.txs[id].snapshot, db.txs[id].snapshot, db.txs[id].attempts);
    }
  }

  // ---------- counters are exact ----------

  ghost predicate AllAccepted(attempts: seq<Attempt>) {
    forall i | 0 <= i < |attempts| :: attempts[i].accepted
  }

  ghost predicate CommitsAccepted(commits: seq<Commit>) {
    forall v | 0 <= v < |commits| :: AllAccepted(commits[v].attempts)
  }

  /** The newest window holds exactly the numbers issued in it, and its counter counts them. */
  ghost predicate Exact(s: Store, issued: set<nat>) {
    && RecentFrom(s.recent, Newest(s)) == RecentFrom(issued, Newest(s))
    && Count(s.counters, Newest(s)) == |RecentFrom(issued, Newest(s))|
    && forall n | n in issued :: n < Newest(s) + WindowSize(Newest(s))
  }

  lemma {:induction false} IntervalCard(ns: set<nat>, low: nat, high: nat)
    requires low <= high && forall n | n in ns :: low <= n < high
    ensures |ns| <= high - low
    decreases high - low
  {
    if low < high {
      IntervalCard(ns - {high - 1}, low, high - 1);
    } else {
      assert ns == {};
    }
  }

  lemma ExactCountFits(s: Store, issued: set<nat>)
    requires Exact(s, issued)
    ensures Count(s.counters, Newest(s)) <= WindowSize(Newest(s))
  {
    IntervalCard(RecentFrom(issued, Newest(s)), Newest(s), Newest(s) + WindowSize(Newest(s)));
  }

  lemma CountAfterOpening(y: Store, a: Attempt)
    requires a.advanced ==> a.from < a.Start()
    ensures Count(After(y, a).counters, a.Start()) == (Count(y.counters, a.Start()) + 1) % COUNTER_MODULUS
    ensures forall k | a.Start() < k :: Count(After(y, a).counters, k) == Count(y.counters, k)
  {
  }

  lemma CountedOnce(y: Store, a: Attempt)
    requires a.advanced ==> a.from < a.Start()
    requires Count(y.counters, a.Start()) + 1 < COUNTER_MODULUS
    ensures Count(After(y, a).counters, a.Start()) == Count(y.counters, a.Start()) + 1
  {
    CountAfterOpening(y, a);
  }

  lemma IssuedOneMore(issued: set<nat>, top: nat, n: nat)
    requires top <= n && n !in issued
    ensures RecentFrom(issued + {n}, top) == RecentFrom(issued, top) + {n}
    ensures |RecentFrom(issued + {n}, top)| == |RecentFrom(issued, top)| + 1
  {
    assert RecentFrom(issued + {n}, top) == RecentFrom(issued, top) + {n};
  }

  /** An attempt in a window that `y` has already left behind does not touch the newest window. */
  lemma ExactBehind(y: Store, issued: set<nat>, a: Attempt, n: nat)
    requires Exact(y, issued) && a.Start() + WindowSize(a.Start()) <= Newest(y)
    requires forall d | d in a.draws :: d < a.Start() + WindowSize(a.Start())
    requires n in a.draws
    ensures Exact(After(y, a), issued + {n})
  {
    var top := Newest(y);
    NewestAfter(y, a);
    CountAfterOpening(y, a);
    assert RecentFrom(After(y, a).recent, top) == RecentFrom(y.recent, top);
    assert RecentFrom(issued + {n}, top) == RecentFrom(issued, top);
  }

  /** An attempt in the newest window of `y` adds one mark and one count. */
  lemma ExactInside(x: Store, y: Store, issued: set<nat>, a: Attempt)
    requires Later(x, y) && Legal(x, a) && a.accepted
    requires Exact(y, issued) && a.Start() == Newest(y) && Last(a) !in issued
    ensures Exact(After(y, a), issued + {Last(a)})
  {
    var top, n := Newest(y), Last(a);
    MarksAfterInside(x, y, a);
    ExactCountFits(y, issued);
    assert top <= n < top + WindowSize(top) by { RejectedWereMarked(x, a); }
    assert a.advanced ==> a.from < a.Start();
    hide After, WithWindow, Newest, Chooses, Legal, Later, RecentFrom, WindowSize, Count;
    NewestAfter(y, a);
    CountedOnce(y, a);
    IssuedOneMore(issued, top, n);
  }

  lemma MarksAfterInside(x: Store, y: Store, a: Attempt)
    requires Later(x, y) && Legal(x, a) && a.Start() == Newest(y)
    ensures RecentFrom(After(y, a).recent, Newest(y)) == RecentFrom(y.recent, Newest(y)) + {Last(a)}
  {
    hide After, WithWindow, Newest, Chooses;
    RejectedWereMarked(x, a);
    RecentAfter(x, a);
    RecentAfter(y, a);
  }

  lemma RejectedWereMarked(x: Store, a: Attempt)
    requires Legal(x, a)
    ensures Last(a) in a.draws
    ensures forall d | d in a.draws && d != Last(a) :: d in Opened(x, a).recent
  {
  }

  lemma MarksWereIssued(y: Store, issued: set<nat>, d: nat)
    requires Exact(y, issued) && d in y.recent
    ensures d < Newest(y) + WindowSize(Newest(y))
  {
    if Newest(y) <= d {
      assert d in RecentFrom(y.recent, Newest(y));
    }
  }

  /** An attempt that moves `y` to its next window starts it with one mark and one count. */
  lemma ExactAhead(x: Store, y: Store, issued: set<nat>, a: Attempt)
    requires Later(x, y) && Legal(x, a) && a.accepted
    requires Exact(y, issued) && a.advanced && a.from == Newest(y)
    ensures Exact(After(y, a), issued + {Last(a)})
  {
    hide After, WithWindow, Chooses;
    var top, n := a.Start(), Last(a);
    RejectedWereMarked(x, a);
    RecentAfter(x, a);
    RecentAfter(y, a);
    NewestAfter(y, a);
    assert top !in y.counters;
    CountAfterOpening(y, a);
    forall d | d in y.recent
      ensures d < top
    {
      MarksWereIssued(y, issued, d);
    }
    assert RecentFrom(After(y, a).recent, top) == {n};
    assert RecentFrom(issued + {n}, top) == {n};
  }

  lemma ExactStep(x: Store, y: Store, issued: set<nat>, a: Attempt)
    requires Later(x, y) && Legal(x, a) && a.accepted && ChainKeys(x) && ChainKeys(y)
    requires Exact(y, issued) && Last(a) !in issued
    ensures Exact(After(y, a), issued + {Last(a)})
  {
    hide After, WithWindow, Exact;
    StartOnChain(x, a);
    NewestOnChain(y);
    if a.Start() < Newest(y) {
      WindowsDisjoint(a.Start(), Newest(y));
      assert Last(a) in a.draws;
      ExactBehind(y, issued, a, Last(a));
    } else if a.Start() == Newest(y) {
      ExactInside(x, y, issued, a);
    } else {
      if a.from < Newest(y) {
        WindowsDisjoint(a.from, Newest(y));
      }
      ExactAhead(x, y, issued, a);
    }
  }

  lemma {:induction false} ExactReplay(x: Store, y: Store, issued: set<nat>, attempts: seq<Attempt>)
    requires Later(x, y) && LegalAll(x, attempts) && ChainKeys(x) && ChainKeys(y)
    requires Exact(y, issued) && AllAccepted(attempts)
    requires Distinct(Numbers(attempts)) && forall n | n in Numbers(attempts) :: n !in issued
    ensures Exact(Replay(y, attempts), issued + Elements(Numbers(attempts)))
  {
    hide Exact, After, Chooses, ChainKeys, Later;
    if attempts == [] {
      assert issued + Elements([]) == issued;
    } else {
      var m := |attempts| - 1;
      var init, a := attempts[..m], attempts[m];
      var ns := Numbers(init);
      assert Numbers(attempts) == ns + [Last(a)];
      assert forall i | 0 <= i < |ns| :: ns[i] == Numbers(attempts)[i];
      assert Last(a) == Numbers(attempts)[|ns|];
      ExactReplay(x, y, issued, init);
      LaterReplay(x, y, init);
      ChainReplay(x, y, init);
      ExactStep(Replay(x, init), Replay(y, init), issued + Elements(ns), a);
      assert issued + Elements(Numbers(attempts)) == issued + Elements(ns) + {Last(a)};
    }
  }

  ghost predicate ExactInv(db: Db) {
    && (CommitsAccepted(db.commits) ==> Exact(db.store, Elements(AllNumbers(db.commits))))
    && forall id | id in db.txs ::
         CommitsAccepted(Seen(db, db.txs[id])) ==>
           Exact(db.txs[id].snapshot, Elements(AllNumbers(Seen(db, db.txs[id]))))
  }

  lemma AcceptedBefore(commits: seq<Commit>, c: Commit)
    requires CommitsAccepted(commits + [c])
    ensures CommitsAccepted(commits) && AllAccepted(c.attempts)
  {
    var all := commits + [c];
    assert all[|commits|] == c;
    forall v | 0 <= v < |commits|
      ensures AllAccepted(commits[v].attempts)
    {
      assert all[v] == commits[v];
    }
  }

  lemma OneMoreCommit(commits: seq<Commit>, c: Commit)
    ensures Elements(AllNumbers(commits + [c])) == Elements(AllNumbers(commits)) + Elements(Numbers(c.attempts))
  {
    assert (commits + [c])[..|commits|] == commits;
  }

  /** What a commit does, and that it changes nothing in what the other transactions see. */
  lemma CommitDoes(db: Db, id: nat)
    requires Inv(db) && id in db.txs && !Conflicted(db, db.txs[id])
    ensures var tx := db.txs[id];
      Do(db, Finish(id)) ==
        Db(ApplyAll(db.store, tx.log), db.commits + [Commit(tx.attempts, tx.writeKeys)], db.txs - {id})
    ensures forall i | i in db.txs && i != id :: Seen(Do(db, Finish(id)), db.txs[i]) == Seen(db, db.txs[i])
    ensures TxInv(db, db.txs[id])
  {
    var db' := Do(db, Finish(id));
    hide Conflicted;
    forall i | i in db.txs && i != id
      ensures Seen(db', db.txs[i]) == Seen(db, db.txs[i])
    {
      assert TxInv(db, db.txs[i]);
    }
  }

  /** Committing an accepted transaction keeps the committed store exact. */
  lemma CommitKeepsStoreExact(db: Db, tx: Tx)
    requires Inv(db) && TxInv(db, tx) && !Conflicted(db, tx) && ChainKeys(db.store) && ChainKeys(tx.snapshot)
    requires AllAccepted(tx.attempts) && Exact(db.store, Elements(AllNumbers(db.commits)))
    ensures Exact(ApplyAll(db.store, tx.log), Elements(AllNumbers(db.commits)) + Elements(Numbers(tx.attempts)))
  {
    forall n | n in Numbers(tx.attempts)
      ensures n !in Elements(AllNumbers(db.commits))
    {
      CommittedAreFresh(db, tx, n);
    }
    hide Exact, LegalAll, Later, Inv, Conflicted, AllAccepted, ChainKeys;
    LogReplay(db.store, tx.attempts);
    ExactReplay(tx.snapshot, db.store, Elements(AllNumbers(db.commits)), tx.attempts);
  }

  lemma CommitKeepsExact(db: Db, id: nat)
    requires Inv(db) && ChainInv(db) && ExactInv(db)
    requires id in db.txs && !Conflicted(db, db.txs[id])
    ensures ExactInv(Do(db, Finish(id)))
  {
    var tx, db' := db.txs[id], Do(db, Finish(id));
    CommitDoes(db, id);
    hide Do, Exact, TxInv, Conflicted, Seen, CommitsAccepted, AllAccepted, ChainKeys, Elements, AllNumbers;
    if CommitsAccepted(db'.commits) {
      AcceptedBefore(db.commits, Commit(tx.attempts, tx.writeKeys));
      CommitKeepsStoreExact(db, tx);
      OneMoreCommit(db.commits, Commit(tx.attempts, tx.writeKeys));
    }
  }

  lemma BeginKeepsExact(db: Db, id: nat)
    requires Inv(db) && ExactInv(db) && id !in db.txs
    ensures ExactInv(Do(db, Begin(id)))
  {
    hide Exact, TxInv, Distinct, AllSpent, CommitsAccepted;
    var db' := Do(db, Begin(id));
    assert db.commits[..|db.commits|] == db.commits;
    assert forall i | i in db.txs :: Seen(db', db'.txs[i]) == Seen(db, db.txs[i]);
  }

  lemma StepKeepsExact(db: Db, step: Step)
    requires Inv(db) && ChainInv(db) && ExactInv(db)
    ensures ExactInv(Do(db, step))
  {
    hide Exact, TxInv, Distinct, AllSpent, CommitsAccepted;
    match step
    case Begin(id) =>
      if id !in db.txs {
        BeginKeepsExact(db, id);
      }
    case Finish(id) =>
      if id in db.txs && !Conflicted(db, db.txs[id]) {
        CommitKeepsExact(db, id);
      }
    case _ =>
  }

  lemma {:induction false} RunKeepsExact(steps: seq<Step>)
    ensures Inv(Exec(steps)) && ChainInv(Exec(steps)) && ExactInv(Exec(steps))
  {
    RunKeepsChain(steps);
    if steps == [] {
      assert Newest(EMPTY) == 0 && RecentFrom({}, 0) == {};
      assert RecentFrom(Elements([]), 0) == {};
    } else {
      RunKeepsExact(steps[..|steps| - 1]);
      RunKeepsChain(steps[..|steps| - 1]);
      StepKeepsExact(Exec(steps[..|steps| - 1]), steps[|steps| - 1]);
    }
  }

  /**
   While no attempt is abandoned, the committed marks from the newest window on are
   exactly the numbers issued there, the newest counter is their count, and no
   number lies beyond the window.
   */
  lemma NewestCounterIsExact(steps: seq<Step>)
    requires CommitsAccepted(Exec(steps).commits)
    ensures Exact(Exec(steps).store, Elements(AllNumbers(Exec(steps).commits)))
  {
    RunKeepsExact(steps);
  }

  /** The same as seen inside any open transaction. */
  lemma ViewCounterIsExact(steps: seq<Step>, id: nat)
    requires id in Exec(steps).txs
    requires CommitsAccepted(Seen(Exec(steps), Exec(steps).txs[id]))
    requires AllAccepted(Exec(steps).txs[id].attempts)
    ensures var db := Exec(steps);
      var tx := db.txs[id];
      && ChainKeys(View(tx))
      && Exact(View(tx), Elements(AllNumbers(Seen(db, tx))) + Elements(Numbers(tx.attempts)))
  {
    RunKeepsExact(steps);
    var db := Exec(steps);
    var tx := db.txs[id];
    var earlier := Elements(AllNumbers(Seen(db, tx)));
    LogReplay(tx.snapshot, tx.attempts);
    ChainReplay(tx.snapshot, tx.snapshot, tx.attempts);
    forall n | n in Numbers(tx.attempts)
      ensures n !in earlier
    {
    }
    ExactReplay(tx.snapshot, tx.snapshot, earlier, tx.attempts);
  }
}
