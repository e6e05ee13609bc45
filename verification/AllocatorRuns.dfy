/**
 All interleavings of allocating transactions over one store, and what every run
 keeps: allocated numbers are unique, the newest window moves forward along the
 chain, and its counter is exactly the number of its marks.
 */
module AllocatorRuns {
  import opened AllocatorStore
  import opened HighContentionAllocator

  /** What a committed transaction leaves behind for the conflict check of later commits. */
  datatype Commit = Commit(attempts: seq<Attempt>, writeKeys: set<nat>)

  datatype Db = Db(store: Store, commits: seq<Commit>, txs: map<nat, Tx>)

  datatype Step =
    | Begin(id: nat)
    | Try(id: nat, attempt: Attempt)
    | Finish(id: nat)
    | Abort(id: nat)

  const INIT := Db(EMPTY, [], map[])

  /** Optimistic commit: a key read since the read version must not have been written. */
  ghost predicate Conflicted(db: Db, tx: Tx) {
    exists v | tx.readVersion <= v < |db.commits| :: !(db.commits[v].writeKeys !! tx.readKeys)
  }

  ghost function Do(db: Db, step: Step): Db {
    match step
    case Begin(id) =>
      if id in db.txs then db
      else db.(txs := db.txs[id := Tx(|db.commits|, db.store, [], {}, {}, [])])
    case Try(id, a) =>
      if id in db.txs && Legal(View(db.txs[id]), a)
      then db.(txs := db.txs[id := Record(db.txs[id], a)])
      else db
    case Finish(id) =>
      if id !in db.txs then db
      else if Conflicted(db, db.txs[id]) then db.(txs := db.txs - {id})
      else
        var tx := db.txs[id];
        Db(ApplyAll(db.store, tx.log), db.commits + [Commit(tx.attempts, tx.writeKeys)], db.txs - {id})
    case Abort(id) => db.(txs := db.txs - {id})
  }

  ghost function Exec(steps: seq<Step>): Db {
    if steps == [] then INIT
    else Do(Exec(steps[..|steps| - 1]), steps[|steps| - 1])
  }

  // ---------- what was allocated ----------

  function Last(a: Attempt): nat
    requires a.draws != []
  {
    a.draws[|a.draws| - 1]
  }

  function Numbers(attempts: seq<Attempt>): seq<nat> {
    if attempts == [] then []
    else
      var n := |attempts| - 1;
      Numbers(attempts[..n]) +
      if attempts[n].accepted && attempts[n].draws != [] then [Last(attempts[n])] else []
  }

  function AllNumbers(commits: seq<Commit>): seq<nat> {
    if commits == [] then []
    else AllNumbers(commits[..|commits| - 1]) + Numbers(commits[|commits| - 1].attempts)
  }

  ghost predicate Distinct(s: seq<nat>) {
    forall i, j | 0 <= i < j < |s| :: s[i] != s[j]
  }

  function Elements(s: seq<nat>): set<nat> {
    set n | n in s
  }

  // ---------- replaying attempts ----------

  function LogOf(attempts: seq<Attempt>): seq<Mutation> {
    if attempts == [] then []
    else LogOf(attempts[..|attempts| - 1]) + attempts[|attempts| - 1].Mutations()
  }

  function Replay(s: Store, attempts: seq<Attempt>): Store {
    if attempts == [] then s
    else After(Replay(s, attempts[..|attempts| - 1]), attempts[|attempts| - 1])
  }

  ghost predicate LegalAll(s: Store, attempts: seq<Attempt>) {
    attempts != [] ==>
      var n := |attempts| - 1;
      LegalAll(s, attempts[..n]) && Legal(Replay(s, attempts[..n]), attempts[n])
  }

  lemma {:induction false} LogReplay(s: Store, attempts: seq<Attempt>)
    ensures ApplyAll(s, LogOf(attempts)) == Replay(s, attempts)
  {
    if attempts != [] {
      var n := |attempts| - 1;
      LogReplay(s, attempts[..n]);
      ApplyAllConcat(s, LogOf(attempts[..n]), attempts[n].Mutations());
      AttemptReplay(Replay(s, attempts[..n]), attempts[n]);
    }
  }

  // ---------- the order between stores ----------

  /** `y` is at least as far on as `x`, and still has the marks of `x` that matter to it. */
  ghost predicate Later(x: Store, y: Store) {
    && Newest(x) <= Newest(y)
    && forall c | c in x.recent && Newest(y) <= c :: c in y.recent
  }

  /** `n` can no longer be handed out by anybody who reads `s`. */
  ghost predicate Spent(s: Store, n: nat) {
    n in s.recent || n < Newest(s)
  }

  ghost predicate AllSpent(s: Store, ns: seq<nat>) {
    forall n | n in ns :: Spent(s, n)
  }

  lemma LaterAfter(x: Store, y: Store, a: Attempt)
    requires Later(x, y)
    ensures Later(x, After(y, a))
  {
    NewestAfter(y, a);
  }

  /** The same attempt replayed on a later store keeps it later. */
  lemma LaterBoth(x: Store, y: Store, a: Attempt)
    requires Later(x, y)
    ensures Later(After(x, a), After(y, a))
  {
    NewestAfter(x, a);
    NewestAfter(y, a);
  }

  lemma {:induction false} LaterReplay(x: Store, y: Store, attempts: seq<Attempt>)
    requires Later(x, y)
    ensures Later(x, Replay(y, attempts))
    ensures Later(Replay(x, attempts), Replay(y, attempts))
  {
    if attempts != [] {
      var n := |attempts| - 1;
      LaterReplay(x, y, attempts[..n]);
      LaterAfter(x, Replay(y, attempts[..n]), attempts[n]);
      LaterBoth(Replay(x, attempts[..n]), Replay(y, attempts[..n]), attempts[n]);
    }
  }

  lemma SpentAfter(s: Store, a: Attempt, n: nat)
    requires Spent(s, n)
    ensures Spent(After(s, a), n)
  {
    NewestAfter(s, a);
  }

  lemma SpentLater(x: Store, y: Store, n: nat)
    requires Later(x, y) && Spent(x, n)
    ensures Spent(y, n)
  {
  }

  // ---------- the invariant behind uniqueness ----------

  /** The commits a transaction's snapshot reflects. */
  function Seen(db: Db, tx: Tx): seq<Commit> {
    if tx.readVersion <= |db.commits| then db.commits[..tx.readVersion] else db.commits
  }

  ghost predicate TxInv(db: Db, tx: Tx) {
    && tx.readVersion <= |db.commits|
    && Later(tx.snapshot, db.store)
    && AllSpent(tx.snapshot, AllNumbers(Seen(db, tx)))
    && tx.log == LogOf(tx.attempts)
    && LegalAll(tx.snapshot, tx.attempts)
    && (forall c | Touched(tx.log, c) :: Spent(View(tx), c))
    && AllSpent(View(tx), Numbers(tx.attempts))
    && Distinct(Numbers(tx.attempts))
    && (forall n | n in Numbers(tx.attempts) ::
         !Spent(tx.snapshot, n) && n in tx.readKeys && n in tx.writeKeys)
  }

  ghost predicate Inv(db: Db) {
    && Distinct(AllNumbers(db.commits))
    && AllSpent(db.store, AllNumbers(db.commits))
    && (forall v | 0 <= v < |db.commits| ::
         Elements(Numbers(db.commits[v].attempts)) <= db.commits[v].writeKeys)
    && (forall id | id in db.txs :: TxInv(db, db.txs[id]))
  }

  lemma TouchedByOpening(log: seq<Mutation>, a: Attempt, c: nat)
    ensures Touched(log + a.Opening(), c) <==> Touched(log, c) || (a.advanced && c < a.Start())
  {
    var all := log + a.Opening();
    if Touched(log, c) {
      var i :| 0 <= i < |log| && (log[i] == Mark(c) || (log[i].ClearRecent? && c < log[i].below));
      assert all[i] == log[i];
    }
    if a.advanced && c < a.Start() {
      assert all[|log| + 2] == ClearRecent(a.Start());
    }
  }

  lemma ViewAfter(tx: Tx, a: Attempt)
    requires tx.log == LogOf(tx.attempts) && a.draws != []
    ensures View(Record(tx, a)) == After(View(tx), a)
    ensures Record(tx, a).log == LogOf(Record(tx, a).attempts)
    ensures View(tx) == Replay(tx.snapshot, tx.attempts)
  {
    var as' := tx.attempts + [a];
    assert as'[..|as'| - 1] == tx.attempts;
    ApplyAllConcat(tx.snapshot, tx.log, a.Mutations());
    AttemptReplay(View(tx), a);
    LogReplay(tx.snapshot, tx.attempts);
  }

  lemma TouchedIsSpent(tx: Tx, a: Attempt)
    requires tx.log == LogOf(tx.attempts) && Legal(View(tx), a)
    requires forall c | Touched(tx.log, c) :: Spent(View(tx), c)
    ensures forall c | Touched(Record(tx, a).log, c) :: Spent(After(View(tx), a), c)
  {
    NewestAfter(View(tx), a);
    forall c | Touched(Record(tx, a).log, c)
      ensures Spent(After(View(tx), a), c)
    {
      assert Record(tx, a).log == (tx.log + a.Opening()) + Marks(a.draws);
      TouchedWithMarks(tx.log + a.Opening(), a.draws, c);
      TouchedByOpening(tx.log, a, c);
      if Touched(tx.log, c) {
        SpentAfter(View(tx), a, c);
      }
    }
  }

  /** An accepted number was free in the snapshot and is protected by a read conflict. */
  lemma AcceptedIsProtected(tx: Tx, a: Attempt)
    requires tx.log == LogOf(tx.attempts) && Legal(View(tx), a) && a.accepted
    requires forall c | Touched(tx.log, c) :: Spent(View(tx), c)
    ensures !Spent(View(tx), Last(a)) && Last(a) in Record(tx, a).readKeys
  {
    var n, m := Last(a), |a.draws| - 1;
    assert n in a.draws;
    NewestAfter(View(tx), a);
    var before := tx.log + a.Opening();
    TouchedWithMarks(before, a.draws[..m], n);
    TouchedByOpening(tx.log, a, n);
    forall i | 0 <= i < m
      ensures a.draws[..m][i] != n
    {
      assert a.draws[i] in Opened(View(tx), a).recent;
    }
    assert !Touched(before + Marks(a.draws[..m]), a.draws[m]);
  }

  lemma RecordKeepsTxInv(db: Db, tx: Tx, a: Attempt)
    requires TxInv(db, tx) && Legal(View(tx), a)
    ensures TxInv(db, Record(tx, a))
  {
    var tx' := Record(tx, a);
    ViewAfter(tx, a);
    TouchedIsSpent(tx, a);
    assert tx'.attempts[..|tx'.attempts| - 1] == tx.attempts;
    LaterReplay(tx.snapshot, tx.snapshot, tx.attempts);
    if a.accepted {
      AcceptedIsProtected(tx, a);
      assert Last(a) in a.draws;
      assert Last(a) in After(View(tx), a).recent;
    }
    forall n | n in Numbers(tx.attempts)
      ensures Spent(View(tx'), n)
    {
      SpentAfter(View(tx), a, n);
    }
  }

  lemma {:induction false} NumbersByVersion(commits: seq<Commit>, from: nat, n: nat)
    requires from <= |commits| && n !in AllNumbers(commits[..from])
    requires forall v | from <= v < |commits| :: n !in Numbers(commits[v].attempts)
    ensures n !in AllNumbers(commits)
  {
    if from == |commits| {
      assert commits[..from] == commits;
    } else {
      var m := |commits| - 1;
      assert commits[..m][..from] == commits[..from];
      NumbersByVersion(commits[..m], from, n);
    }
  }

  /** A transaction that passes the conflict check allocated nothing that was committed before. */
  lemma CommittedAreFresh(db: Db, tx: Tx, n: nat)
    requires Inv(db) && TxInv(db, tx) && !Conflicted(db, tx)
    requires n in Numbers(tx.attempts)
    ensures n !in AllNumbers(db.commits)
  {
    forall v | tx.readVersion <= v < |db.commits|
      ensures n !in Numbers(db.commits[v].attempts)
    {
      assert db.commits[v].writeKeys !! tx.readKeys;
      assert n !in Elements(Numbers(db.commits[v].attempts));
    }
    NumbersByVersion(db.commits, tx.readVersion, n);
  }

  /** Committing `attempts` made on an earlier snapshot keeps what every other reader relies on. */
  lemma OthersAfterCommit(db: Db, db': Db, other: Tx, attempts: seq<Attempt>, c: Commit)
    requires TxInv(db, other)
    requires db'.store == Replay(db.store, attempts) && db'.commits == db.commits + [c]
    ensures TxInv(db', other)
  {
    assert db'.commits[..other.readVersion] == db.commits[..other.readVersion];
    LaterReplay(other.snapshot, db.store, attempts);
  }

  lemma {:induction false} SpentReplay(s: Store, attempts: seq<Attempt>, n: nat)
    requires Spent(s, n)
    ensures Spent(Replay(s, attempts), n)
  {
    if attempts != [] {
      SpentReplay(s, attempts[..|attempts| - 1], n);
      SpentAfter(Replay(s, attempts[..|attempts| - 1]), attempts[|attempts| - 1], n);
    }
  }

  lemma DistinctConcat(a: seq<nat>, b: seq<nat>)
    requires Distinct(a) && Distinct(b) && forall n | n in b :: n !in a
    ensures Distinct(a + b)
  {
    forall i, j | 0 <= i < j < |a + b|
      ensures (a + b)[i] != (a + b)[j]
    {
      if i < |a| <= j {
        assert a[i] in a && b[j - |a|] in b;
      }
    }
  }

  /** The numbers of a transaction that may commit are new, and spent once they are committed. */
  lemma CommittedNumbers(db: Db, tx: Tx)
    requires Inv(db) && TxInv(db, tx) && !Conflicted(db, tx)
    ensures forall n | n in Numbers(tx.attempts) :: n !in AllNumbers(db.commits)
    ensures AllSpent(Replay(db.store, tx.attempts), Numbers(tx.attempts))
  {
    LogReplay(tx.snapshot, tx.attempts);
    LaterReplay(tx.snapshot, db.store, tx.attempts);
    forall n | n in Numbers(tx.attempts)
      ensures n !in AllNumbers(db.commits) && Spent(Replay(db.store, tx.attempts), n)
    {
      CommittedAreFresh(db, tx, n);
      SpentLater(View(tx), Replay(db.store, tx.attempts), n);
    }
  }

  lemma StaySpent(s: Store, attempts: seq<Attempt>, ns: seq<nat>)
    requires AllSpent(s, ns)
    ensures AllSpent(Replay(s, attempts), ns)
  {
    forall n | n in ns
      ensures Spent(Replay(s, attempts), n)
    {
      SpentReplay(s, attempts, n);
    }
  }

  /** The history after a commit: its numbers are distinct, spent, and covered by write conflicts. */
  lemma HistoryAfterCommit(db: Db, tx: Tx, commits: seq<Commit>)
    requires Inv(db) && TxInv(db, tx) && !Conflicted(db, tx)
    requires commits == db.commits + [Commit(tx.attempts, tx.writeKeys)]
    ensures Distinct(AllNumbers(commits)) && AllSpent(Replay(db.store, tx.attempts), AllNumbers(commits))
    ensures forall v | 0 <= v < |commits| :: Elements(Numbers(commits[v].attempts)) <= commits[v].writeKeys
  {
    CommittedNumbers(db, tx);
    hide Conflicted, LegalAll, Later, Spent, Touched;
    StaySpent(db.store, tx.attempts, AllNumbers(db.commits));
    assert commits[..|commits| - 1] == db.commits;
    DistinctConcat(AllNumbers(db.commits), Numbers(tx.attempts));
  }

  lemma CommitKeepsInv(db: Db, id: nat)
    requires Inv(db) && id in db.txs && !Conflicted(db, db.txs[id])
    ensures Inv(Do(db, Finish(id)))
  {
    var tx, db' := db.txs[id], Do(db, Finish(id));
    LogReplay(db.store, tx.attempts);
    assert db'.store == Replay(db.store, tx.attempts);
    HistoryAfterCommit(db, tx, db'.commits);
    hide Conflicted, TxInv, Distinct, AllSpent, Numbers, AllNumbers, Replay;
    forall i | i in db'.txs
      ensures TxInv(db', db'.txs[i])
    {
      OthersAfterCommit(db, db', db.txs[i], tx.attempts, Commit(tx.attempts, tx.writeKeys));
    }
  }

  lemma BeginKeepsInv(db: Db, id: nat)
    requires Inv(db)
    ensures Inv(Do(db, Begin(id)))
  {
    assert db.commits[..|db.commits|] == db.commits;
    var db' := Do(db, Begin(id));
    forall i | i in db'.txs
      ensures TxInv(db', db'.txs[i])
    {
      if i in db.txs {
        assert TxInv(db, db.txs[i]);
      }
    }
  }

  lemma TryKeepsInv(db: Db, id: nat, a: Attempt)
    requires Inv(db)
    ensures Inv(Do(db, Try(id, a)))
  {
    hide Distinct, AllSpent, View, Chooses, Touched, LegalAll, Later;
    if id in db.txs && Legal(View(db.txs[id]), a) {
      RecordKeepsTxInv(db, db.txs[id], a);
      OthersAfterTry(db, Do(db, Try(id, a)), id, Record(db.txs[id], a));
    }
  }

  /** Changing one open transaction matters to no other. */
  lemma OthersAfterTry(db: Db, db': Db, id: nat, tx: Tx)
    requires Inv(db) && TxInv(db, tx) && db' == db.(txs := db.txs[id := tx])
    ensures Inv(db')
  {
    hide Distinct, AllSpent, LegalAll, Touched, Later, View;
    forall i | i in db'.txs
      ensures TxInv(db', db'.txs[i])
    {
      assert i != id ==> TxInv(db, db.txs[i]);
      assert Seen(db', db'.txs[i]) == Seen(db, db'.txs[i]);
    }
  }

  lemma DropKeepsInv(db: Db, id: nat)
    requires Inv(db)
    ensures Inv(db.(txs := db.txs - {id}))
  {
    var db' := db.(txs := db.txs - {id});
    forall i | i in db'.txs
      ensures TxInv(db', db'.txs[i])
    {
      assert TxInv(db, db.txs[i]);
    }
  }

  lemma StepKeepsInv(db: Db, step: Step)
    requires Inv(db)
    ensures Inv(Do(db, step))
  {
    match step
    case Begin(id) => BeginKeepsInv(db, id);
    case Try(id, a) => TryKeepsInv(db, id, a);
    case Finish(id) =>
      if id in db.txs && !Conflicted(db, db.txs[id]) {
        CommitKeepsInv(db, id);
      } else {
        DropKeepsInv(db, id);
        assert id !in db.txs ==> db.txs - {id} == db.txs;
      }
    case Abort(id) => DropKeepsInv(db, id);
  }

  lemma {:induction false} RunKeepsInv(steps: seq<Step>)
    ensures Inv(Exec(steps))
  {
    if steps != [] {
      RunKeepsInv(steps[..|steps| - 1]);
      StepKeepsInv(Exec(steps[..|steps| - 1]), steps[|steps| - 1]);
    }
  }

  /** Over every interleaving, no two committed allocations return the same number. */
  lemma AllocationIsUnique(steps: seq<Step>)
    ensures Distinct(AllNumbers(Exec(steps).commits))
    ensures forall id | id in Exec(steps).txs :: Distinct(Numbers(Exec(steps).txs[id].attempts))
  {
    RunKeepsInv(steps);
  }

  /** Every committed number is still marked or lies below the newest counter key. */
  lemma CommittedStaySpent(steps: seq<Step>, n: nat)
    requires n in AllNumbers(Exec(steps).commits)
    ensures n in Exec(steps).store.recent || n < Newest(Exec(steps).store)
  {
    RunKeepsInv(steps);
  }

  lemma NewestAfterStep(db: Db, step: Step)
    requires Inv(db)
    ensures Newest(db.store) <= Newest(Do(db, step).store)
  {
    if step.Finish? && step.id in db.txs {
      var tx := db.txs[step.id];
      LogReplay(db.store, tx.attempts);
      LaterReplay(db.store, db.store, tx.attempts);
    }
  }

  /** The newest counter key never moves back, whatever stale transaction commits. */
  lemma {:induction false} NewestNeverMovesBack(steps: seq<Step>, more: seq<Step>)
    ensures Newest(Exec(steps).store) <= Newest(Exec(steps + more).store)
  {
    hide Do, Newest, Inv;
    if more == [] {
      assert steps + more == steps;
    } else {
      var m := |more| - 1;
      assert (steps + more)[..|steps + more| - 1] == steps + more[..m];
      NewestNeverMovesBack(steps, more[..m]);
      RunKeepsInv(steps + more[..m]);
      NewestAfterStep(Exec(steps + more[..m]), more[m]);
    }
  }

}
