/** What every run of the apply thread keeps, whatever crashes: the checkpoint window, that passing
    over a duplicate key throws no work away, and that the target can still be brought to the source
    by the rest of the log. */
module ApplyProofs {
  import opened OptionType
  import opened Replay
  import opened SyncLog
  import opened ApplyThread

  // ---- The order in which the log holds source transactions ----------------------------------------

  /** The source transaction that comes next, in source order, after log transaction `e`. */
  function Front(entries: seq<nat>, e: nat): nat
    requires e <= |entries|
  {
    if e == 0 then 0 else entries[e - 1] + 1
  }

  /** Every log transaction is the next one in source order or one the log already holds: the log
      may step back, it never skips. */
  predicate Chain(entries: seq<nat>) {
    forall m | 0 <= m < |entries| :: entries[m] <= Front(entries, m)
  }

  /** How many source transactions the first `n` log transactions reach. */
  function High(entries: seq<nat>, n: nat): nat
    requires n <= |entries|
  {
    if n == 0 then 0
    else if entries[n - 1] + 1 > High(entries, n - 1) then entries[n - 1] + 1
    else High(entries, n - 1)
  }

  lemma {:induction false} HighBounds(entries: seq<nat>, e: nat, n: nat)
    requires e <= n <= |entries|
    ensures Front(entries, e) <= High(entries, n)
    ensures forall j | 0 <= j < n :: entries[j] < High(entries, n)
  {
    if n > 0 {
      if e == n { HighBounds(entries, e - 1, n - 1); } else { HighBounds(entries, e, n - 1); }
    }
  }

  lemma {:induction false} HighGrows(entries: seq<nat>, more: nat, n: nat)
    requires n <= |entries|
    ensures High(entries + [more], n) == High(entries, n)
  {
    if n > 0 {
      HighGrows(entries, more, n - 1);
    }
  }

  lemma {:induction false} HighKnown<K, V>(txns: seq<seq<Op<K, V>>>, entries: seq<nat>, n: nat)
    requires Known(txns, entries) && n <= |entries|
    ensures High(entries, n) <= |txns|
  {
    if n > 0 {
      HighKnown(txns, entries, n - 1);
    }
  }

  // ---- Statements that survive ------------------------------------------------------------------------

  /** The statements of a transaction that are not passed over as duplicates. */
  function Survivors<K, V>(ops: seq<Op<K, V>>, db: map<K, V>): seq<Op<K, V>> {
    if ops == [] then []
    else if Exec(ops[0], db).DuplicateKey? then Survivors(ops[1..], db)
    else [ops[0]] + Survivors(ops[1..], Lenient(ops[0], db))
  }

  lemma {:induction false} SurvivorsSnoc<K, V>(ops: seq<Op<K, V>>, op: Op<K, V>, db: map<K, V>)
    ensures Survivors(ops + [op], db)
         == Survivors(ops, db) + if Exec(op, Run(ops, db)).DuplicateKey? then [] else [op]
    ensures Run(ops + [op], db) == Lenient(op, Run(ops, db))
  {
    if ops == [] {
      assert ops + [op] == [op];
      assert [op][1..] == [];
    } else {
      assert (ops + [op])[1..] == ops[1..] + [op];
      SurvivorsSnoc(ops[1..], op, Lenient(ops[0], db));
    }
  }

  /** If nothing survived, nothing happened. */
  lemma {:induction false} NoSurvivors<K, V>(ops: seq<Op<K, V>>, db: map<K, V>)
    requires Survivors(ops, db) == []
    ensures Run(ops, db) == db
  {
    if ops != [] {
      NoSurvivors(ops[1..], db);
    }
  }

  /** The survivors, executed strictly, do exactly what the lenient run does. */
  lemma {:induction false} SurvivorsDoTheWork<K, V>(ops: seq<Op<K, V>>, db: map<K, V>)
    ensures Run(Survivors(ops, db), db) == Run(ops, db)
  {
    if ops != [] {
      if Exec(ops[0], db).DuplicateKey? {
        SurvivorsDoTheWork(ops[1..], db);
      } else {
        var rest := Survivors(ops[1..], Lenient(ops[0], db));
        assert ([ops[0]] + rest)[1..] == rest;
        SurvivorsDoTheWork(ops[1..], Lenient(ops[0], db));
      }
    }
  }

  // ---- The invariant ------------------------------------------------------------------------------------

  /** The segment from source transaction `q` on will be run again in full: `q` is not past the front,
      and no log transaction between here and the furthest the target has seen comes before it. */
  predicate Ahead(entries: seq<nat>, e: nat, done: nat, q: nat)
    requires e <= done <= |entries|
  {
    q <= Front(entries, e) && forall j | e <= j < done :: q <= entries[j]
  }

  ghost predicate Healing<K, V>(txns: seq<seq<Op<K, V>>>, s0: map<K, V>, entries: seq<nat>, e: nat, done: nat, db: map<K, V>)
    requires e <= done <= |entries|
  {
    && High(entries, done) <= |txns|
    && forall q: nat | q <= High(entries, done) && Ahead(entries, e, done, q) :: Heals(txns, s0, q, High(entries, done), db)
  }

  /** The log is well made. */
  ghost predicate GoodLog<K, V>(txns: seq<seq<Op<K, V>>>, log: seq<LogRow<K, V>>, entries: seq<nat>) {
    && WholeLog(txns, log, entries) && Chain(entries)
  }

  /** The target transaction `j` rows into log transaction `e`. */
  ghost predicate TxnProgress<K, V>(ops: seq<Op<K, V>>, j: nat, th: Thread, s: Session<K, V>)
    requires 0 < j <= |ops| + 1
  {
    && s.tx == Open(Run(ops[..j - 1], s.db), Survivors(ops[..j - 1], s.db))
    && !th.sqlType.SqlCommit?
    && (th.sqlType.SqlBegin? <==> s.tx.ran == [])
  }

  /** The thread stands `j` rows into log transaction `e`. */
  ghost predicate ThreadAt<K, V>(txns: seq<seq<Op<K, V>>>, log: seq<LogRow<K, V>>, entries: seq<nat>,
                                 th: Thread, s: Session<K, V>, e: nat, j: nat, l: nat)
    requires Known(txns, entries)
  {
    && e <= l <= |entries|
    && (e == l ==> j == 0)
    && (e < l ==> j < Rows(txns, entries, e))
    && Marks(txns, log, entries, th.applyId, e)
    && th.next == Start(txns, entries, e) + j
    && th.limit == Start(txns, entries, l)
    && th.nCommit <= CHECKPOINT_EVERY
    && (th.writing <==> th.nCommit == CHECKPOINT_EVERY)
    && (th.writing ==> j == 0)
    && (j == 0 ==> s.tx.Idle?)
    && (j > 0 ==> TxnProgress(txns[entries[e]], j, th, s))
  }

  /** `d` log transactions are below the durable position, `e` below the thread's. */
  ghost predicate InvAt<K, V>(txns: seq<seq<Op<K, V>>>, s0: map<K, V>, log: seq<LogRow<K, V>>, entries: seq<nat>,
                              a: Apply<K, V>, d: nat, e: nat, j: nat, l: nat)
    requires GoodLog(txns, log, entries)
  {
    && d <= e <= a.done <= |entries|
    && Marks(txns, log, entries, a.durable, d)
    && a.done <= d + 5 * a.lost + 5
    && (a.thread.None? ==> e == d && a.session.tx.Idle?)
    && (a.thread.Some? ==>
        && ThreadAt(txns, log, entries, a.thread.value, a.session, e, j, l)
        && e <= d + 5 * a.lost + a.thread.value.nCommit)
    && Healing(txns, s0, entries, e, a.done, a.session.db)
  }

  ghost predicate Inv<K, V>(txns: seq<seq<Op<K, V>>>, s0: map<K, V>, log: seq<LogRow<K, V>>, entries: seq<nat>, a: Apply<K, V>) {
    && GoodLog(txns, log, entries)
    && exists d: nat, e: nat, j: nat, l: nat :: InvAt(txns, s0, log, entries, a, d, e, j, l)
  }

  // ---- Rows and commits ----------------------------------------------------------------------------------

  lemma {:induction false} CommitsOfPrefix<K, V>(rows: seq<LogRow<K, V>>, n: nat)
    requires n < |rows|
    ensures Commits(rows[..n + 1]) == Commits(rows[..n]) + if rows[n].sql.CommitSql? then 1 else 0
  {
    assert rows[..n + 1][..n] == rows[..n];
  }

  /** `e` transactions are complete before row `j` of log transaction `e`. */
  lemma {:induction false} CommitsAt<K, V>(txns: seq<seq<Op<K, V>>>, log: seq<LogRow<K, V>>, entries: seq<nat>, e: nat, j: nat)
    requires WholeLog(txns, log, entries) && e <= |entries|
    requires if e == |entries| then j == 0 else j < Rows(txns, entries, e)
    ensures Start(txns, entries, e) + j <= |log|
    ensures Commits(log[..Start(txns, entries, e) + j]) == e
    decreases e, j
  {
    assert Known(txns, entries);
    hide WholeLog;
    if j > 0 {
      RowOf(txns, log, entries, e, j - 1);
      CommitsAt(txns, log, entries, e, j - 1);
      CommitsOfPrefix(log, Start(txns, entries, e) + j - 1);
    } else if e > 0 {
      var last := Rows(txns, entries, e - 1) - 1;
      RowOf(txns, log, entries, e - 1, last);
      CommitsAt(txns, log, entries, e - 1, last);
      CommitsOfPrefix(log, Start(txns, entries, e - 1) + last);
    }
  }

  /** The `commit;` row of log transaction `e` marks the end of it. */
  lemma {:induction false} CommitMarks<K, V>(txns: seq<seq<Op<K, V>>>, log: seq<LogRow<K, V>>, entries: seq<nat>, e: nat)
    requires WholeLog(txns, log, entries) && e < |entries|
    ensures 0 < Start(txns, entries, e + 1) <= |log|
    ensures Marks(txns, log, entries, log[Start(txns, entries, e + 1) - 1].id, e + 1)
  {
    var last := Rows(txns, entries, e) - 1;
    RowOf(txns, log, entries, e, last);
    var n := Start(txns, entries, e) + last;
    AscendingAt(log, n, n);
    if n + 1 < |log| {
      AscendingAt(log, n, n + 1);
    }
    BelowIs(log, log[n].id, n + 1);
  }

  lemma {:induction false} MarksOrdered<K, V>(txns: seq<seq<Op<K, V>>>, log: seq<LogRow<K, V>>, entries: seq<nat>, x: int, d: nat, y: int, e: nat)
    requires WholeLog(txns, log, entries) && d <= e
    requires Marks(txns, log, entries, x, d) && Marks(txns, log, entries, y, e)
    ensures x <= y
  {
    StartMonotone(txns, entries, d, e);
    if 0 < d < e {
      AscendingAt(log, Start(txns, entries, d) - 1, Start(txns, entries, e) - 1);
    } else if d < e {
      AscendingAt(log, Start(txns, entries, e) - 1, Start(txns, entries, e) - 1);
    }
  }

  // ---- Healing -------------------------------------------------------------------------------------------

  /** Standing further back promises less. */
  lemma {:induction false} HealingBack<K, V>(txns: seq<seq<Op<K, V>>>, s0: map<K, V>, entries: seq<nat>, d: nat, e: nat, done: nat, db: map<K, V>)
    requires d <= e <= done <= |entries|
    requires Healing(txns, s0, entries, e, done, db)
    ensures Healing(txns, s0, entries, d, done, db)
  {
    forall q: nat | q <= High(entries, done) && Ahead(entries, d, done, q)
      ensures Heals(txns, s0, q, High(entries, done), db)
    {
      if d < e {
        assert q <= entries[e - 1];
      }
      assert Ahead(entries, e, done, q);
    }
  }

  /** The target commits source transaction `h`, which it has never seen, in the state the source had. */
  lemma {:induction false} HealingNew<K, V>(txns: seq<seq<Op<K, V>>>, s0: map<K, V>, h: nat, db: map<K, V>, h': nat, db': map<K, V>)
    requires h < h + 1 == h' <= |txns| && ValidHistory(txns, s0)
    requires Heals(txns, s0, h, h, db) && db' == Run(txns[h], db)
    ensures forall q: nat | q <= h' :: Heals(txns, s0, q, h', db')
  {
    assert Ops(txns, h, h) == [] == Ops(txns, h + 1, h + 1);
    assert Ops(txns, h, h + 1) == txns[h];
    HistorySegment(txns, s0, h, h + 1);
    forall q: nat | q <= h' ensures Heals(txns, s0, q, h', db') {
      SourceHeals(txns, s0, q, h');
    }
  }

  /** The target commits source transaction `b` again. */
  lemma {:induction false} HealingAgain<K, V>(txns: seq<seq<Op<K, V>>>, s0: map<K, V>, q: nat, b: nat, h: nat, db: map<K, V>)
    requires b < h <= |txns| && ValidHistory(txns, s0)
    requires Heals(txns, s0, if q <= b then q else b, h, db) && q <= b + 1
    ensures Heals(txns, s0, q, h, Run(txns[b], db))
  {
    if q <= b {
      RerunKeepsHealing(txns, s0, q, b, h, db);
    } else {
      RerunAdvances(txns, s0, b, h, db);
    }
  }

  /** Committing log transaction `e` on the target. */
  lemma {:induction false} HealingCommit<K, V>(txns: seq<seq<Op<K, V>>>, s0: map<K, V>, entries: seq<nat>, e: nat, done: nat, db: map<K, V>)
    requires Known(txns, entries) && ValidHistory(txns, s0) && Chain(entries)
    requires e <= done <= |entries| && e < |entries|
    requires Healing(txns, s0, entries, e, done, db)
    ensures Healing(txns, s0, entries, e + 1, Most(done, e + 1), Run(txns[entries[e]], db))
  {
    var b, done' := entries[e], Most(done, e + 1);
    var h, h' := High(entries, done), High(entries, done');
    HighBounds(entries, e, done);
    HighBounds(entries, e + 1, done');
    HighKnown(txns, entries, done');
    if b == h {
      assert Ahead(entries, e, done, h);
      HealingNew(txns, s0, h, db, h', Run(txns[b], db));
    } else {
      assert h' == h;
      HealingRepeat(txns, s0, entries, e, done, db);
    }
  }

  lemma {:induction false} HealingRepeat<K, V>(txns: seq<seq<Op<K, V>>>, s0: map<K, V>, entries: seq<nat>, e: nat, done: nat, db: map<K, V>)
    requires Known(txns, entries) && ValidHistory(txns, s0) && Chain(entries) && e <= done <= |entries| && e < |entries|
    requires Healing(txns, s0, entries, e, done, db) && entries[e] < High(entries, done)
    ensures forall q: nat | q <= High(entries, done) && Ahead(entries, e + 1, Most(done, e + 1), q)
              :: Heals(txns, s0, q, High(entries, done), Run(txns[entries[e]], db))
  {
    hide Heals;
    var b, h := entries[e], High(entries, done);
    forall q: nat | q <= h && Ahead(entries, e + 1, Most(done, e + 1), q) ensures Heals(txns, s0, q, h, Run(txns[b], db)) {
      assert Ahead(entries, e, done, if q <= b then q else b);
      HealingAgain(txns, s0, q, b, h, db);
    }
  }

  // ---- Every step keeps the invariant ----------------------------------------------------------------------

  /** A statement of a transaction that the thread is in. */
  lemma {:induction false} StatementRow<K, V>(ops: seq<Op<K, V>>, j: nat, th: Thread, s: Session<K, V>, row: LogRow<K, V>)
    requires 0 < j <= |ops| && TxnProgress(ops, j, th, s) && row.sql == Statement(ops[j - 1])
    ensures
      var r := ApplyRow(th, s, row);
      && (r.Continue? <==> (Exec(ops[j - 1], Run(ops[..j - 1], s.db)).DuplicateKey? ==> Survivors(ops[..j - 1], s.db) == []))
      && (r.Continue? ==> TxnProgress(ops, j + 1, r.thread, r.session) && r.session.db == s.db
                          && r.thread == th.(sqlType := r.thread.sqlType, next := th.next + 1))
  {
    assert ops[..j] == ops[..j - 1] + [ops[j - 1]];
    SurvivorsSnoc(ops[..j - 1], ops[j - 1], s.db);
    if Survivors(ops[..j - 1], s.db) == [] {
      NoSurvivors(ops[..j - 1], s.db);
    }
  }

  /** A row of log transaction `e` short of its `commit;`. */
  lemma {:induction false} FetchRowKeeps<K, V>(txns: seq<seq<Op<K, V>>>, log: seq<LogRow<K, V>>, entries: seq<nat>,
                                               th: Thread, s: Session<K, V>, e: nat, j: nat, l: nat)
    requires GoodLog(txns, log, entries) && ThreadAt(txns, log, entries, th, s, e, j, l)
    requires th.next < th.limit && !th.writing && e < l && j <= |txns[entries[e]]|
    requires th.next < |log| && ApplyRow(th, s, log[th.next]).Continue?
    ensures
      var r := ApplyRow(th, s, log[th.next]);
      && ThreadAt(txns, log, entries, r.thread, r.session, e, j + 1, l)
      && r.session.db == s.db && r.thread.nCommit == th.nCommit
  {
    assert Known(txns, entries);
    hide Marks;
    hide WholeLog;
    hide Survivors;
    var ops := txns[entries[e]];
    RowOf(txns, log, entries, e, j);
    if j > 0 {
      assert log[th.next].sql == TxnSqls(ops)[j] == Statement(ops[j - 1]);
      StatementRow(ops, j, th, s, log[th.next]);
    } else {
      BeginRow(ops, th, s, log[th.next]);
    }
  }

  lemma {:induction false} BeginRow<K, V>(ops: seq<Op<K, V>>, th: Thread, s: Session<K, V>, row: LogRow<K, V>)
    requires s.tx.Idle? && row.sql == BeginSql
    ensures
      var r := ApplyRow(th, s, row);
      && r.Continue? && TxnProgress(ops, 1, r.thread, r.session) && r.session.db == s.db
      && r.thread == th.(sqlType := SqlBegin, next := th.next + 1)
  {
    assert ops[..0] == [];
  }

  /** The `commit;` row of log transaction `e`. */
  lemma {:induction false} FetchCommitKeeps<K, V>(txns: seq<seq<Op<K, V>>>, s0: map<K, V>, log: seq<LogRow<K, V>>, entries: seq<nat>,
                                                  th: Thread, s: Session<K, V>, e: nat, l: nat)
    requires GoodLog(txns, log, entries) && e < |entries|
    requires ThreadAt(txns, log, entries, th, s, e, |txns[entries[e]]| + 1, l)
    requires th.next < th.limit && !th.writing && th.next < |log|
    ensures
      var r := ApplyRow(th, s, log[th.next]);
      && r.Continue?
      && ThreadAt(txns, log, entries, r.thread, r.session, e + 1, 0, l)
      && r.session.db == Run(txns[entries[e]], s.db) && r.thread.nCommit == th.nCommit + 1
      && s.tx == Open(r.session.db, Survivors(txns[entries[e]], s.db))
  {
    var ops := txns[entries[e]];
    RowOf(txns, log, entries, e, |ops| + 1);
    assert log[th.next].sql == TxnSqls(ops)[|ops| + 1] == CommitSql;
    assert ops[..|ops|] == ops;
    StartMonotone(txns, entries, e + 1, l);
    CommitMarks(txns, log, entries, e);
  }

  lemma {:induction false} FetchKeepsRow<K, V>(txns: seq<seq<Op<K, V>>>, s0: map<K, V>, log: seq<LogRow<K, V>>, entries: seq<nat>,
                                               a: Apply<K, V>, a': Apply<K, V>, d: nat, e: nat, j: nat, l: nat)
    requires GoodLog(txns, log, entries) && InvAt(txns, s0, log, entries, a, d, e, j, l)
    requires Step(log, Fetch, a, a')
    requires e < l && j <= |txns[entries[e]]|
    ensures InvAt(txns, s0, log, entries, a', d, e, j + 1, l)
  {
    FetchRowKeeps(txns, log, entries, a.thread.value, a.session, e, j, l);
    CommitsAt(txns, log, entries, e, j + 1);
  }

  lemma {:induction false} CommitKeeps<K, V>(txns: seq<seq<Op<K, V>>>, s0: map<K, V>, log: seq<LogRow<K, V>>, entries: seq<nat>,
                                             a: Apply<K, V>, th': Thread, s': Session<K, V>, d: nat, e: nat, l: nat)
    requires GoodLog(txns, log, entries) && ValidHistory(txns, s0) && e < |entries| && a.thread.Some?
    requires InvAt(txns, s0, log, entries, a, d, e, |txns[entries[e]]| + 1, l)
    requires ThreadAt(txns, log, entries, th', s', e + 1, 0, l)
    requires s'.db == Run(txns[entries[e]], a.session.db) && th'.nCommit == a.thread.value.nCommit + 1
    ensures InvAt(txns, s0, log, entries, a.(thread := Some(th'), session := s', done := Most(a.done, e + 1)), d, e + 1, 0, l)
  {
    HealingCommit(txns, s0, entries, e, a.done, a.session.db);
  }

  lemma {:induction false} FetchedCommit<K, V>(txns: seq<seq<Op<K, V>>>, s0: map<K, V>, log: seq<LogRow<K, V>>, entries: seq<nat>,
                                               a: Apply<K, V>, a': Apply<K, V>, e: nat, l: nat)
    requires GoodLog(txns, log, entries) && e < |entries| && Step(log, Fetch, a, a')
    requires ThreadAt(txns, log, entries, a.thread.value, a.session, e, |txns[entries[e]]| + 1, l)
    ensures a'.thread.Some?
    ensures a' == a.(thread := Some(a'.thread.value), session := a'.session, done := Most(a.done, e + 1))
    ensures ThreadAt(txns, log, entries, a'.thread.value, a'.session, e + 1, 0, l)
    ensures a'.session.db == Run(txns[entries[e]], a.session.db) && a'.thread.value.nCommit == a.thread.value.nCommit + 1
  {
    assert Known(txns, entries);
    hide Marks;
    hide WholeLog;
    hide Chain;
    hide TxnProgress;
    hide ApplyRow;
    FetchCommitKeeps(txns, s0, log, entries, a.thread.value, a.session, e, l);
    CommitsAt(txns, log, entries, e + 1, 0);
  }

  lemma {:induction false} FetchKeeps<K, V>(txns: seq<seq<Op<K, V>>>, s0: map<K, V>, log: seq<LogRow<K, V>>, entries: seq<nat>,
                                            a: Apply<K, V>, a': Apply<K, V>, d: nat, e: nat, j: nat, l: nat)
    requires GoodLog(txns, log, entries) && ValidHistory(txns, s0) && InvAt(txns, s0, log, entries, a, d, e, j, l)
    requires Step(log, Fetch, a, a')
    ensures exists e': nat, j': nat :: InvAt(txns, s0, log, entries, a', d, e', j', l)
  {
    assert e < l;
    if j <= |txns[entries[e]]| {
      FetchKeepsRow(txns, s0, log, entries, a, a', d, e, j, l);
    } else {
      FetchedCommit(txns, s0, log, entries, a, a', e, l);
      CommitKeeps(txns, s0, log, entries, a, a'.thread.value, a'.session, d, e, l);
    }
  }

  /** Where the thread stands at the end of its cursor. */
  lemma {:induction false} AtLimit<K, V>(txns: seq<seq<Op<K, V>>>, log: seq<LogRow<K, V>>, entries: seq<nat>,
                                         th: Thread, s: Session<K, V>, e: nat, j: nat, l: nat)
    requires Known(txns, entries) && ThreadAt(txns, log, entries, th, s, e, j, l)
    requires th.next == th.limit
    ensures e == l && j == 0
  {
    if e < l {
      StartMonotone(txns, entries, e + 1, l);
    }
  }

  lemma {:induction false} CrashKeeps<K, V>(txns: seq<seq<Op<K, V>>>, s0: map<K, V>, log: seq<LogRow<K, V>>, entries: seq<nat>,
                                            a: Apply<K, V>, a': Apply<K, V>, d: nat, e: nat, j: nat, l: nat)
    requires GoodLog(txns, log, entries) && InvAt(txns, s0, log, entries, a, d, e, j, l)
    requires Step(log, Crash, a, a')
    ensures InvAt(txns, s0, log, entries, a', d, d, 0, d)
  {
    HealingBack(txns, s0, entries, d, e, a.done, a.session.db);
  }

  lemma {:induction false} StartKeeps<K, V>(txns: seq<seq<Op<K, V>>>, s0: map<K, V>, log: seq<LogRow<K, V>>, entries: seq<nat>,
                                            a: Apply<K, V>, a': Apply<K, V>, d: nat, e: nat, j: nat, l: nat)
    requires GoodLog(txns, log, entries) && InvAt(txns, s0, log, entries, a, d, e, j, l)
    requires Step(log, StartThread, a, a')
    ensures InvAt(txns, s0, log, entries, a', d, d, 0, d)
  {
  }

  lemma {:induction false} DeclareKeeps<K, V>(txns: seq<seq<Op<K, V>>>, s0: map<K, V>, log: seq<LogRow<K, V>>, entries: seq<nat>,
                                              a: Apply<K, V>, a': Apply<K, V>, d: nat, e: nat, j: nat, l: nat)
    requires GoodLog(txns, log, entries) && InvAt(txns, s0, log, entries, a, d, e, j, l)
    requires Step(log, Declare, a, a')
    ensures InvAt(txns, s0, log, entries, a', d, e, 0, |entries|)
  {
    AtLimit(txns, log, entries, a.thread.value, a.session, e, j, l);
    LogLength(txns, log, entries);
  }

  lemma {:induction false} WriteKeeps<K, V>(txns: seq<seq<Op<K, V>>>, s0: map<K, V>, log: seq<LogRow<K, V>>, entries: seq<nat>,
                                            ev: Event, a: Apply<K, V>, a': Apply<K, V>, d: nat, e: nat, j: nat, l: nat)
    requires GoodLog(txns, log, entries) && InvAt(txns, s0, log, entries, a, d, e, j, l)
    requires (ev.WriteBack? || ev.EndOfCursor?) && Step(log, ev, a, a')
    ensures InvAt(txns, s0, log, entries, a', if ev.ok then e else d, e, j, l)
  {
    if ev.EndOfCursor? {
      AtLimit(txns, log, entries, a.thread.value, a.session, e, j, l);
    }
  }

  /** Every step of the thread, and every crash, keeps the invariant. */
  lemma {:induction false} StepKeeps<K, V>(txns: seq<seq<Op<K, V>>>, s0: map<K, V>, log: seq<LogRow<K, V>>, entries: seq<nat>,
                                           ev: Event, a: Apply<K, V>, a': Apply<K, V>)
    requires ValidHistory(txns, s0) && Inv(txns, s0, log, entries, a)
    requires Step(log, ev, a, a')
    ensures Inv(txns, s0, log, entries, a')
  {
    var d: nat, e: nat, j: nat, l: nat :| InvAt(txns, s0, log, entries, a, d, e, j, l);
    match ev
    case Crash => CrashKeeps(txns, s0, log, entries, a, a', d, e, j, l);
    case StartThread => StartKeeps(txns, s0, log, entries, a, a', d, e, j, l);
    case Declare => DeclareKeeps(txns, s0, log, entries, a, a', d, e, j, l);
    case Fetch => FetchKeeps(txns, s0, log, entries, a, a', d, e, j, l);
    case WriteBack(_) => WriteKeeps(txns, s0, log, entries, ev, a, a', d, e, j, l);
    case EndOfCursor(_) => WriteKeeps(txns, s0, log, entries, ev, a, a', d, e, j, l);
  }

  lemma {:induction false} HealingGrows<K, V>(txns: seq<seq<Op<K, V>>>, s0: map<K, V>, entries: seq<nat>, n: nat, e: nat, done: nat, db: map<K, V>)
    requires e <= done <= |entries|
    requires Healing(txns, s0, entries, e, done, db)
    ensures Healing(txns, s0, entries + [n], e, done, db)
  {
    HighGrows(entries, n, done);
    forall q: nat | q <= High(entries, done) && Ahead(entries + [n], e, done, q)
      ensures Heals(txns, s0, q, High(entries, done), db)
    {
      forall i | e <= i < done ensures q <= entries[i] {
        assert (entries + [n])[i] == entries[i];
      }
      assert Ahead(entries, e, done, q);
    }
  }

  lemma {:induction false} ThreadGrows<K, V>(txns: seq<seq<Op<K, V>>>, log: seq<LogRow<K, V>>, entries: seq<nat>,
                                             more: seq<LogRow<K, V>>, n: nat, th: Thread, s: Session<K, V>, e: nat, j: nat, l: nat)
    requires Known(txns, entries) && Known(txns, entries + [n]) && Ascending(log + more)
    requires ThreadAt(txns, log, entries, th, s, e, j, l)
    ensures ThreadAt(txns, log + more, entries + [n], th, s, e, j, l)
  {
    MarksGrow(txns, log, entries, more, n, th.applyId, e);
    StartGrows(txns, entries, n, e);
    StartGrows(txns, entries, n, l);
  }

  /** The log growing by one transaction keeps the invariant. */
  lemma {:induction false} GrowthKeeps<K, V>(txns: seq<seq<Op<K, V>>>, s0: map<K, V>, log: seq<LogRow<K, V>>, entries: seq<nat>,
                                             more: seq<LogRow<K, V>>, n: nat, a: Apply<K, V>)
    requires Inv(txns, s0, log, entries, a)
    requires GoodLog(txns, log + more, entries + [n])
    ensures Inv(txns, s0, log + more, entries + [n], a)
  {
    var d: nat, e: nat, j: nat, l: nat :| InvAt(txns, s0, log, entries, a, d, e, j, l);
    MarksGrow(txns, log, entries, more, n, a.durable, d);
    HealingGrows(txns, s0, entries, n, e, a.done, a.session.db);
    if a.thread.Some? {
      ThreadGrows(txns, log, entries, more, n, a.thread.value, a.session, e, j, l);
    }
    assert InvAt(txns, s0, log + more, entries + [n], a, d, e, j, l);
  }

  /** The first state: nothing applied, the target as the full copy left it. */
  lemma {:induction false} InitInv<K, V>(txns: seq<seq<Op<K, V>>>, s0: map<K, V>)
    requires ValidHistory(txns, s0)
    ensures Inv(txns, s0, [], [], Apply(0, Session(s0, Idle), None, 0, 0))
  {
    var log: seq<LogRow<K, V>> := [];
    SourceHeals(txns, s0, 0, 0);
    assert Source(txns, s0, 0) == s0;
    assert Sqls(log) == Flatten(txns, [], 0);
    assert InvAt(txns, s0, log, [], Apply(0, Session(s0, Idle), None, 0, 0), 0, 0, 0, 0);
  }

  // ---- What the invariant gives ------------------------------------------------------------------------------

  /** The checkpoint window: the durable position is 0 or the id of a `commit;` row, all of the log at
      or below it has been committed on the target, and with no position write lost at most five
      committed transactions lie above it. */
  lemma {:induction false} CheckpointWindow<K, V>(txns: seq<seq<Op<K, V>>>, s0: map<K, V>, log: seq<LogRow<K, V>>, entries: seq<nat>, a: Apply<K, V>)
    requires Inv(txns, s0, log, entries, a)
    ensures a.durable == 0 || exists i :: CommitRow(log, i, a.durable)
    ensures Below(log, a.durable) <= |log|
    ensures Commits(log[..Below(log, a.durable)]) <= a.done <= |entries|
    ensures a.done <= Commits(log[..Below(log, a.durable)]) + 5 * (a.lost + 1)
  {
    hide Healing;
    hide ThreadAt;
    var d: nat, e: nat, j: nat, l: nat :| InvAt(txns, s0, log, entries, a, d, e, j, l);
    CommitsAt(txns, log, entries, d, 0);
  }

  /** The durable position never goes back. */
  lemma {:induction false} DurableMonotone<K, V>(txns: seq<seq<Op<K, V>>>, s0: map<K, V>, log: seq<LogRow<K, V>>, entries: seq<nat>,
                                                 ev: Event, a: Apply<K, V>, a': Apply<K, V>)
    requires Inv(txns, s0, log, entries, a) && Step(log, ev, a, a')
    ensures a.durable <= a'.durable
  {
    var d: nat, e: nat, j: nat, l: nat :| InvAt(txns, s0, log, entries, a, d, e, j, l);
    if a.thread.Some? {
      MarksOrdered(txns, log, entries, a.durable, d, a.thread.value.applyId, e);
    }
  }

  /** If the row at hand is refused and passed over, nothing is pending. */
  lemma {:induction false} RefusedAt<K, V>(txns: seq<seq<Op<K, V>>>, log: seq<LogRow<K, V>>, entries: seq<nat>,
                                           th: Thread, s: Session<K, V>, e: nat, j: nat, l: nat)
    requires WholeLog(txns, log, entries) && ThreadAt(txns, log, entries, th, s, e, j, l) && th.next < th.limit
    requires th.next < |log| && Send(s, log[th.next].sql).status != CommandOk && ApplyRow(th, s, log[th.next]).Continue?
    ensures s.tx == Open(s.db, [])
  {
    hide Marks;
    RowOf(txns, log, entries, e, j);
    NoSurvivors(txns[entries[e]][..j - 1], s.db);
  }

  /** Whenever a duplicate key is passed over, the target transaction that END rolls back holds no
      statement that succeeded. */
  lemma {:induction false} SwallowedDiscardsNothing<K, V>(txns: seq<seq<Op<K, V>>>, s0: map<K, V>, log: seq<LogRow<K, V>>, entries: seq<nat>,
                                                          a: Apply<K, V>, a': Apply<K, V>)
    requires Inv(txns, s0, log, entries, a) && Step(log, Fetch, a, a')
    requires Send(a.session, log[a.thread.value.next].sql).status != CommandOk
    ensures a.session.tx == Open(a.session.db, [])
    ensures a'.session == a.session
  {
    var d: nat, e: nat, j: nat, l: nat :| InvAt(txns, s0, log, entries, a, d, e, j, l);
    hide Healing;
    RefusedAt(txns, log, entries, a.thread.value, a.session, e, j, l);
  }

  lemma {:induction false} CommittedAt<K, V>(txns: seq<seq<Op<K, V>>>, s0: map<K, V>, log: seq<LogRow<K, V>>, entries: seq<nat>,
                                             a: Apply<K, V>, a': Apply<K, V>, e: nat, l: nat)
    requires GoodLog(txns, log, entries) && Step(log, Fetch, a, a') && e < |entries|
    requires ThreadAt(txns, log, entries, a.thread.value, a.session, e, |txns[entries[e]]| + 1, l)
    ensures a.session.tx.Open? && a.session.tx.ran == Survivors(txns[entries[e]], a.session.db)
    ensures a'.session.db == Run(a.session.tx.ran, a.session.db) == Run(txns[entries[e]], a.session.db)
  {
    FetchCommitKeeps(txns, s0, log, entries, a.thread.value, a.session, e, l);
    SurvivorsDoTheWork(txns[entries[e]], a.session.db);
  }

  /** The log transaction whose COMMIT the thread is about to send. */
  lemma {:induction false} AtCommit<K, V>(txns: seq<seq<Op<K, V>>>, s0: map<K, V>, log: seq<LogRow<K, V>>, entries: seq<nat>,
                                          a: Apply<K, V>) returns (e: nat, l: nat)
    requires Inv(txns, s0, log, entries, a) && a.thread.Some?
    requires a.thread.value.next < a.thread.value.limit <= |log| && log[a.thread.value.next].sql.CommitSql?
    ensures GoodLog(txns, log, entries) && e < |entries| && e == Commits(log[..a.thread.value.next])
    ensures ThreadAt(txns, log, entries, a.thread.value, a.session, e, |txns[entries[e]]| + 1, l)
  {
    var d: nat, e': nat, j: nat, l': nat :| InvAt(txns, s0, log, entries, a, d, e', j, l');
    e, l := e', l';
    ThreadAtCommit(txns, log, entries, a.thread.value, a.session, e, j, l);
  }

  lemma {:induction false} ThreadAtCommit<K, V>(txns: seq<seq<Op<K, V>>>, log: seq<LogRow<K, V>>, entries: seq<nat>,
                                                th: Thread, s: Session<K, V>, e: nat, j: nat, l: nat)
    requires GoodLog(txns, log, entries) && ThreadAt(txns, log, entries, th, s, e, j, l)
    requires th.next < th.limit <= |log| && log[th.next].sql.CommitSql?
    ensures e < |entries| && e == Commits(log[..th.next]) && j == |txns[entries[e]]| + 1
  {
    RowOf(txns, log, entries, e, j);
    CommitsAt(txns, log, entries, e, j);
  }

  /** What a commit on the target is: the source transaction of that log transaction, minus exactly
      the statements that were passed over. */
  lemma {:induction false} CommittedIsLogMinusSwallowed<K, V>(txns: seq<seq<Op<K, V>>>, s0: map<K, V>, log: seq<LogRow<K, V>>, entries: seq<nat>,
                                                              a: Apply<K, V>, a': Apply<K, V>)
    requires Inv(txns, s0, log, entries, a) && Step(log, Fetch, a, a')
    requires log[a.thread.value.next].sql.CommitSql?
    ensures
      var e := Commits(log[..a.thread.value.next]);
      && e < |entries|
      && a.session.tx.Open?
      && a.session.tx.ran == Survivors(txns[entries[e]], a.session.db)
      && a'.session.db == Run(a.session.tx.ran, a.session.db) == Run(txns[entries[e]], a.session.db)
  {
    var e, l := AtCommit(txns, s0, log, entries, a);
    CommittedAt(txns, s0, log, entries, a, a', e, l);
  }

  lemma {:induction false} ReadAll<K, V>(txns: seq<seq<Op<K, V>>>, log: seq<LogRow<K, V>>, entries: seq<nat>,
                                         th: Thread, s: Session<K, V>, e: nat, j: nat, l: nat)
    requires WholeLog(txns, log, entries) && ThreadAt(txns, log, entries, th, s, e, j, l)
    requires th.next == |log|
    ensures e == |entries| && j == 0 && s.tx.Idle?
  {
    LogLength(txns, log, entries);
    if e < |entries| {
      StartMonotone(txns, entries, e + 1, |entries|);
    }
  }

  lemma {:induction false} ConvergedAt<K, V>(txns: seq<seq<Op<K, V>>>, s0: map<K, V>, entries: seq<nat>, db: map<K, V>)
    requires Front(entries, |entries|) == High(entries, |entries|)
    requires Healing(txns, s0, entries, |entries|, |entries|, db)
    ensures High(entries, |entries|) <= |txns|
    ensures db == Source(txns, s0, High(entries, |entries|))
  {
    var h := High(entries, |entries|);
    assert Ahead(entries, |entries|, |entries|, h);
    assert Ops(txns, h, h) == [];
  }

  /** Convergence: once the thread has read the whole log, and the log ends with the furthest source
      transaction it holds, the target is the source. */
  lemma {:induction false} Converged<K, V>(txns: seq<seq<Op<K, V>>>, s0: map<K, V>, log: seq<LogRow<K, V>>, entries: seq<nat>, a: Apply<K, V>)
    requires Inv(txns, s0, log, entries, a)
    requires a.thread.Some? && a.thread.value.next == |log|
    requires Front(entries, |entries|) == High(entries, |entries|)
    ensures High(entries, |entries|) <= |txns|
    ensures a.session == Session(Source(txns, s0, High(entries, |entries|)), Idle)
  {
    var d: nat, e: nat, j: nat, l: nat :| InvAt(txns, s0, log, entries, a, d, e, j, l);
    hide Healing;
    hide High;
    hide Marks;
    ReadAll(txns, log, entries, a.thread.value, a.session, e, j, l);
    ConvergedAt(txns, s0, entries, a.session.db);
  }
}
