/** Which transactions the apply thread gets over, and what becomes of it at one that it does not: a duplicate
    key behind a statement that succeeded ends the thread, and every restart ends there again. */
module ThreadStops {
  import opened OptionType
  import opened Replay
  import opened SyncLog
  import opened ApplyThread
  import opened ApplyProofs
  import opened ApplyLoop

  /** Every duplicate key comes before any statement has succeeded. */
  ghost predicate GetsOver<K, V>(ops: seq<Op<K, V>>, db: map<K, V>) {
    forall i | 0 <= i < |ops| && Exec(ops[i], Run(ops[..i], db)).DuplicateKey? :: Survivors(ops[..i], db) == []
  }

  /** The rows one after the other. */
  function ApplyRows<K, V>(th: Thread, s: Session<K, V>, rows: seq<LogRow<K, V>>): RowResult<K, V>
    decreases |rows|
  {
    if rows == [] then Continue(th, s)
    else
      match ApplyRow(th, s, rows[0])
      case Continue(th', s') => ApplyRows(th', s', rows[1..])
      case Exit => Exit
  }

  lemma {:induction false} ApplyRowsAppend<K, V>(th: Thread, s: Session<K, V>, a: seq<LogRow<K, V>>, b: seq<LogRow<K, V>>)
    requires ApplyRows(th, s, a).Continue?
    ensures var r := ApplyRows(th, s, a); ApplyRows(th, s, a + b) == ApplyRows(r.thread, r.session, b)
    decreases |a|
  {
    if a == [] {
      assert a + b == b;
    } else {
      assert (a + b)[1..] == a[1..] + b;
      var r := ApplyRow(th, s, a[0]);
      ApplyRowsAppend(r.thread, r.session, a[1..], b);
    }
  }

  lemma {:induction false} GetsOverSnoc<K, V>(ops: seq<Op<K, V>>, j: nat, db: map<K, V>)
    requires j < |ops|
    ensures GetsOver(ops[..j + 1], db)
       <==> GetsOver(ops[..j], db) && (Exec(ops[j], Run(ops[..j], db)).DuplicateKey? ==> Survivors(ops[..j], db) == [])
  {
    var a, b := ops[..j], ops[..j + 1];
    assert forall i | 0 <= i <= j :: b[..i] == ops[..i];
    assert forall i | 0 <= i < j :: a[..i] == ops[..i] && a[i] == ops[i] == b[i];
    if GetsOver(b, db) {
      forall i | 0 <= i < |a| && Exec(a[i], Run(a[..i], db)).DuplicateKey? ensures Survivors(a[..i], db) == [] {
        assert Exec(b[i], Run(b[..i], db)).DuplicateKey?;
      }
    }
  }

  /** The thread's variables behind the rows of a transaction. */
  function Behind<K, V>(th: Thread, rows: seq<LogRow<K, V>>): Thread
    requires rows != []
  {
    var n := th.nCommit + 1;
    Thread(rows[|rows| - 1].id, n, SqlCommit, th.next + |rows|, th.limit, n == CHECKPOINT_EVERY)
  }

  /** The rest of a transaction that the thread is in. */
  lemma {:induction false} RestOfTxn<K, V>(ops: seq<Op<K, V>>, j: nat, th: Thread, s: Session<K, V>, rows: seq<LogRow<K, V>>)
    requires 0 < j <= |ops| + 1 && TxnProgress(ops, j, th, s) && GetsOver(ops[..j - 1], s.db)
    requires |rows| == |ops| + 2 - j && forall i | 0 <= i < |rows| :: rows[i].sql == TxnSqls(ops)[j + i]
    ensures ApplyRows(th, s, rows).Continue? <==> GetsOver(ops, s.db)
    ensures GetsOver(ops, s.db) ==> ApplyRows(th, s, rows) == Continue(Behind(th, rows), Session(Run(ops, s.db), Idle))
    decreases |rows|
  {
    assert rows[0].sql == TxnSqls(ops)[j];
    if j == |ops| + 1 {
      assert ops[..|ops|] == ops && rows[1..] == [];
    } else {
      GetsOverSnoc(ops, j - 1, s.db);
      StatementRow(ops, j, th, s, rows[0]);
      var r := ApplyRow(th, s, rows[0]);
      if r.Continue? {
        assert forall i | 0 <= i < |rows| - 1 :: rows[1..][i] == rows[i + 1];
        RestOfTxn(ops, j + 1, r.thread, r.session, rows[1..]);
      }
    }
  }

  /** The thread gets over a transaction if and only if each duplicate key in it comes before any statement has
      succeeded; then the transaction is committed with the duplicates passed over. */
  lemma {:induction false} GetsOverIff<K, V>(ops: seq<Op<K, V>>, th: Thread, db: map<K, V>, rows: seq<LogRow<K, V>>)
    requires Sqls(rows) == TxnSqls(ops)
    ensures ApplyRows(th, Session(db, Idle), rows).Continue? <==> GetsOver(ops, db)
    ensures GetsOver(ops, db) ==> ApplyRows(th, Session(db, Idle), rows) == Continue(Behind(th, rows), Session(Run(ops, db), Idle))
  {
    var s: Session<K, V> := Session(db, Idle);
    assert |rows| == |ops| + 2 && forall i | 0 <= i < |rows| :: rows[i].sql == Sqls(rows)[i];
    var r := ApplyRow(th, s, rows[0]);
    assert ops[..0] == [];
    assert TxnProgress(ops, 1, r.thread, r.session);
    assert forall i | 0 <= i < |rows| - 1 :: rows[1..][i] == rows[i + 1];
    RestOfTxn(ops, 1, r.thread, r.session, rows[1..]);
  }

  // ---- At every restart the same -----------------------------------------------------------------------------

  /** Nothing behind log transaction `e` has been committed, and the thread, if it runs, is in it or before it. */
  ghost predicate HeldUp<K, V>(txns: seq<seq<Op<K, V>>>, log: seq<LogRow<K, V>>, entries: seq<nat>, e: nat,
                               a: Apply<K, V>, j: nat, l: nat)
    requires Known(txns, entries) && e < |entries|
  {
    && Marks(txns, log, entries, a.durable, e)
    && (a.thread.None? ==> a.session.tx.Idle?)
    && (a.thread.Some? ==>
        && a.thread.value.applyId == a.durable && a.thread.value.nCommit == 0
        && j <= |txns[entries[e]]|
        && ThreadAt(txns, log, entries, a.thread.value, a.session, e, j, l)
        && (j > 0 ==> GetsOver(txns[entries[e]][..j - 1], a.session.db)))
  }

  lemma {:induction false} FetchHeldUp<K, V>(txns: seq<seq<Op<K, V>>>, log: seq<LogRow<K, V>>, entries: seq<nat>, e: nat,
                                             a: Apply<K, V>, a': Apply<K, V>, j: nat, l: nat)
    requires GoodLog(txns, log, entries) && e < |entries| && !GetsOver(txns[entries[e]], a.session.db)
    requires HeldUp(txns, log, entries, e, a, j, l) && Step(log, Fetch, a, a')
    ensures HeldUp(txns, log, entries, e, a', j + 1, l) && a'.session.db == a.session.db && a'.durable == a.durable
  {
    assert Known(txns, entries);
    hide GetsOver;
    hide Marks;
    hide TxnProgress;
    hide WholeLog;
    hide Chain;
    hide ApplyRow;
    var ops, th := txns[entries[e]], a.thread.value;
    assert e < l;
    FetchRowKeeps(txns, log, entries, th, a.session, e, j, l);
    if j > 0 {
      OverIt(txns, log, entries, th, a.session, e, j, l);
    } else {
      OverNothing(ops, a.session.db);
    }
    assert ops[..|ops|] == ops;
  }

  lemma {:induction false} OverNothing<K, V>(ops: seq<Op<K, V>>, db: map<K, V>)
    ensures GetsOver(ops[..0], db)
  {
  }

  /** The thread gets over one statement more. */
  lemma {:induction false} OverIt<K, V>(txns: seq<seq<Op<K, V>>>, log: seq<LogRow<K, V>>, entries: seq<nat>,
                                        th: Thread, s: Session<K, V>, e: nat, j: nat, l: nat)
    requires WholeLog(txns, log, entries) && ThreadAt(txns, log, entries, th, s, e, j, l) && e < l
    requires 0 < j <= |txns[entries[e]]| && GetsOver(txns[entries[e]][..j - 1], s.db)
    requires th.next < |log| && ApplyRow(th, s, log[th.next]).Continue?
    ensures GetsOver(txns[entries[e]][..j], s.db)
  {
    hide GetsOver;
    hide Marks;
    var ops := txns[entries[e]];
    RowOf(txns, log, entries, e, j);
    assert log[th.next].sql == TxnSqls(ops)[j] == Statement(ops[j - 1]);
    StatementRow(ops, j, th, s, log[th.next]);
    GetsOverSnoc(ops, j - 1, s.db);
  }

  lemma {:induction false} StepHeldUp<K, V>(txns: seq<seq<Op<K, V>>>, log: seq<LogRow<K, V>>, entries: seq<nat>, e: nat,
                                            ev: Event, a: Apply<K, V>, a': Apply<K, V>, j: nat, l: nat) returns (j': nat, l': nat)
    requires GoodLog(txns, log, entries) && e < |entries| && !GetsOver(txns[entries[e]], a.session.db)
    requires HeldUp(txns, log, entries, e, a, j, l) && Step(log, ev, a, a')
    ensures HeldUp(txns, log, entries, e, a', j', l') && a'.session.db == a.session.db && a'.durable == a.durable
  {
    match ev
    case Crash => j', l' := 0, e;
    case StartThread => j', l' := 0, e;
    case Declare =>
      AtLimit(txns, log, entries, a.thread.value, a.session, e, j, l);
      LogLength(txns, log, entries);
      j', l' := 0, |entries|;
    case Fetch =>
      FetchHeldUp(txns, log, entries, e, a, a', j, l);
      j', l' := j + 1, l;
    case WriteBack(_) => j', l' := j, l;
    case EndOfCursor(_) => j', l' := j, l;
  }

  lemma {:induction false} TraceHeldUp<K, V>(txns: seq<seq<Op<K, V>>>, log: seq<LogRow<K, V>>, entries: seq<nat>, e: nat,
                                             trace: seq<Apply<K, V>>, n: nat) returns (j: nat, l: nat)
    requires GoodLog(txns, log, entries) && e < |entries| && Trace(log, trace) && n < |trace|
    requires HeldUp(txns, log, entries, e, trace[0], 0, e) && !GetsOver(txns[entries[e]], trace[0].session.db)
    ensures HeldUp(txns, log, entries, e, trace[n], j, l)
    ensures trace[n].session.db == trace[0].session.db && trace[n].durable == trace[0].durable
  {
    j, l := 0, e;
    if n > 0 {
      j, l := TraceHeldUp(txns, log, entries, e, trace, n - 1);
      assert Moves(log, trace[n - 1], trace[n]);
      var ev :| Step(log, ev, trace[n - 1], trace[n]);
      j, l := StepHeldUp(txns, log, entries, e, ev, trace[n - 1], trace[n], j, l);
    }
  }

  /** A transaction that the thread does not get over stops it for good: whatever restarts follow, the target's
      tables and the durable position stay what they are. */
  lemma {:induction false} StopsForGood<K, V>(txns: seq<seq<Op<K, V>>>, log: seq<LogRow<K, V>>, entries: seq<nat>, e: nat,
                                              trace: seq<Apply<K, V>>, n: nat)
    requires GoodLog(txns, log, entries) && e < |entries| && Trace(log, trace) && n < |trace|
    requires trace[0].thread.None? && trace[0].session.tx.Idle? && Marks(txns, log, entries, trace[0].durable, e)
    requires !GetsOver(txns[entries[e]], trace[0].session.db)
    ensures trace[n].session.db == trace[0].session.db && trace[n].durable == trace[0].durable
  {
    var j, l := TraceHeldUp(txns, log, entries, e, trace, n);
  }

  // ---- Runs of the machine -----------------------------------------------------------------------------------

  lemma {:induction false} RowsCount<K, V>(th: Thread, s: Session<K, V>, rows: seq<LogRow<K, V>>)
    requires ApplyRows(th, s, rows).Continue?
    ensures var th' := ApplyRows(th, s, rows).thread;
      && th'.limit == th.limit && th'.next == th.next + |rows| && th.nCommit <= th'.nCommit
      && (!th.writing && th'.nCommit < CHECKPOINT_EVERY ==> !th'.writing)
    decreases |rows|
  {
    if rows != [] {
      var r := ApplyRow(th, s, rows[0]);
      RowsCount(r.thread, r.session, rows[1..]);
    }
  }

  /** Rows that the thread gets over, with no position to write in between, are steps of the machine. */
  lemma {:induction false} FetchMany<K, V>(log: seq<LogRow<K, V>>, a: Apply<K, V>, n: nat) returns (trace: seq<Apply<K, V>>)
    requires a.thread.Some? && a.thread.value.next + n <= a.thread.value.limit <= |log| && !a.thread.value.writing
    requires
      var r := ApplyRows(a.thread.value, a.session, log[a.thread.value.next..a.thread.value.next + n]);
      r.Continue? && r.thread.nCommit < CHECKPOINT_EVERY
    ensures Trace(log, trace) && trace[0] == a
    ensures
      var (r, z) := (ApplyRows(a.thread.value, a.session, log[a.thread.value.next..a.thread.value.next + n]), Last(trace));
      z.thread == Some(r.thread) && z.session == r.session && z.durable == a.durable
    decreases n
  {
    trace := [a];
    if n > 0 {
      var th := a.thread.value;
      var rows := log[th.next..th.next + n];
      var r := ApplyRow(th, a.session, rows[0]);
      RowsCount(r.thread, r.session, rows[1..]);
      var b := Apply(a.durable, r.session, Some(r.thread), Most(a.done, Commits(log[..r.thread.next])), a.lost);
      FetchStep(log, a, r.thread, r.session);
      assert log[r.thread.next..r.thread.next + (n - 1)] == rows[1..];
      var rest := FetchMany(log, b, n - 1);
      trace := [a] + rest;
      Joins(log, [a], Fetch, rest);
    }
  }

  /** A trace, a step, and a trace from there. */
  lemma {:induction false} Joins<K, V>(log: seq<LogRow<K, V>>, before: seq<Apply<K, V>>, ev: Event, after: seq<Apply<K, V>>)
    requires Trace(log, before) && Trace(log, after) && Step(log, ev, Last(before), after[0])
    ensures Trace(log, before + after) && (before + after)[0] == before[0] && Last(before + after) == Last(after)
  {
    var trace := before + after;
    forall i | 0 < i < |trace| ensures Moves(log, trace[i - 1], trace[i]) {
      if i < |before| {
        assert Moves(log, before[i - 1], before[i]);
      } else if i > |before| {
        assert Moves(log, after[i - |before| - 1], after[i - |before|]);
      }
    }
  }

  /** A new thread reads the log from the durable position to its end. */
  lemma {:induction false} ReadsLog<K, V>(log: seq<LogRow<K, V>>, a: Apply<K, V>) returns (trace: seq<Apply<K, V>>)
    requires a.thread.None? && Below(log, a.durable) <= |log|
    requires
      var n := Below(log, a.durable);
      var r := ApplyRows(Thread(a.durable, 0, SqlBegin, n, |log|, false), a.session, log[n..]);
      r.Continue? && r.thread.nCommit < CHECKPOINT_EVERY
    ensures Trace(log, trace) && trace[0] == a
    ensures
      var (n, z) := (Below(log, a.durable), Last(trace));
      && z.session == ApplyRows(Thread(a.durable, 0, SqlBegin, n, |log|, false), a.session, log[n..]).session
      && z.durable == a.durable && z.thread.Some? && z.thread.value.next == |log|
  {
    var n := Below(log, a.durable);
    var b := a.(thread := Some(Thread(a.durable, 0, SqlBegin, n, n, false)));
    var c := a.(thread := Some(Thread(a.durable, 0, SqlBegin, n, |log|, false)));
    assert Step(log, StartThread, a, b) && Step(log, Declare, b, c);
    assert log[n..n + (|log| - n)] == log[n..];
    var rest := FetchMany(log, c, |log| - n);
    RowsCount(c.thread.value, c.session, log[n..]);
    Joins(log, [b], Declare, rest);
    Joins(log, [a], StartThread, [b] + rest);
    trace := [a] + ([b] + rest);
  }

  // ---- Fixpoints ---------------------------------------------------------------------------------------------

  /** No statement of the log changes the tables. */
  ghost predicate Fixpoint<K, V>(log: seq<LogRow<K, V>>, db: map<K, V>) {
    forall i | 0 <= i < |log| && log[i].sql.Statement? :: Lenient(log[i].sql.op, db) == db
  }

  ghost predicate AtFixpoint<K, V>(a: Apply<K, V>, db: map<K, V>) {
    a.session.db == db && (a.session.tx.Open? ==> a.session.tx.work == db) && !a.session.tx.Failed?
  }

  /** Tables that no statement of the log changes stay as they are, however often the log is replayed. */
  lemma {:induction false} FixpointStays<K, V>(log: seq<LogRow<K, V>>, db: map<K, V>, trace: seq<Apply<K, V>>, n: nat)
    requires Fixpoint(log, db) && Trace(log, trace) && n < |trace| && AtFixpoint(trace[0], db)
    ensures AtFixpoint(trace[n], db)
  {
    if n > 0 {
      FixpointStays(log, db, trace, n - 1);
      assert Moves(log, trace[n - 1], trace[n]);
      var ev :| Step(log, ev, trace[n - 1], trace[n]);
    }
  }
}
