/** Runs of the apply thread in which replaying a log does harm, and why they are outside what is promised. */
module ThreadMishaps {
  import opened OptionType
  import opened Replay
  import opened SyncLog
  import opened ApplyThread
  import opened ApplyProofs
  import opened ApplyLoop
  import opened ThreadStops

  function FreshStart<K, V>(db: map<K, V>): Apply<K, V> { Apply(0, Session(db, Idle), None, 0, 0) }

  /** The rows of one transaction, numbered from `id` on. */
  function Block<K, V>(id: int, ops: seq<Op<K, V>>): (rows: seq<LogRow<K, V>>)
    ensures Sqls(rows) == TxnSqls(ops)
  {
    seq(|ops| + 2, i requires 0 <= i < |ops| + 2 => LogRow(id + i, TxnSqls(ops)[i]))
  }

  /** Two transactions that the thread gets over, read from the start of the log. */
  lemma {:induction false} ReadsTwo<K, V>(a: Apply<K, V>, x: seq<Op<K, V>>, y: seq<Op<K, V>>) returns (trace: seq<Apply<K, V>>)
    requires a.thread.None? && a.session.tx.Idle? && a.durable == 0
    requires GetsOver(x, a.session.db) && GetsOver(y, Run(x, a.session.db))
    ensures var log := Block(1, x) + Block(|x| + 3, y);
      && Trace(log, trace) && trace[0] == a && Last(trace).durable == 0
      && Last(trace).session == Session(Run(y, Run(x, a.session.db)), Idle)
  {
    var log := Block(1, x) + Block(|x| + 3, y);
    var th := Thread(0, 0, SqlBegin, 0, |log|, false);
    assert Below(log, 0) == 0 && log[0..] == log;
    GetsOverIff(x, th, a.session.db, Block(1, x));
    ApplyRowsAppend(th, a.session, Block(1, x), Block(|x| + 3, y));
    GetsOverIff(y, Behind(th, Block(1, x)), Run(x, a.session.db), Block(|x| + 3, y));
    trace := ReadsLog(log, a);
  }

  // ---- A key that is inserted and changed ----------------------------------------------------------------------

  const INSERTED: seq<Op<int, char>> := [Insert(1, 'a')]
  const MOVED: seq<Op<int, char>> := [Rekey(1, 2, 'a')]

  lemma {:induction false} OneOp<K, V>(op: Op<K, V>, db: map<K, V>)
    ensures Run([op], db) == Lenient(op, db) && GetsOver([op], db)
    ensures ValidRun([op], db) <==> Applicable(op, db)
  {
    var ops := [op];
    assert ops[1..] == [] && ops[..0] == [];
  }

  function MovedLog(): seq<LogRow<int, char>> { Block(1, INSERTED) + Block(4, MOVED) }

  /** The row under its new key, and under both. */
  const ONCE: map<int, char> := map[2 := 'a']
  const TWICE: map<int, char> := map[1 := 'a', 2 := 'a']

  lemma {:induction false} MovedRuns()
    ensures ValidRun(INSERTED + MOVED, map[]) && Run(INSERTED + MOVED, map[]) == ONCE
    ensures Run(MOVED, Run(INSERTED, map[])) == ONCE && Run(MOVED, Run(INSERTED, ONCE)) == TWICE
    ensures forall db: map<int, char> :: GetsOver(INSERTED, db) && GetsOver(MOVED, db)
  {
    var none: map<int, char> := map[];
    OneOp(INSERTED[0], none);
    OneOp(MOVED[0], map[1 := 'a']);
    RunAppend(INSERTED, MOVED, none);
    ValidAppend(INSERTED, MOVED, none);
    OneOp(INSERTED[0], ONCE);
    OneOp(MOVED[0], TWICE);
    forall db: map<int, char> ensures GetsOver(INSERTED, db) && GetsOver(MOVED, db) {
      OneOp(INSERTED[0], db);
      OneOp(MOVED[0], db);
    }
  }

  /** The thread has read the log, stops before its position is written, and reads it again. */
  lemma {:induction false} ReadTwice() returns (trace: seq<Apply<int, char>>, n: nat)
    ensures Trace(MovedLog(), trace) && trace[0] == FreshStart(map[]) && n < |trace|
    ensures trace[n].session == Session(ONCE, Idle) && Last(trace).session == Session(TWICE, Idle)
  {
    MovedRuns();
    hide GetsOver;
    hide Run;
    var first := ReadsTwo(FreshStart(map[]), INSERTED, MOVED);
    var crashed := Last(first).(thread := None, session := Last(first).session.(tx := Idle));
    var again := ReadsTwo(crashed, INSERTED, MOVED);
    Joins(MovedLog(), first, Crash, again);
    trace, n := first + again, |first| - 1;
    assert trace[n] == Last(first);
  }

  /** Two transactions, an INSERT and a change of its key.  The thread applies both and stops before its position
      is written; the next one applies both again, and the row is there twice.  So it stays, whatever is replayed
      and however often. */
  lemma {:induction false} RekeyDiverges()
    ensures ValidRun(INSERTED + MOVED, map[]) && Run(INSERTED + MOVED, map[]) == ONCE
    ensures exists trace: seq<Apply<int, char>>, n: nat ::
      && Trace(MovedLog(), trace) && trace[0] == FreshStart(map[]) && n < |trace|
      && trace[n].session == Session(ONCE, Idle) && Last(trace).session == Session(TWICE, Idle)
    ensures forall trace: seq<Apply<int, char>>, n: nat ::
      Trace(MovedLog(), trace) && n < |trace| && trace[0].session == Session(TWICE, Idle) ==> trace[n].session.db == TWICE
  {
    MovedRuns();
    var trace, n := ReadTwice();
    assert Fixpoint(MovedLog(), TWICE);
    forall trace: seq<Apply<int, char>>, n: nat
      | Trace(MovedLog(), trace) && n < |trace| && trace[0].session == Session(TWICE, Idle)
      ensures trace[n].session.db == TWICE
    {
      FixpointStays(MovedLog(), TWICE, trace, n);
    }
  }

  // ---- A duplicate behind a statement that succeeds ------------------------------------------------------------

  const LATE: seq<Op<int, char>> := [Update(1, 'b'), Insert(2, 'c')]

  lemma {:induction false} LateRuns()
    ensures ValidRun(LATE, map[1 := 'a']) && GetsOver(LATE, map[1 := 'a'])
    ensures Run(LATE, map[1 := 'a']) == map[1 := 'b', 2 := 'c'] && !GetsOver(LATE, map[1 := 'b', 2 := 'c'])
  {
    var a: map<int, char>, b: map<int, char> := map[1 := 'a'], map[1 := 'b', 2 := 'c'];
    var u: Op<int, char>, i: Op<int, char> := LATE[0], LATE[1];
    assert LATE == [u] + [i] && LATE[..0] == [] && LATE[..1] == [u];
    OneOp(u, a);
    OneOp(i, map[1 := 'b']);
    OneOp(u, b);
    RunAppend([u], [i], a);
    ValidAppend([u], [i], a);
    assert Survivors([u], b) == [u] + Survivors([u][1..], Lenient(u, b));
    assert Exec(LATE[1], Run(LATE[..1], b)).DuplicateKey?;
  }

  lemma {:induction false} LateLog()
    ensures GoodLog([LATE], Block(1, LATE), [0]) && Below(Block(1, LATE), 0) == 0
  {
    var rows := Block(1, LATE);
    assert |rows| == 4 && forall i | 0 <= i < 4 :: rows[i].id == 1 + i;
    assert rows[..1][..0] == [] && rows[..2][..1] == rows[..1] && rows[..3][..2] == rows[..2];
    assert Ascending(rows[..1]) && Ascending(rows[..2]) && Ascending(rows[..3]) && Ascending(rows);
    OneEntry([LATE], 0);
    var entries: seq<nat> := [0];
    assert [LATE][0] == LATE && Sqls(rows) == TxnSqls(LATE);
    assert Known([LATE], entries) && WholeLog([LATE], rows, entries);
  }

  lemma {:induction false} OneEntry<K, V>(txns: seq<seq<Op<K, V>>>, n: nat)
    requires n < |txns|
    ensures Known(txns, [n]) && Flatten(txns, [n], 1) == TxnSqls(txns[n])
  {
    assert Flatten(txns, [n], 0) == [];
    assert Flatten(txns, [n], 1) == Flatten(txns, [n], 0) + TxnSqls(txns[n]);
  }

  /** An UPDATE and an INSERT in one transaction.  The thread gets over it once; if it stops before its position is
      written, the next one finds the INSERT's key taken behind an UPDATE that succeeded and ends, and so does every
      one after it: the position stays where it is, and so do the tables. */
  lemma {:induction false} LateDuplicateStops(trace: seq<Apply<int, char>>, n: nat)
    requires Trace(Block(1, LATE), trace) && n < |trace|
    requires trace[0] == Apply(0, Session(map[1 := 'b', 2 := 'c'], Idle), None, trace[0].done, trace[0].lost)
    ensures ValidRun(LATE, map[1 := 'a']) && GetsOver(LATE, map[1 := 'a']) && Run(LATE, map[1 := 'a']) == map[1 := 'b', 2 := 'c']
    ensures trace[n].durable == 0 && trace[n].session.db == map[1 := 'b', 2 := 'c']
  {
    LateRuns();
    LateLog();
    StopsForGood([LATE], Block(1, LATE), [0], 0, trace, n);
  }
}
