/** The local table `sync_sqls`: one row per statement, numbered by a bigserial, whole source
    transactions written as `begin;`, their statements and `commit;`. */
module SyncLog {
  import opened Replay

  datatype Sql<K, V> = BeginSql | CommitSql | Statement(op: Op<K, V>)

  datatype LogRow<K, V> = LogRow(id: int, sql: Sql<K, V>)

  function Statements<K, V>(ops: seq<Op<K, V>>): (s: seq<Sql<K, V>>)
    ensures |s| == |ops|
    ensures forall i | 0 <= i < |ops| :: s[i] == Statement(ops[i])
  {
    seq(|ops|, i requires 0 <= i < |ops| => Statement(ops[i]))
  }

  /** The rows of one source transaction. */
  function TxnSqls<K, V>(ops: seq<Op<K, V>>): (s: seq<Sql<K, V>>)
    ensures |s| == |ops| + 2
  {
    [BeginSql] + Statements(ops) + [CommitSql]
  }

  function Sqls<K, V>(rows: seq<LogRow<K, V>>): (s: seq<Sql<K, V>>)
    ensures |s| == |rows|
    ensures forall i | 0 <= i < |rows| :: s[i] == rows[i].sql
  {
    seq(|rows|, i requires 0 <= i < |rows| => rows[i].sql)
  }

  predicate Known<K, V>(txns: seq<seq<Op<K, V>>>, entries: seq<nat>) {
    forall i | 0 <= i < |entries| :: entries[i] < |txns|
  }

  /** The log that holds the first `n` of the source transactions `entries`, in that order. */
  function Flatten<K, V>(txns: seq<seq<Op<K, V>>>, entries: seq<nat>, n: nat): seq<Sql<K, V>>
    requires Known(txns, entries) && n <= |entries|
  {
    if n == 0 then [] else Flatten(txns, entries, n - 1) + TxnSqls(txns[entries[n - 1]])
  }

  /** Where log transaction `e` starts, and how many rows it has. */
  function Start<K, V>(txns: seq<seq<Op<K, V>>>, entries: seq<nat>, e: nat): nat
    requires Known(txns, entries) && e <= |entries|
  {
    if e == 0 then 0 else Start(txns, entries, e - 1) + Rows(txns, entries, e - 1)
  }

  function Rows<K, V>(txns: seq<seq<Op<K, V>>>, entries: seq<nat>, e: nat): nat
    requires Known(txns, entries) && e < |entries|
  {
    |txns[entries[e]]| + 2
  }

  lemma {:induction false} StartMonotone<K, V>(txns: seq<seq<Op<K, V>>>, entries: seq<nat>, a: nat, b: nat)
    requires Known(txns, entries) && a <= b <= |entries|
    ensures Start(txns, entries, a) + 2 * (b - a) <= Start(txns, entries, b)
    decreases b - a
  {
    if a < b {
      StartMonotone(txns, entries, a, b - 1);
    }
  }

  lemma {:induction false} FlattenLength<K, V>(txns: seq<seq<Op<K, V>>>, entries: seq<nat>, n: nat)
    requires Known(txns, entries) && n <= |entries|
    ensures |Flatten(txns, entries, n)| == Start(txns, entries, n)
  {
    if n > 0 {
      FlattenLength(txns, entries, n - 1);
    }
  }

  /** Row `j` of log transaction `e` is row `j` of its source transaction. */
  lemma {:induction false} FlattenRow<K, V>(txns: seq<seq<Op<K, V>>>, entries: seq<nat>, n: nat, e: nat, j: nat)
    requires Known(txns, entries) && e < n <= |entries| && j < Rows(txns, entries, e)
    ensures Start(txns, entries, e) + j < |Flatten(txns, entries, n)|
    ensures Flatten(txns, entries, n)[Start(txns, entries, e) + j] == TxnSqls(txns[entries[e]])[j]
  {
    FlattenLength(txns, entries, n - 1);
    if e < n - 1 {
      FlattenRow(txns, entries, n - 1, e, j);
    }
  }

  /** Positive ids that grow from row to row. */
  predicate Ascending<K, V>(log: seq<LogRow<K, V>>) {
    log != [] ==>
      var n := |log| - 1;
      && log[n].id > 0
      && (n > 0 ==> log[n - 1].id < log[n].id)
      && Ascending(log[..n])
  }

  lemma {:induction false} AscendingAt<K, V>(log: seq<LogRow<K, V>>, i: nat, j: nat)
    requires Ascending(log) && i <= j < |log|
    ensures 0 < log[i].id && (i < j ==> log[i].id < log[j].id)
  {
    var n := |log| - 1;
    if j < n {
      AscendingAt(log[..n], i, j);
    } else if i < n {
      AscendingAt(log[..n], i, n - 1);
    }
  }

  /** A log of whole transactions. */
  ghost predicate WholeLog<K, V>(txns: seq<seq<Op<K, V>>>, log: seq<LogRow<K, V>>, entries: seq<nat>) {
    && Known(txns, entries)
    && Ascending(log)
    && Sqls(log) == Flatten(txns, entries, |entries|)
  }

  lemma {:induction false} RowOf<K, V>(txns: seq<seq<Op<K, V>>>, log: seq<LogRow<K, V>>, entries: seq<nat>, e: nat, j: nat)
    requires WholeLog(txns, log, entries) && e < |entries| && j < Rows(txns, entries, e)
    ensures Start(txns, entries, e) + j < |log|
    ensures log[Start(txns, entries, e) + j].sql == TxnSqls(txns[entries[e]])[j]
  {
    FlattenRow(txns, entries, |entries|, e, j);
    assert log[Start(txns, entries, e) + j].sql == Sqls(log)[Start(txns, entries, e) + j];
  }

  lemma {:induction false} LogLength<K, V>(txns: seq<seq<Op<K, V>>>, log: seq<LogRow<K, V>>, entries: seq<nat>)
    requires WholeLog(txns, log, entries)
    ensures |log| == Start(txns, entries, |entries|)
  {
    FlattenLength(txns, entries, |entries|);
    assert |Sqls(log)| == |log|;
  }

  /** How many rows `SELECT … WHERE id > after ORDER BY id` passes over. */
  function Below<K, V>(log: seq<LogRow<K, V>>, after: int): nat {
    if log == [] || log[0].id > after then 0 else 1 + Below(log[1..], after)
  }

  lemma {:induction false} BelowSplits<K, V>(log: seq<LogRow<K, V>>, after: int)
    ensures Below(log, after) <= |log|
    ensures forall i | 0 <= i < Below(log, after) :: log[i].id <= after
    ensures Below(log, after) < |log| ==> log[Below(log, after)].id > after
  {
    if log != [] && log[0].id <= after {
      BelowSplits(log[1..], after);
      forall i | 0 <= i < Below(log, after) ensures log[i].id <= after {
        if i > 0 { assert log[i] == log[1..][i - 1]; }
      }
    }
  }

  lemma {:induction false} BelowIs<K, V>(log: seq<LogRow<K, V>>, after: int, n: nat)
    requires Ascending(log) && n <= |log|
    requires n > 0 ==> log[n - 1].id <= after
    requires n < |log| ==> log[n].id > after
    ensures Below(log, after) == n
  {
    BelowSplits(log, after);
    var m := Below(log, after);
    if m < n {
      AscendingAt(log, m, n - 1);
    }
  }

  predicate CommitRow<K, V>(log: seq<LogRow<K, V>>, n: int, id: int) {
    0 <= n < |log| && log[n] == LogRow(id, CommitSql)
  }

  /** The read position `after` stands right behind log transaction number `e` (counted from 1); 0
      stands at the start of the log.  So it is 0 or the id of a `commit;` row. */
  ghost predicate Marks<K, V>(txns: seq<seq<Op<K, V>>>, log: seq<LogRow<K, V>>, entries: seq<nat>, after: int, e: nat)
    requires Known(txns, entries)
  {
    && e <= |entries|
    && Below(log, after) == Start(txns, entries, e)
    && if e == 0 then after == 0 else CommitRow(log, Start(txns, entries, e) - 1, after)
  }

  // ---- Growth of the log -------------------------------------------------------------------------

  lemma {:induction false} StartGrows<K, V>(txns: seq<seq<Op<K, V>>>, entries: seq<nat>, n: nat, e: nat)
    requires Known(txns, entries) && Known(txns, entries + [n]) && e <= |entries|
    ensures Start(txns, entries + [n], e) == Start(txns, entries, e)
    ensures Flatten(txns, entries + [n], e) == Flatten(txns, entries, e)
  {
    if e > 0 {
      StartGrows(txns, entries, n, e - 1);
    }
  }

  lemma {:induction false} BelowGrows<K, V>(log: seq<LogRow<K, V>>, more: seq<LogRow<K, V>>, after: int)
    requires more != [] ==> more[0].id > after
    ensures Below(log + more, after) == Below(log, after)
  {
    if log == [] {
      assert log + more == more;
    } else {
      assert (log + more)[1..] == log[1..] + more;
      BelowGrows(log[1..], more, after);
    }
  }

  /** Positions keep their meaning when the log grows. */
  lemma {:induction false} MarksGrow<K, V>(txns: seq<seq<Op<K, V>>>, log: seq<LogRow<K, V>>, entries: seq<nat>,
                        more: seq<LogRow<K, V>>, n: nat, after: int, e: nat)
    requires Known(txns, entries) && Known(txns, entries + [n])
    requires Ascending(log + more) && Marks(txns, log, entries, after, e)
    ensures Marks(txns, log + more, entries + [n], after, e)
  {
    StartGrows(txns, entries, n, e);
    if more != [] {
      assert (log + more)[|log|] == more[0];
      AscendingAt(log + more, |log|, |log|);
      if e > 0 {
        var s := Start(txns, entries, e);
        assert (log + more)[s - 1] == log[s - 1];
        AscendingAt(log + more, s - 1, |log|);
      }
    }
    BelowGrows(log, more, after);
  }
}
