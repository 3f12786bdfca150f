/** What the receive thread's log looks like, with restarts of the process and clean reconnects inside it: whole
    source transactions, in an order that steps back but never skips. */
module ReceiveLog {
  import opened OptionType
  import opened Replay
  import opened SyncLog
  import opened ApplyProofs
  import opened Receive

  /** Connecting, again or for the first time, is clean when no local transaction is open and the stream goes on
      at most one transaction before what has been flushed, and may be acknowledged, and not behind the end of
      the log. */
  predicate CleanConnect<K, V>(src: seq<SrcTxn<K, V>>, r: Recv<K, V>) {
    var n := FirstFrom(src, Later(r.pos.startpos, r.confirmed));
    r.open.None? && FirstFrom(src, r.pos.flushpos) <= n + 1 && n <= Front(r.entries, |r.entries|)
  }

  ghost predicate LogShape<K, V>(src: seq<SrcTxn<K, V>>, r: Recv<K, V>) {
    && WholeLog(Txns(src), r.log, r.entries)
    && Chain(r.entries)
    && 0 < r.nextId
    && IdsBelow(r.log, r.nextId)
  }

  predicate IdsBelow<K, V>(rows: seq<LogRow<K, V>>, id: int) {
    rows != [] ==> rows[|rows| - 1].id < id
  }

  /** The open local transaction holds exactly the first `n` rows of `ops`. */
  ghost predicate OpenRows<K, V>(log: seq<LogRow<K, V>>, open: seq<LogRow<K, V>>, ops: seq<Op<K, V>>, n: nat, nextId: int)
    requires n <= |ops| + 2
  {
    && Sqls(open) == TxnSqls(ops)[..n]
    && Ascending(log + open)
    && IdsBelow(log + open, nextId)
  }

  ghost predicate OpenIs<K, V>(src: seq<SrcTxn<K, V>>, r: Recv<K, V>, m: Msg) {
    if m.row == 0 then r.open.None?
    else IsMsg(src, m) && r.open.Some? && OpenRows(r.log, r.open.value, src[m.txn].ops, m.row, r.nextId)
  }

  ghost predicate PositionsUpTo<K, V>(src: seq<SrcTxn<K, V>>, r: Recv<K, V>, n: nat) {
    && r.saved <= r.confirmed
    && FirstFrom(src, r.confirmed) <= n && FirstFrom(src, r.sent) <= n
  }

  ghost predicate PendingSound<K, V>(src: seq<SrcTxn<K, V>>, r: Recv<K, V>)
    requires CommitOrder(src)
  {
    r.pending.Some? ==>
      && IsMsg(src, r.pending.value)
      && r.pos.recvpos == MsgLsn(src, r.pending.value)
      && (r.stream.Some? ==> r.stream.value == NextMsg(src, r.pending.value))
  }

  /** The current message is no further than the front, and no position reaches past its transaction. */
  ghost predicate CurrentSound<K, V>(src: seq<SrcTxn<K, V>>, r: Recv<K, V>, m: Msg) {
    && m.txn <= Front(r.entries, |r.entries|)
    && (m.row > 0 ==> IsMsg(src, m))
    && PositionsUpTo(src, r, m.txn + 1) && FirstFrom(src, r.pos.flushpos) <= m.txn + 1
    && OpenIs(src, r, m)
  }

  ghost predicate LogInv<K, V>(src: seq<SrcTxn<K, V>>, r: Recv<K, V>)
    requires CommitOrder(src)
  {
    && LogShape(src, r)
    && PositionsUpTo(src, r, Front(r.entries, |r.entries|))
    && FirstFrom(src, r.pos.flushpos) <= Front(r.entries, |r.entries|)
    && PendingSound(src, r)
    && (Current(r).Some? ==> CurrentSound(src, r, Current(r).value))
    && (r.open.Some? ==> r.pos.flushpos > 0 && r.open.value != [] && NothingEnded(r.open.value))
  }

  lemma {:induction false} AscendingSnoc<K, V>(log: seq<LogRow<K, V>>, row: LogRow<K, V>)
    requires Ascending(log) && row.id > 0
    requires log != [] ==> log[|log| - 1].id < row.id
    ensures Ascending(log + [row])
  {
    assert (log + [row])[..|log|] == log;
  }

  lemma {:induction false} FirstFromZero<K, V>(src: seq<SrcTxn<K, V>>)
    requires CommitOrder(src)
    ensures FirstFrom(src, 0) == 0
  {
    if src != [] { assert SoundTxn(src[0]); }
  }

  /** A stored position reaches exactly as far as its message. */
  lemma {:induction false} MsgLsnReach<K, V>(src: seq<SrcTxn<K, V>>, m: Msg)
    requires CommitOrder(src) && IsMsg(src, m)
    ensures FirstFrom(src, MsgLsn(src, m)) <= NextMsg(src, m).txn
  {
    var n := FirstFrom(src, MsgLsn(src, m));
    if n > 0 {
      FirstFromSplits(src, MsgLsn(src, m), n - 1);
      MsgLsnCovers(src, m, n - 1);
    }
  }

  lemma {:induction false} OpenExtends<K, V>(log: seq<LogRow<K, V>>, open: seq<LogRow<K, V>>, ops: seq<Op<K, V>>, n: nat, id: int)
    requires n < |ops| + 2 && id > 0 && OpenRows(log, open, ops, n, id)
    ensures OpenRows(log, open + [LogRow(id, TxnSqls(ops)[n])], ops, n + 1, id + 1)
  {
    hide TxnSqls;
    hide Ascending;
    var row := LogRow(id, TxnSqls(ops)[n]);
    RowBehind(log, open, row);
    AscendingSnoc(log + open, row);
    assert TxnSqls(ops)[..n + 1] == TxnSqls(ops)[..n] + [row.sql];
  }

  lemma {:induction false} RowBehind<K, V>(log: seq<LogRow<K, V>>, open: seq<LogRow<K, V>>, row: LogRow<K, V>)
    ensures log + (open + [row]) == (log + open) + [row] && Sqls(open + [row]) == Sqls(open) + [row.sql]
  {
  }

  lemma {:induction false} OpenStarts<K, V>(log: seq<LogRow<K, V>>, ops: seq<Op<K, V>>, id: int)
    requires Ascending(log) && IdsBelow(log, id)
    ensures OpenRows(log, [], ops, 0, id)
  {
    assert log + [] == log;
  }

  /** The local transaction with the message about to be stored added. */
  lemma {:induction false} OpenWith<K, V>(src: seq<SrcTxn<K, V>>, r: Recv<K, V>, m: Msg)
    requires CommitOrder(src) && LogInv(src, r) && r.pending == Some(m) && IsMsg(src, m)
    ensures m.row > 0 <==> r.open.Some?
    ensures
      var open := if m.row == 0 then [] else r.open.value;
      OpenRows(r.log, open + [LogRow(r.nextId, TxnSqls(src[m.txn].ops)[m.row])], src[m.txn].ops, m.row + 1, r.nextId + 1)
  {
    if m.row == 0 {
      OpenStarts(r.log, src[m.txn].ops, r.nextId);
    }
    OpenExtends(r.log, if m.row == 0 then [] else r.open.value, src[m.txn].ops, m.row, r.nextId);
  }

  lemma {:induction false} MsgLsnPositive<K, V>(src: seq<SrcTxn<K, V>>, m: Msg)
    requires CommitOrder(src) && IsMsg(src, m)
    ensures MsgLsn(src, m) > 0
  {
    assert SoundTxn(src[m.txn]);
  }

  lemma {:induction false} RowKeepsLog<K, V>(src: seq<SrcTxn<K, V>>, r: Recv<K, V>, m: Msg, open: seq<LogRow<K, V>>, pos: Positions)
    requires CommitOrder(src) && LogInv(src, r) && r.pending == Some(m) && !IsCommit(src, m)
    requires OpenRows(r.log, open, src[m.txn].ops, m.row + 1, r.nextId + 1)
    requires pos.flushpos == r.pos.recvpos
    ensures LogInv(src, r.(open := Some(open), nextId := r.nextId + 1, pos := pos, pending := None))
  {
    hide OpenRows;
    hide WholeLog;
    hide Chain;
    hide FirstFrom;
    hide TxnSqls;
    MsgLsnReach(src, m);
    MsgLsnPositive(src, m);
    RowNotCommit(r.log, open, src[m.txn].ops, m.row, r.nextId + 1);
  }

  lemma {:induction false} RowNotCommit<K, V>(log: seq<LogRow<K, V>>, open: seq<LogRow<K, V>>, ops: seq<Op<K, V>>, n: nat, id: int)
    requires n <= |ops| && OpenRows(log, open, ops, n + 1, id)
    ensures open != [] && NothingEnded(open)
  {
    forall i | 0 <= i < |open| ensures !open[i].sql.CommitSql? {
      assert open[i].sql == Sqls(open)[i] == TxnSqls(ops)[i];
    }
  }

  lemma {:induction false} StoreRowKeeps<K, V>(src: seq<SrcTxn<K, V>>, r: Recv<K, V>, m: Msg)
    requires CommitOrder(src) && LogInv(src, r) && r.pending == Some(m) && !IsCommit(src, m)
    ensures LogInv(src, StoreMsg(src, r, m))
  {
    OpenWith(src, r, m);
    StoreRowIs(src, r, m);
    var open := (if m.row == 0 then [] else r.open.value) + [LogRow(r.nextId, TxnSqls(src[m.txn].ops)[m.row])];
    RowKeepsLog(src, r, m, open, r.pos.(flushpos := r.pos.recvpos));
  }

  lemma {:induction false} WholeLogExtends<K, V>(txns: seq<seq<Op<K, V>>>, log: seq<LogRow<K, V>>, entries: seq<nat>,
                                                 more: seq<LogRow<K, V>>, n: nat, id: int)
    requires WholeLog(txns, log, entries) && n < |txns|
    requires OpenRows(log, more, txns[n], |txns[n]| + 2, id)
    ensures WholeLog(txns, log + more, entries + [n])
  {
    assert TxnSqls(txns[n])[..|txns[n]| + 2] == TxnSqls(txns[n]);
    assert Sqls(log + more) == Sqls(log) + Sqls(more);
    StartGrows(txns, entries, n, |entries|);
  }

  lemma {:induction false} ChainExtends(entries: seq<nat>, n: nat)
    requires Chain(entries) && n <= Front(entries, |entries|)
    ensures Chain(entries + [n])
  {
    var entries' := entries + [n];
    forall i | 0 <= i < |entries'| ensures entries'[i] <= Front(entries', i) {
      if i < |entries| {
        assert entries[i] <= Front(entries, i);
      }
    }
  }

  lemma {:induction false} CommitKeepsLog<K, V>(src: seq<SrcTxn<K, V>>, r: Recv<K, V>, m: Msg, more: seq<LogRow<K, V>>, pos: Positions)
    requires CommitOrder(src) && LogInv(src, r) && r.pending == Some(m) && IsCommit(src, m)
    requires OpenRows(r.log, more, src[m.txn].ops, m.row + 1, r.nextId + 1)
    requires pos.flushpos == r.pos.recvpos
    ensures LogInv(src, r.(log := r.log + more, open := None, entries := r.entries + [m.txn],
                           nextId := r.nextId + 1, pos := pos, pending := None))
  {
    MsgLsnReach(src, m);
    WholeLogExtends(Txns(src), r.log, r.entries, more, m.txn, r.nextId + 1);
    ChainExtends(r.entries, m.txn);
  }

  /** Storing the COMMIT appends the whole transaction to the log. */
  lemma {:induction false} StoreCommitKeeps<K, V>(src: seq<SrcTxn<K, V>>, r: Recv<K, V>, m: Msg)
    requires CommitOrder(src) && LogInv(src, r) && r.pending == Some(m) && IsCommit(src, m)
    ensures LogInv(src, StoreMsg(src, r, m))
    ensures r.open.Some?
    ensures
      var more := r.open.value + [LogRow(r.nextId, TxnSqls(src[m.txn].ops)[m.row])];
      StoreMsg(src, r, m).log == r.log + more && StoreMsg(src, r, m).entries == r.entries + [m.txn]
  {
    OpenWith(src, r, m);
    StoreCommitIs(src, r, m);
    var more := r.open.value + [LogRow(r.nextId, TxnSqls(src[m.txn].ops)[m.row])];
    CommitKeepsLog(src, r, m, more, r.pos.(flushpos := r.pos.recvpos));
  }

  lemma {:induction false} ConnectKeepsLog<K, V>(src: seq<SrcTxn<K, V>>, r: Recv<K, V>, r': Recv<K, V>)
    requires CommitOrder(src) && LogInv(src, r) && Receive.Step(src, Connect, r, r')
    requires CleanConnect(src, r)
    ensures LogInv(src, r')
  {
    FirstFromZero(src);
    FirstFromMonotone(src, r.confirmed, Later(r.pos.startpos, r.confirmed));
  }

  /** The first connection of a process is always clean. */
  lemma {:induction false} FreshConnectIsClean<K, V>(src: seq<SrcTxn<K, V>>, r: Recv<K, V>)
    requires CommitOrder(src) && LogInv(src, r) && r.pos == ZERO
    ensures CleanConnect(src, r)
  {
    FirstFromZero(src);
    if r.confirmed < 0 { FirstFromMonotone(src, r.confirmed, 0); }
  }

  /** So is one after a report that followed the last stored transaction, when no other has been opened. */
  lemma {:induction false} ReportedConnectIsClean<K, V>(src: seq<SrcTxn<K, V>>, r: Recv<K, V>, k: nat)
    requires CommitOrder(src) && LogInv(src, r) && r.open.None? && k < |src|
    requires r.entries != [] && r.entries[|r.entries| - 1] == k
    requires r.pos.flushpos <= r.pos.startpos == src[k].endLsn
    ensures CleanConnect(src, r)
  {
    var from := Later(r.pos.startpos, r.confirmed);
    assert SoundTxn(src[k]);
    FirstFromSplits(src, r.pos.startpos, k);
    if k + 1 < |src| {
      FirstFromSplits(src, r.pos.startpos, k + 1);
    }
    FirstFromMonotone(src, r.pos.flushpos, from);
  }

  lemma {:induction false} ServerKeepsLog<K, V>(src: seq<SrcTxn<K, V>>, ev: Receive.Event, r: Recv<K, V>, r': Recv<K, V>)
    requires CommitOrder(src) && LogInv(src, r) && Receive.Step(src, ev, r, r')
    requires ev.AckArrives? || ev.SaveSlot? || ev.ServerCrash?
    ensures LogInv(src, r')
  {
    hide OpenRows;
    hide WholeLog;
    hide Chain;
    hide FirstFrom;
    FirstFromZero(src);
    if ev.AckArrives? {
      FirstFromMonotone(src, ev.x, r.sent);
    } else if ev.ServerCrash? {
      FirstFromMonotone(src, r.saved, r.confirmed);
    }
  }

  lemma {:induction false} MessageKeepsLog<K, V>(src: seq<SrcTxn<K, V>>, r: Recv<K, V>, r': Recv<K, V>)
    requires CommitOrder(src) && LogInv(src, r) && Receive.Step(src, Message, r, r')
    ensures LogInv(src, r')
  {
  }

  lemma {:induction false} ClientKeepsLog<K, V>(src: seq<SrcTxn<K, V>>, ev: Receive.Event, r: Recv<K, V>, r': Recv<K, V>)
    requires CommitOrder(src) && LogInv(src, r) && Receive.Step(src, ev, r, r')
    requires ev.Keepalive? || ev.Feedback? || ev.FeedbackFails? || ev.Disconnect? || ev.Restart?
    ensures LogInv(src, r')
  {
    hide OpenRows;
    hide WholeLog;
    hide Chain;
    hide FirstFrom;
    FirstFromZero(src);
  }

  lemma {:induction false} StepKeepsLog<K, V>(src: seq<SrcTxn<K, V>>, ev: Receive.Event, r: Recv<K, V>, r': Recv<K, V>)
    requires CommitOrder(src) && LogInv(src, r) && Receive.Step(src, ev, r, r')
    requires ev.Connect? ==> CleanConnect(src, r)
    ensures LogInv(src, r')
  {
    if ev.Connect? {
      ConnectKeepsLog(src, r, r');
    } else if ev.Store? {
      if IsCommit(src, r.pending.value) {
        StoreCommitKeeps(src, r, r.pending.value);
      } else {
        StoreRowKeeps(src, r, r.pending.value);
      }
    } else if ev.AckArrives? || ev.SaveSlot? || ev.ServerCrash? {
      ServerKeepsLog(src, ev, r, r');
    } else if ev.Message? {
      MessageKeepsLog(src, r, r');
    } else {
      ClientKeepsLog(src, ev, r, r');
    }
  }

  lemma {:induction false} InitLog<K, V>(src: seq<SrcTxn<K, V>>)
    requires CommitOrder(src)
    ensures LogInv(src, Init<K, V>())
  {
    FirstFromZero(src);
    assert Sqls(Init<K, V>().log) == Flatten(Txns(src), [], 0);
  }
}
