/** Exactly which failed reports can cost rows: those that drop a COMMIT whose transaction is not in the log, when a
    row of the next transaction can be reported before that one's COMMIT. */
module FailureLoss {
  import opened OptionType
  import opened Replay
  import opened SyncLog
  import opened Receive
  import opened ReceivePlay
  import opened FailedFeedback

  // ---- Loss ----------------------------------------------------------------------------------------------------

  /** The rows of the transaction but its COMMIT, in one piece, at row `a`. */
  predicate RowsAt<K(==), V(==)>(sqls: seq<Sql<K, V>>, a: int, ops: seq<Op<K, V>>) {
    0 <= a && a + |ops| + 1 <= |sqls| && sqls[a..a + |ops| + 1] == TxnSqls(ops)[..|ops| + 1]
  }

  /** BEGIN and all statements of the transaction are there. */
  ghost predicate Holds<K, V>(rows: seq<LogRow<K, V>>, ops: seq<Op<K, V>>) {
    exists a :: RowsAt(Sqls(rows), a, ops)
  }

  /** The server has been told that transaction `k` is done, for good; the process starts anew, and the log does not
      hold it. */
  ghost predicate Lost<K, V>(src: seq<SrcTxn<K, V>>, r: Recv<K, V>, k: nat) {
    && k < |src| && src[k].commitLsn < r.confirmed && src[k].commitLsn < r.saved && !Holds(r.log, src[k].ops)
    && r.stream.None? && r.pending.None? && r.open.None? && r.pos == ZERO
  }

  /** Steps without a further failure lead there. */
  ghost predicate ComesToLose<K, V>(src: seq<SrcTxn<K, V>>, r: Recv<K, V>)
    requires CommitOrder(src)
  {
    exists evs, k: nat :: Unfailing(evs) && Play(src, evs, r).Some? && Lost(src, Play(src, evs, r).value, k)
  }

  /** The COMMIT in hand belongs to a transaction that the log does not hold. */
  ghost predicate MissingCommit<K, V>(src: seq<SrcTxn<K, V>>, r: Recv<K, V>) {
    UnstoredCommit(src, r) && !Holds(r.log, src[r.pending.value.txn].ops)
  }

  /** Message `j` of the next transaction, not its COMMIT, lies behind the commit record of transaction `k`. */
  predicate RowBehind<K, V>(src: seq<SrcTxn<K, V>>, k: nat, j: nat)
    requires CommitOrder(src)
  {
    k + 1 < |src| && j <= |src[k + 1].ops| && src[k].commitLsn < MsgLsn(src, Msg(k + 1, j))
  }

  // ---- How it comes to that ------------------------------------------------------------------------------------

  /** The first rows of a transaction delivered: they are held, and the last of them is the flush position. */
  lemma {:induction false} DeliverRows<K, V>(src: seq<SrcTxn<K, V>>, r: Recv<K, V>, i: nat, a: nat, n: nat) returns (r': Recv<K, V>)
    requires CommitOrder(src) && i < |src| && n > 0 && a + n <= |src[i].ops| + 1
    requires r.pending.None? && r.stream == Some(Msg(i, a)) && (a > 0 ==> r.open.Some?)
    ensures Play(src, Deliveries(n), r) == Some(r')
    ensures r'.stream.Some? && r'.pending.None? && r'.pos.flushpos == MsgLsn(src, Msg(i, a + n - 1))
    ensures r'.log == r.log && r'.sent == r.sent && r'.confirmed == r.confirmed
    decreases n
  {
    var m := RowDelivered(src, r, i, a);
    DeliverRow(src, r, i, a);
    assert Deliveries(n) == [Message, Store] + Deliveries(n - 1);
    if n == 1 {
      r' := m;
      assert Deliveries(0) == [] && Deliveries(1) == [Message, Store];
    } else {
      r' := DeliverRows(src, m, i, a + 1, n - 1);
      PlayThen(src, [Message, Store], Deliveries(n - 1), r, m, r');
    }
  }

  /** Reported, acknowledged, saved, and started anew. */
  function MakeFinal(x: int): seq<Event> { [Feedback] + [AckArrives(x)] + [SaveSlot] + [Restart] }

  lemma {:induction false} MadeFinal<K, V>(src: seq<SrcTxn<K, V>>, r: Recv<K, V>)
    requires CommitOrder(src) && r.stream.Some? && r.confirmed < r.pos.flushpos
    ensures
      var x := r.pos.flushpos;
      Play(src, MakeFinal(x), r) ==
        Some(r.(pos := ZERO, pending := None, stream := None, open := None, confirmed := x, saved := x,
                sent := Later(r.sent, x), acked := Later(r.acked, x)))
  {
    var x := r.pos.flushpos;
    var r1 := Do(src, Feedback, r);
    var r2 := Do(src, AckArrives(x), r1);
    var r3 := Do(src, SaveSlot, r2);
    var r4 := Do(src, Restart, r3);
    PlayOne(src, Feedback, r);
    PlayOne(src, AckArrives(x), r1);
    PlayOne(src, SaveSlot, r2);
    PlayOne(src, Restart, r3);
    PlayThen(src, [Feedback], [AckArrives(x)], r, r1, r2);
    PlayThen(src, [Feedback] + [AckArrives(x)], [SaveSlot], r, r2, r3);
    PlayThen(src, [Feedback] + [AckArrives(x)] + [SaveSlot], [Restart], r, r3, r4);
  }

  /** The stream goes on with the next transaction; a row of it is held and reported; then the process ends. */
  lemma {:induction false} FailureLoses<K, V>(src: seq<SrcTxn<K, V>>, r: Recv<K, V>, r': Recv<K, V>, j: nat)
    requires CommitOrder(src) && SafeInv(src, r) && Step(src, FeedbackFails, r, r')
    requires MissingCommit(src, r) && RowBehind(src, r.pending.value.txn, j)
    ensures ComesToLose(src, r')
  {
    hide Play;
    hide Stored;
    hide FirstFrom;
    hide AtMsg;
    var k := r.pending.value.txn;
    GoesOnBehind(src, r, r');
    var r1 := Do(src, Connect, r');
    PlayOne(src, Connect, r');
    var r2 := DeliverRows(src, r1, k + 1, 0, j + 1);
    MadeFinal(src, r2);
    var x := r2.pos.flushpos;
    var z := Play(src, MakeFinal(x), r2).value;
    PlayThen(src, [Connect], Deliveries(j + 1), r', r1, r2);
    PlayThen(src, [Connect] + Deliveries(j + 1), MakeFinal(x), r', r2, z);
    assert Lost(src, z, k);
    assert Unfailing([Connect] + Deliveries(j + 1) + MakeFinal(x));
  }

  // ---- For good ------------------------------------------------------------------------------------------------

  /** The server goes on behind transaction `k`, after a crash too. */
  predicate PassedOver<K, V>(src: seq<SrcTxn<K, V>>, r: Recv<K, V>, k: nat) {
    && k < |src| && src[k].commitLsn < r.confirmed && src[k].commitLsn < r.saved
    && (r.stream.Some? ==> r.stream.value.txn > k) && (r.pending.Some? ==> r.pending.value.txn > k)
  }

  lemma {:induction false} StepPassesOver<K, V>(src: seq<SrcTxn<K, V>>, ev: Event, r: Recv<K, V>, r': Recv<K, V>, k: nat)
    requires CommitOrder(src) && Step(src, ev, r, r') && PassedOver(src, r, k)
    ensures PassedOver(src, r', k)
    ensures r'.entries == r.entries || exists e :: e != k && r'.entries == r.entries + [e]
  {
    if ev.Connect? {
      FirstFromSplits(src, Later(r.pos.startpos, r.confirmed), k);
    }
  }

  /** Whatever happens from then on, failures and crashes too: transaction `k` never gets into the log again. */
  lemma {:induction false} LostForGood<K, V>(src: seq<SrcTxn<K, V>>, evs: seq<Event>, r: Recv<K, V>, k: nat)
    requires CommitOrder(src) && PassedOver(src, r, k) && Play(src, evs, r).Some?
    ensures
      var z := Play(src, evs, r).value;
      PassedOver(src, z, k) && |z.entries| >= |r.entries| && forall i | |r.entries| <= i < |z.entries| :: z.entries[i] != k
  {
    hide PassedOver;
    if evs != [] {
      var r' := Do(src, evs[0], r);
      StepPassesOver(src, evs[0], r, r', k);
      LostForGood(src, evs[1..], r', k);
      KeepsEntries(src, evs[1..], r');
    }
  }

  lemma {:induction false} KeepsEntries<K, V>(src: seq<SrcTxn<K, V>>, evs: seq<Event>, r: Recv<K, V>)
    requires CommitOrder(src) && Play(src, evs, r).Some?
    ensures r.entries <= Play(src, evs, r).value.entries
  {
    if evs != [] {
      KeepsEntries(src, evs[1..], Do(src, evs[0], r));
    }
  }

  // ---- Why it does not otherwise -------------------------------------------------------------------------------

  /** The state with rows in front of the log; no step looks at those. */
  function Behind<K, V>(p: seq<LogRow<K, V>>, r: Recv<K, V>): Recv<K, V> { r.(log := p + r.log) }

  lemma {:induction false} StepBehind<K, V>(src: seq<SrcTxn<K, V>>, ev: Event, p: seq<LogRow<K, V>>, r: Recv<K, V>, r': Recv<K, V>)
    requires CommitOrder(src) && Step(src, ev, r, r')
    ensures Step(src, ev, Behind(p, r), Behind(p, r'))
  {
    if ev.Store? {
      forall more: seq<LogRow<K, V>> ensures p + (r.log + more) == (p + r.log) + more {
      }
    }
  }

  lemma {:induction false} StoredBehind<K, V>(p: seq<LogRow<K, V>>, log: seq<LogRow<K, V>>, ops: seq<Op<K, V>>)
    requires Stored(log, ops)
    ensures Stored(p + log, ops)
  {
    var a :| BlockAt(Sqls(log), a, ops);
    assert Sqls(p + log)[|p| + a..|p| + a + |ops| + 2] == Sqls(log)[a..a + |ops| + 2];
    assert BlockAt(Sqls(p + log), |p| + a, ops);
  }

  lemma {:induction false} StoredHolds<K, V>(log: seq<LogRow<K, V>>, ops: seq<Op<K, V>>)
    requires Stored(log, ops)
    ensures Holds(log, ops)
  {
    var a :| BlockAt(Sqls(log), a, ops);
    assert Sqls(log)[a..a + |ops| + 1] == Sqls(log)[a..a + |ops| + 2][..|ops| + 1];
    assert RowsAt(Sqls(log), a, ops);
  }

  lemma {:induction false} HoldsBetween<K, V>(a: seq<LogRow<K, V>>, rows: seq<LogRow<K, V>>, b: seq<LogRow<K, V>>, ops: seq<Op<K, V>>)
    requires Holds(rows, ops)
    ensures Holds(a + rows + b, ops)
  {
    var i :| RowsAt(Sqls(rows), i, ops);
    assert Sqls(a + rows + b)[|a| + i..|a| + i + |ops| + 1] == Sqls(rows)[i..i + |ops| + 1];
    assert RowsAt(Sqls(a + rows + b), |a| + i, ops);
  }

  /** Behind one whole transaction another one is in the log, or it is that one. */
  lemma {:induction false} StoredBehindOne<K, V>(p: seq<LogRow<K, V>>, one: seq<Op<K, V>>, log: seq<LogRow<K, V>>, ops: seq<Op<K, V>>)
    requires Sqls(p) == TxnSqls(one) && Stored(p + log, ops)
    ensures Stored(log, ops) || ops == one
  {
    var all := Sqls(p + log);
    var a :| BlockAt(all, a, ops);
    assert all[0..|one| + 2] == Sqls(p);
    assert BlockAt(all, 0, one);
    BlockRow(all, 0, one, |one| + 1);
    if a >= |p| {
      assert Sqls(log)[a - |p|..a - |p| + |ops| + 2] == all[a..a + |ops| + 2];
      assert BlockAt(Sqls(log), a - |p|, ops);
    } else {
      BlockRow(all, a, ops, if a + |ops| < |one| then a + |ops| + 1 else |one| + 1);
      if a + |ops| < |one| {
        BlockRow(all, 0, one, a + |ops| + 1);
      }
      EndTogether(all, a, ops, 0, one);
    }
  }

  /** The rows of transaction `k` are held, and no position the server knows or will be told covers its commit. */
  ghost predicate Carried<K, V>(src: seq<SrcTxn<K, V>>, r: Recv<K, V>, k: nat)
    requires k < |src|
  {
    var x := src[k].commitLsn;
    && r.open.Some? && Holds(r.open.value, src[k].ops) && StoredBelow(src, r.log, k)
    && r.confirmed <= x && r.saved <= x && r.sent <= x && r.acked <= x && r.pos.flushpos <= x
    && (Current(r).Some? ==> Current(r).value.txn <= k + 1)
    && (k + 1 < |src| ==>
        || (r.pos.startpos <= src[k + 1].commitLsn && r.pos.recvpos <= src[k + 1].commitLsn)
        || r.pending == Some(Msg(k + 1, |src[k + 1].ops| + 1)))
  }

  /** With transaction `k` in front of the log the state is safe; and its rows are in the log, or held, or are not
      missing. */
  ghost predicate NotMissing<K, V>(src: seq<SrcTxn<K, V>>, p: seq<LogRow<K, V>>, k: nat, r: Recv<K, V>)
    requires CommitOrder(src) && k < |src|
  {
    && Sqls(p) == TxnSqls(src[k].ops) && SafeInv(src, Behind(p, r))
    && (Carried(src, r, k) || Holds(r.log, src[k].ops) || SafeInv(src, r))
  }

  lemma {:induction false} NothingLost<K, V>(src: seq<SrcTxn<K, V>>, p: seq<LogRow<K, V>>, k: nat, r: Recv<K, V>, i: nat)
    requires CommitOrder(src) && k < |src| && NotMissing(src, p, k, r) && i < |src| && src[i].commitLsn < r.confirmed
    ensures Holds(r.log, src[i].ops)
  {
    if SafeInv(src, r) {
      StoredHolds(r.log, src[i].ops);
    } else if Holds(r.log, src[k].ops) {
      assert Stored(p + r.log, src[i].ops);
      StoredBehindOne(p, src[k].ops, r.log, src[i].ops);
      if Stored(r.log, src[i].ops) {
        StoredHolds(r.log, src[i].ops);
      }
    } else {
      assert SoundTxn(src[k]);
      assert i < k;
      StoredHolds(r.log, src[i].ops);
    }
  }

  /** When the process ends, the server sends again what was held. */
  lemma {:induction false} RestartCarried<K, V>(src: seq<SrcTxn<K, V>>, r: Recv<K, V>, k: nat)
    requires CommitOrder(src) && k < |src| && Carried(src, r, k)
    ensures SafeInv(src, Do(src, Restart, r))
  {
    forall i | 0 <= i < |src| ensures src[i].commitLsn > 0 { assert SoundTxn(src[i]); }
    forall i | 0 <= i < |src| && src[i].commitLsn < src[k].commitLsn ensures i < k {
      assert SoundTxn(src[k]);
    }
  }

  lemma {:induction false} StoreCarried<K, V>(src: seq<SrcTxn<K, V>>, r: Recv<K, V>, k: nat, p: seq<LogRow<K, V>>)
    requires CommitOrder(src) && k < |src| && Carried(src, r, k) && r.pending.Some? && SafeInv(src, Behind(p, r))
    requires forall j: nat | k + 1 < |src| && j <= |src[k + 1].ops| :: !RowBehind(src, k, j)
    ensures var r' := StoreMsg(src, r, r.pending.value); Carried(src, r', k) || Holds(r'.log, src[k].ops)
  {
    hide StoreMsg;
    hide StoredBelow;
    hide Covered;
    hide AtMsg;
    hide Holds;
    hide TxnSqls;
    var m := r.pending.value;
    var row := LogRow(r.nextId, TxnSqls(src[m.txn].ops)[m.row]);
    assert SoundTxn(src[k]) && SoundTxn(src[m.txn]);
    HoldsBetween([], r.open.value, [row], src[k].ops);
    assert [] + r.open.value + [row] == r.open.value + [row];
    if IsCommit(src, m) {
      StoreCommitIs(src, r, m);
      HoldsBetween(r.log, r.open.value, [row], src[k].ops);
      assert r.log + r.open.value + [row] == r.log + (r.open.value + [row]);
    } else {
      StoreRowIs(src, r, m);
      if m.txn == k + 1 {
        assert !RowBehind(src, k, m.row);
      }
    }
  }

  lemma {:induction false} ConnectCarried<K, V>(src: seq<SrcTxn<K, V>>, r: Recv<K, V>, k: nat)
    requires CommitOrder(src) && k < |src| && Carried(src, r, k) && Enabled(src, Connect, r)
    ensures Carried(src, Do(src, Connect, r), k)
  {
    hide Holds;
    hide StoredBelow;
    assert SoundTxn(src[k]);
    if k + 1 < |src| {
      FirstFromSplits(src, Later(r.pos.startpos, r.confirmed), k + 1);
    }
  }

  lemma {:induction false} ReceiveCarried<K, V>(src: seq<SrcTxn<K, V>>, ev: Event, r: Recv<K, V>, r': Recv<K, V>, k: nat)
    requires CommitOrder(src) && k < |src| && Carried(src, r, k) && Step(src, ev, r, r')
    requires ev.Message? || ev.Keepalive? || ev.Feedback? || ev.Disconnect? || ev.AckArrives? || ev.SaveSlot? || ev.ServerCrash?
    ensures Carried(src, r', k)
  {
    hide Holds;
    hide StoredBelow;
    assert SoundTxn(src[k]);
    if r.stream.Some? && r.stream.value.txn < |src| {
      assert SoundTxn(src[r.stream.value.txn]);
    }
  }

  lemma {:induction false} StepNotMissing<K, V>(src: seq<SrcTxn<K, V>>, p: seq<LogRow<K, V>>, k: nat, ev: Event, r: Recv<K, V>, r': Recv<K, V>)
    requires CommitOrder(src) && k < |src| && NotMissing(src, p, k, r) && Step(src, ev, r, r') && !ev.FeedbackFails?
    requires Holds(r.log, src[k].ops) || forall j: nat | k + 1 < |src| && j <= |src[k + 1].ops| :: !RowBehind(src, k, j)
    ensures NotMissing(src, p, k, r') && (Holds(r.log, src[k].ops) ==> Holds(r'.log, src[k].ops))
  {
    hide Carried;
    hide SafeInv;
    hide RowBehind;
    StepBehind(src, ev, p, r, r');
    StepSafe(src, ev, Behind(p, r), Behind(p, r'));
    if SafeInv(src, r) {
      StepSafe(src, ev, r, r');
    }
    LogKept(src, ev, r, r', src[k].ops);
    if Carried(src, r, k) && !Holds(r.log, src[k].ops) {
      match ev
      case Connect => ConnectCarried(src, r, k);
      case Store => StoreCarried(src, r, k, p);
      case Restart => RestartCarried(src, r, k);
      case _ => ReceiveCarried(src, ev, r, r', k);
    }
  }

  lemma {:induction false} LogKept<K, V>(src: seq<SrcTxn<K, V>>, ev: Event, r: Recv<K, V>, r': Recv<K, V>, ops: seq<Op<K, V>>)
    requires CommitOrder(src) && Step(src, ev, r, r')
    ensures Holds(r.log, ops) ==> Holds(r'.log, ops)
  {
    hide Holds;
    var more := if |r'.log| >= |r.log| then r'.log[|r.log|..] else [];
    assert r'.log == [] + r.log + more;
    if Holds(r.log, ops) {
      HoldsBetween([], r.log, more, ops);
    }
  }

  lemma {:induction false} PlayNotMissing<K, V>(src: seq<SrcTxn<K, V>>, p: seq<LogRow<K, V>>, k: nat, evs: seq<Event>, r: Recv<K, V>)
    requires CommitOrder(src) && k < |src| && NotMissing(src, p, k, r) && Unfailing(evs) && Play(src, evs, r).Some?
    requires Holds(r.log, src[k].ops) || forall j: nat | k + 1 < |src| && j <= |src[k + 1].ops| :: !RowBehind(src, k, j)
    ensures NotMissing(src, p, k, Play(src, evs, r).value)
  {
    hide NotMissing;
    hide RowBehind;
    hide Holds;
    if evs != [] {
      assert !evs[0].FeedbackFails?;
      StepNotMissing(src, p, k, evs[0], r, Do(src, evs[0], r));
      assert forall i | 0 <= i < |evs| - 1 :: evs[1..][i] == evs[i + 1];
      PlayNotMissing(src, p, k, evs[1..], Do(src, evs[0], r));
    }
  }

  /** Right after the failure the rows are held. */
  lemma {:induction false} FailureCarries<K, V>(src: seq<SrcTxn<K, V>>, r: Recv<K, V>, r': Recv<K, V>)
    requires CommitOrder(src) && SafeInv(src, r) && Step(src, FeedbackFails, r, r') && UnstoredCommit(src, r)
    ensures Carried(src, r', r.pending.value.txn)
  {
    hide Stored;
    var k := r.pending.value.txn;
    var ops, open := src[k].ops, r.open.value;
    assert SoundTxn(src[k]);
    assert RowsAt(Sqls(open), |open| - (|ops| + 1), ops);
  }

  lemma {:induction false} CoveredBehind<K, V>(src: seq<SrcTxn<K, V>>, p: seq<LogRow<K, V>>, log: seq<LogRow<K, V>>, x: int, k: nat, but: Option<Msg>)
    requires k < |src| && Sqls(p) == TxnSqls(src[k].ops) && Covered(src, log, x, but)
    requires but.Some? ==> but.value.txn == k
    ensures Covered(src, p + log, x, None)
  {
    forall i | 0 <= i < |src| && src[i].commitLsn < x ensures Stored(p + log, src[i].ops) {
      if Stored(log, src[i].ops) {
        StoredBehind(p, log, src[i].ops);
      } else {
        WholeStored(p, src[k].ops, log);
      }
    }
  }

  lemma {:induction false} WholeStored<K, V>(p: seq<LogRow<K, V>>, ops: seq<Op<K, V>>, log: seq<LogRow<K, V>>)
    requires Sqls(p) == TxnSqls(ops)
    ensures Stored(p + log, ops)
  {
    assert Sqls(p + log)[0..|ops| + 2] == Sqls(p);
    assert BlockAt(Sqls(p + log), 0, ops);
  }

  lemma {:induction false} FailureSafeBehind<K, V>(src: seq<SrcTxn<K, V>>, p: seq<LogRow<K, V>>, r: Recv<K, V>, r': Recv<K, V>)
    requires CommitOrder(src) && SafeInv(src, r) && Step(src, FeedbackFails, r, r') && UnstoredCommit(src, r)
    requires Sqls(p) == TxnSqls(src[r.pending.value.txn].ops)
    ensures SafeInv(src, Behind(p, r'))
  {
    hide Covered;
    var k := r.pending.value.txn;
    CoveredBehind(src, p, r.log, r.confirmed, k, None);
    CoveredBehind(src, p, r.log, r.saved, k, None);
    CoveredBehind(src, p, r.log, r.sent, k, None);
    CoveredBehind(src, p, r.log, r.acked, k, None);
    CoveredBehind(src, p, r.log, r.pos.flushpos, k, None);
    CoveredBehind(src, p, r.log, r.pos.recvpos, k, r.pending);
  }

  /** Exactly when a failed report can cost a transaction its rows: when the message in hand is the COMMIT of a
      transaction that the log does not hold, and a message of the next one, not its COMMIT, lies behind the commit
      record. */
  lemma {:induction false} FailureLosesIff<K, V>(src: seq<SrcTxn<K, V>>, r: Recv<K, V>, r': Recv<K, V>)
    requires CommitOrder(src) && SafeInv(src, r) && Step(src, FeedbackFails, r, r')
    ensures ComesToLose(src, r') <==>
      MissingCommit(src, r) && exists j: nat :: RowBehind(src, r.pending.value.txn, j)
  {
    hide SafeInv;
    hide Play;
    hide Stored;
    hide RowBehind;
    hide NotMissing;
    if MissingCommit(src, r) && exists j: nat :: RowBehind(src, r.pending.value.txn, j) {
      var j: nat :| RowBehind(src, r.pending.value.txn, j);
      FailureLoses(src, r, r', j);
    } else {
      forall evs, i: nat | Unfailing(evs) && Play(src, evs, r').Some? ensures !Lost(src, Play(src, evs, r').value, i) {
        NeverLost(src, r, r', evs, i);
      }
    }
  }

  lemma {:induction false} NeverLost<K, V>(src: seq<SrcTxn<K, V>>, r: Recv<K, V>, r': Recv<K, V>, evs: seq<Event>, i: nat)
    requires CommitOrder(src) && SafeInv(src, r) && Step(src, FeedbackFails, r, r')
    requires MissingCommit(src, r) ==> forall j: nat :: !RowBehind(src, r.pending.value.txn, j)
    requires Unfailing(evs) && Play(src, evs, r').Some?
    ensures !Lost(src, Play(src, evs, r').value, i)
  {
    var z := Play(src, evs, r').value;
    if UnstoredCommit(src, r) {
      var k := r.pending.value.txn;
      var p := RowsFrom(src[k].ops, 0, 0);
      assert TxnSqls(src[k].ops)[0..] == TxnSqls(src[k].ops);
      FailureSafeBehind(src, p, r, r');
      FailureCarries(src, r, r');
      PlayNotMissing(src, p, k, evs, r');
      if i < |src| && src[i].commitLsn < z.confirmed {
        NothingLost(src, p, k, z, i);
      }
    } else {
      StepSafe(src, FeedbackFails, r, r');
      PlaySafe(src, evs, r');
      if i < |src| && src[i].commitLsn < z.confirmed {
        StoredHolds(z.log, src[i].ops);
      }
    }
  }
}
