/** Exactly which failed reports let acknowledgement outrun storage: those that drop a COMMIT whose transaction
    is not stored. */
module FailedFeedback {
  import opened OptionType
  import opened Replay
  import opened SyncLog
  import opened Receive
  import opened ReceivePlay

  /** A transaction that has been acknowledged is not stored. */
  ghost predicate Outruns<K, V>(src: seq<SrcTxn<K, V>>, r: Recv<K, V>) {
    exists k :: 0 <= k < |src| && src[k].endLsn <= r.acked && !Stored(r.log, src[k].ops)
  }

  predicate Unfailing(evs: seq<Event>) { forall i | 0 <= i < |evs| :: !evs[i].FeedbackFails? }

  /** Steps without a failed report lead there. */
  ghost predicate ComesToOutrun<K, V>(src: seq<SrcTxn<K, V>>, r: Recv<K, V>)
    requires CommitOrder(src)
  {
    exists evs :: Unfailing(evs) && Play(src, evs, r).Some? && Outruns(src, Play(src, evs, r).value)
  }

  lemma {:induction false} PlaySafe<K, V>(src: seq<SrcTxn<K, V>>, evs: seq<Event>, r: Recv<K, V>)
    requires CommitOrder(src) && SafeInv(src, r) && Unfailing(evs) && Play(src, evs, r).Some?
    ensures SafeInv(src, Play(src, evs, r).value)
  {
    if evs != [] {
      assert !evs[0].FeedbackFails?;
      StepSafe(src, evs[0], r, Do(src, evs[0], r));
      assert forall i | 0 <= i < |evs| - 1 :: evs[1..][i] == evs[i + 1];
      PlaySafe(src, evs[1..], Do(src, evs[0], r));
    }
  }

  lemma {:induction false} SafeDoesNotOutrun<K, V>(src: seq<SrcTxn<K, V>>, r: Recv<K, V>)
    requires CommitOrder(src) && SafeInv(src, r)
    ensures !Outruns(src, r)
  {
    forall k | 0 <= k < |src| && src[k].endLsn <= r.acked ensures Stored(r.log, src[k].ops) {
      assert SoundTxn(src[k]);
    }
  }

  /** A row of a transaction says where in it it stands. */
  lemma {:induction false} RowKind<K, V>(ops: seq<Op<K, V>>, j: nat)
    requires j < |ops| + 2
    ensures TxnSqls(ops)[j].BeginSql? <==> j == 0
    ensures TxnSqls(ops)[j].CommitSql? <==> j == |ops| + 1
    ensures 0 < j <= |ops| ==> TxnSqls(ops)[j] == Statement(ops[j - 1])
  {
  }

  lemma {:induction false} SameBlock<K, V>(ops: seq<Op<K, V>>, ops': seq<Op<K, V>>)
    requires TxnSqls(ops) == TxnSqls(ops')
    ensures ops == ops'
  {
    assert |TxnSqls(ops)| == |ops| + 2 && |TxnSqls(ops')| == |ops'| + 2;
    forall i | 0 <= i < |ops| ensures ops[i] == ops'[i] {
      RowKind(ops, i + 1);
      RowKind(ops', i + 1);
    }
  }

  /** In a block the first row, and only it, begins and the last, and only it, ends. */
  lemma {:induction false} BlockRow<K, V>(sqls: seq<Sql<K, V>>, a: nat, ops: seq<Op<K, V>>, i: nat)
    requires BlockAt(sqls, a, ops) && a <= i <= a + |ops| + 1
    ensures sqls[i].BeginSql? <==> i == a
    ensures sqls[i].CommitSql? <==> i == a + |ops| + 1
  {
    assert sqls[a..a + |ops| + 2][i - a] == sqls[i];
    RowKind(ops, i - a);
  }

  /** Two blocks that end together are the same. */
  lemma {:induction false} EndTogether<K, V>(sqls: seq<Sql<K, V>>, a: nat, ops: seq<Op<K, V>>, b: nat, ops': seq<Op<K, V>>)
    requires BlockAt(sqls, a, ops) && BlockAt(sqls, b, ops') && a + |ops| == b + |ops'|
    ensures ops == ops'
  {
    var later := if a < b then b else a;
    BlockRow(sqls, a, ops, later);
    BlockRow(sqls, b, ops', later);
    SameBlock(ops, ops');
  }

  /** What is put behind incomplete rows stores its own transaction and no other. */
  lemma {:induction false} StoresNoOther<K, V>(log: seq<LogRow<K, V>>, held: seq<LogRow<K, V>>, rows: seq<LogRow<K, V>>,
                                               ops: seq<Op<K, V>>, ops': seq<Op<K, V>>)
    requires NothingEnded(held) && Sqls(rows) == TxnSqls(ops') && Stored(log + held + rows, ops)
    ensures Stored(log, ops) || ops == ops'
  {
    var all, b := log + held + rows, |log| + |held|;
    var a :| BlockAt(Sqls(all), a, ops);
    var z := a + |ops| + 1;
    BlockRow(Sqls(all), a, ops, z);
    assert forall i | |log| <= i < b :: all[i] == held[i - |log|];
    if z < |log| {
      assert Sqls(log)[a..a + |ops| + 2] == Sqls(all)[a..a + |ops| + 2];
      assert BlockAt(Sqls(log), a, ops);
    } else {
      assert Sqls(all)[b..b + |ops'| + 2] == Sqls(rows);
      assert BlockAt(Sqls(all), b, ops');
      BlockRow(Sqls(all), b, ops', z);
      EndTogether(Sqls(all), a, ops, b, ops');
    }
  }

  /** After the failure the stream goes on behind the COMMIT that was dropped. */
  lemma {:induction false} GoesOnBehind<K, V>(src: seq<SrcTxn<K, V>>, r: Recv<K, V>, r': Recv<K, V>)
    requires CommitOrder(src) && SafeInv(src, r) && Step(src, FeedbackFails, r, r') && UnstoredCommit(src, r)
    requires r.pending.value.txn + 1 < |src|
    ensures Enabled(src, Connect, r') && Do(src, Connect, r').stream == Some(Msg(r.pending.value.txn + 1, 0))
  {
    var k := r.pending.value.txn;
    assert SoundTxn(src[k]);
    assert r'.pos.startpos == src[k].endLsn;
    assert r.confirmed <= src[k].commitLsn;
    assert src[k].endLsn <= src[k + 1].commitLsn;
    FirstFromSplits(src, src[k].endLsn, k);
    FirstFromSplits(src, src[k].endLsn, k + 1);
  }

  /** The next transaction is stored behind rows that are not complete, and no other with it. */
  lemma {:induction false} DeliveredNotStored<K, V>(src: seq<SrcTxn<K, V>>, r: Recv<K, V>, i: nat, ops: seq<Op<K, V>>)
    requires CommitOrder(src) && i < |src| && src[i].ops != ops && !Stored(r.log, ops)
    requires r.open.Some? ==> NothingEnded(r.open.value)
    ensures !Stored(Delivered(src, r, i, 0).log, ops)
  {
    var rows := RowsFrom(src[i].ops, 0, r.nextId);
    assert TxnSqls(src[i].ops)[0..] == TxnSqls(src[i].ops);
    if Stored(r.log + HeldRows(r) + rows, ops) {
      StoresNoOther(r.log, HeldRows(r), rows, ops, src[i].ops);
    }
  }

  /** Once the next transaction has been stored and reported, the dropped one is acknowledged. */
  lemma {:induction false} FailureOutruns<K, V>(src: seq<SrcTxn<K, V>>, r: Recv<K, V>, r': Recv<K, V>)
    requires CommitOrder(src) && SafeInv(src, r) && Step(src, FeedbackFails, r, r') && UnstoredCommit(src, r)
    requires var k := r.pending.value.txn; k + 1 < |src| && src[k + 1].ops != src[k].ops
    ensures ComesToOutrun(src, r')
  {
    hide Play;
    hide Stored;
    hide FirstFrom;
    hide AtMsg;
    var k := r.pending.value.txn;
    GoesOnBehind(src, r, r');
    var r1 := Do(src, Connect, r');
    DeliverNext(src, r', k + 1);
    DeliveredNotStored(src, r1, k + 1, src[k].ops);
    var r2 := Delivered(src, r1, k + 1, 0);
    PlayOne(src, Feedback, r2);
    var evs := NextTxn(src, k + 1) + [Feedback];
    var z := Do(src, Feedback, r2);
    PlayThen(src, NextTxn(src, k + 1), [Feedback], r', r2, z);
    assert SoundTxn(src[k]) && SoundTxn(src[k + 1]) && src[k].endLsn <= src[k + 1].commitLsn;
    assert z.acked >= src[k].endLsn && z.log == r2.log;
    assert Outruns(src, z);
    assert Unfailing(evs);
  }

  /** Exactly when a failed report does harm.  Its failure can be followed, without another failure, by the
      acknowledgement of a transaction that is not stored, if and only if the message in hand is the COMMIT of
      a transaction that is not stored; a transaction with other statements has to follow it. */
  lemma {:induction false} FailureOutrunsIff<K, V>(src: seq<SrcTxn<K, V>>, r: Recv<K, V>, r': Recv<K, V>)
    requires CommitOrder(src) && SafeInv(src, r) && Step(src, FeedbackFails, r, r')
    requires UnstoredCommit(src, r) ==> var k := r.pending.value.txn; k + 1 < |src| && src[k + 1].ops != src[k].ops
    ensures ComesToOutrun(src, r') <==> UnstoredCommit(src, r)
  {
    if UnstoredCommit(src, r) {
      FailureOutruns(src, r, r');
    } else {
      StepSafe(src, FeedbackFails, r, r');
      forall evs | Unfailing(evs) && Play(src, evs, r').Some? ensures !Outruns(src, Play(src, evs, r').value) {
        PlaySafe(src, evs, r');
        SafeDoesNotOutrun(src, Play(src, evs, r').value);
      }
    }
  }
}
