/** Exactly which reconnects keep the log whole: the clean ones.  After any other the log can skip a transaction,
    or hold the beginning of one inside another. */
module Reconnects {
  import opened OptionType
  import opened Replay
  import opened SyncLog
  import opened ApplyProofs
  import opened Receive
  import opened ReceiveLog
  import opened ReceivePlay
  import FailedFeedback

  /** Steps in which every reconnect is clean, or the first of a new process. */
  predicate CleanPlay<K, V>(src: seq<SrcTxn<K, V>>, evs: seq<Event>, r: Recv<K, V>)
    requires CommitOrder(src)
  {
    evs != [] ==>
      && Enabled(src, evs[0], r)
      && (evs[0].Connect? ==> CleanConnect(src, r) || r.pos == ZERO)
      && CleanPlay(src, evs[1..], Do(src, evs[0], r))
  }

  lemma {:induction false} CleanPlays<K, V>(src: seq<SrcTxn<K, V>>, evs: seq<Event>, r: Recv<K, V>)
    requires CommitOrder(src) && CleanPlay(src, evs, r)
    ensures Play(src, evs, r).Some?
  {
    if evs != [] {
      CleanPlays(src, evs[1..], Do(src, evs[0], r));
    }
  }

  /** Whatever follows from here, with clean reconnects, leaves a log of whole transactions that does not skip. */
  ghost predicate StaysWhole<K, V>(src: seq<SrcTxn<K, V>>, r: Recv<K, V>)
    requires CommitOrder(src)
  {
    forall evs | CleanPlay(src, evs, r) :: Play(src, evs, r).Some? && LogShape(src, Play(src, evs, r).value)
  }

  lemma {:induction false} CleanKeepsLog<K, V>(src: seq<SrcTxn<K, V>>, evs: seq<Event>, r: Recv<K, V>)
    requires CommitOrder(src) && LogInv(src, r) && CleanPlay(src, evs, r)
    ensures Play(src, evs, r).Some? && LogInv(src, Play(src, evs, r).value)
  {
    if evs != [] {
      if r.pos == ZERO {
        FreshConnectIsClean(src, r);
      }
      StepKeepsLog(src, evs[0], r, Do(src, evs[0], r));
      CleanKeepsLog(src, evs[1..], Do(src, evs[0], r));
    }
  }

  // ---- Steps without a reconnect -----------------------------------------------------------------------------

  lemma {:induction false} NoConnectIsClean<K, V>(src: seq<SrcTxn<K, V>>, evs: seq<Event>, r: Recv<K, V>)
    requires CommitOrder(src) && Play(src, evs, r).Some? && Connect !in evs
    ensures CleanPlay(src, evs, r)
  {
    if evs != [] {
      assert evs[0] in evs;
      NoConnectIsClean(src, evs[1..], Do(src, evs[0], r));
    }
  }

  lemma {:induction false} CleanThen<K, V>(src: seq<SrcTxn<K, V>>, a: seq<Event>, b: seq<Event>, r: Recv<K, V>, m: Recv<K, V>)
    requires CommitOrder(src) && CleanPlay(src, a, r) && Play(src, a, r) == Some(m) && CleanPlay(src, b, m)
    ensures CleanPlay(src, a + b, r) && Play(src, a + b, r) == Play(src, b, m)
  {
    PlayAppend(src, a, b, r);
    if a == [] {
      assert a + b == b;
    } else {
      assert (a + b)[1..] == a[1..] + b;
      CleanThen(src, a[1..], b, Do(src, a[0], r), m);
    }
  }

  lemma {:induction false} CleanDelivery<K, V>(src: seq<SrcTxn<K, V>>, r: Recv<K, V>, i: nat)
    requires CommitOrder(src) && i < |src| && r.pending.None? && r.stream == Some(Msg(i, 0))
    ensures var evs := Deliveries(|src[i].ops| + 2);
      CleanPlay(src, evs, r) && Play(src, evs, r) == Some(Delivered(src, r, i, 0))
  {
    Deliver(src, r, i, 0);
    NoConnectIsClean(src, Deliveries(|src[i].ops| + 2), r);
  }

  // ---- A local transaction still open --------------------------------------------------------------------------

  /** In a log of whole transactions every BEGIN but the first follows a COMMIT. */
  lemma {:induction false} FlattenBegin<K, V>(txns: seq<seq<Op<K, V>>>, entries: seq<nat>, n: nat, i: nat)
    requires Known(txns, entries) && n <= |entries| && 0 < i < |Flatten(txns, entries, n)|
    requires Flatten(txns, entries, n)[i].BeginSql?
    ensures Flatten(txns, entries, n)[i - 1].CommitSql?
  {
    var before := Flatten(txns, entries, n - 1);
    var ops := txns[entries[n - 1]];
    if i < |before| {
      FlattenBegin(txns, entries, n - 1, i);
    } else {
      assert Flatten(txns, entries, n)[i] == TxnSqls(ops)[i - |before|];
      FailedFeedback.RowKind(ops, i - |before|);
      FlattenEnd(txns, entries, n - 1);
    }
  }

  lemma {:induction false} FlattenEnd<K, V>(txns: seq<seq<Op<K, V>>>, entries: seq<nat>, n: nat)
    requires Known(txns, entries) && n <= |entries|
    ensures var sqls := Flatten(txns, entries, n); sqls != [] ==> sqls[|sqls| - 1].CommitSql?
  {
    if n > 0 {
      var ops := txns[entries[n - 1]];
      FailedFeedback.RowKind(ops, |ops| + 1);
    }
  }

  /** A transaction stored behind the beginning of another: the log is not whole, whatever its transactions are
      taken to be. */
  lemma {:induction false} BeginInside<K, V>(src: seq<SrcTxn<K, V>>, r: Recv<K, V>, i: nat, entries: seq<nat>)
    requires CommitOrder(src) && i < |src| && r.open.Some? && r.open.value != [] && NothingEnded(r.open.value)
    ensures !WholeLog(Txns(src), Delivered(src, r, i, 0).log, entries)
  {
    var log := Delivered(src, r, i, 0).log;
    var rows := RowsFrom(src[i].ops, 0, r.nextId);
    var b := |r.log| + |r.open.value|;
    assert |Sqls(rows)| == |src[i].ops| + 2 && Sqls(rows)[0].BeginSql?;
    assert log[b] == rows[0] && log[b - 1] == r.open.value[|r.open.value| - 1];
    if WholeLog(Txns(src), log, entries) {
      assert Sqls(log)[b].BeginSql?;
      FlattenBegin(Txns(src), entries, |entries|, b);
    }
  }

  lemma {:induction false} OpenIsTorn<K, V>(src: seq<SrcTxn<K, V>>, r: Recv<K, V>)
    requires CommitOrder(src) && LogInv(src, r) && Enabled(src, Connect, r) && r.open.Some?
    requires FirstFrom(src, Later(r.pos.startpos, r.confirmed)) < |src|
    ensures !StaysWhole(src, Do(src, Connect, r))
  {
    var r1 := Do(src, Connect, r);
    var n := r1.stream.value.txn;
    CleanDelivery(src, r1, n);
    BeginInside(src, r1, n, Delivered(src, r1, n, 0).entries);
  }

  // ---- A stream that goes on in the wrong place ----------------------------------------------------------------

  lemma {:induction false} BehindIsSkipped<K, V>(src: seq<SrcTxn<K, V>>, r: Recv<K, V>)
    requires CommitOrder(src) && LogInv(src, r) && Enabled(src, Connect, r)
    requires var n := FirstFrom(src, Later(r.pos.startpos, r.confirmed)); Front(r.entries, |r.entries|) < n < |src|
    ensures !StaysWhole(src, Do(src, Connect, r))
  {
    var r1 := Do(src, Connect, r);
    var n := r1.stream.value.txn;
    CleanDelivery(src, r1, n);
    NotChain(r.entries, n);
  }

  lemma {:induction false} NotChain(entries: seq<nat>, n: nat)
    requires n > Front(entries, |entries|)
    ensures !Chain(entries + [n])
  {
    var longer := entries + [n];
    assert longer[|entries|] == n && Front(longer, |entries|) == Front(entries, |entries|);
  }

  /** The report that follows the reconnect acknowledges what was flushed before it. */
  lemma {:induction false} OldReport<K, V>(src: seq<SrcTxn<K, V>>, r1: Recv<K, V>) returns (r: Recv<K, V>)
    requires CommitOrder(src) && r1.stream.Some? && r1.sent == 0 && r1.confirmed < r1.pos.flushpos && 0 < r1.pos.flushpos
    ensures var evs := [Feedback, AckArrives(r1.pos.flushpos)]; CleanPlay(src, evs, r1) && Play(src, evs, r1) == Some(r)
    ensures r == r1.(pos := r1.pos.(startpos := r1.pos.recvpos), confirmed := r1.pos.flushpos,
                     sent := r1.pos.flushpos, acked := Later(r1.acked, r1.pos.flushpos))
  {
    var x := r1.pos.flushpos;
    PlayTwo(src, Feedback, AckArrives(x), r1);
    r := Do(src, AckArrives(x), Do(src, Feedback, r1));
    NoConnectIsClean(src, [Feedback, AckArrives(x)], r1);
  }

  /** After a restart the server goes on where it was told to. */
  lemma {:induction false} NewProcess<K, V>(src: seq<SrcTxn<K, V>>, r: Recv<K, V>) returns (r': Recv<K, V>)
    requires CommitOrder(src) && r.confirmed > 0
    ensures CleanPlay(src, [Restart, Connect], r) && Play(src, [Restart, Connect], r) == Some(r')
    ensures r'.stream == Some(Msg(FirstFrom(src, r.confirmed), 0)) && r'.pending.None? && r'.open.None?
    ensures r'.entries == r.entries
  {
    var none: seq<Event> := [];
    PlayTwo(src, Restart, Connect, r);
    r' := Do(src, Connect, Do(src, Restart, r));
    assert [Restart, Connect][1..] == [Connect] && [Connect][1..] == none;
    assert CleanPlay(src, none, r');
    assert CleanPlay(src, [Connect], Do(src, Restart, r));
  }

  /** What was flushed lies two transactions or more behind the stream: stored is one, acknowledged are more, and
      a restart goes on behind those. */
  lemma {:induction false} FlushedIsSkipped<K, V>(src: seq<SrcTxn<K, V>>, r: Recv<K, V>)
    requires CommitOrder(src) && LogInv(src, r) && Enabled(src, Connect, r) && r.open.None?
    requires
      var n := FirstFrom(src, Later(r.pos.startpos, r.confirmed));
      n + 2 <= FirstFrom(src, r.pos.flushpos) < |src|
    ensures !StaysWhole(src, Do(src, Connect, r))
  {
    var r1 := Do(src, Connect, r);
    var n, f := r1.stream.value.txn, FirstFrom(src, r.pos.flushpos);
    FlushedAhead(src, r);
    var r2 := OldReport(src, r1);
    CleanDelivery(src, r2, n);
    var r3 := Delivered(src, r2, n, 0);
    var r4 := NewProcess(src, r3);
    CleanDelivery(src, r4, f);
    var e1: seq<Event>, e2, e3: seq<Event>, e4 :=
      [Feedback, AckArrives(r1.pos.flushpos)], Deliveries(|src[n].ops| + 2), [Restart, Connect], Deliveries(|src[f].ops| + 2);
    CleanThen(src, e3, e4, r3, r4);
    CleanThen(src, e2, e3 + e4, r2, r3);
    CleanThen(src, e1, e2 + (e3 + e4), r1, r2);
    NotChain(r.entries + [n], f);
    assert !LogShape(src, Play(src, e1 + (e2 + (e3 + e4)), r1).value);
  }

  lemma {:induction false} FlushedAhead<K, V>(src: seq<SrcTxn<K, V>>, r: Recv<K, V>)
    requires CommitOrder(src) && FirstFrom(src, Later(r.pos.startpos, r.confirmed)) < FirstFrom(src, r.pos.flushpos)
    ensures r.confirmed < r.pos.flushpos && 0 < r.pos.flushpos
  {
    if r.pos.flushpos <= r.confirmed {
      FirstFromMonotone(src, r.pos.flushpos, Later(r.pos.startpos, r.confirmed));
    }
    if r.pos.flushpos <= 0 {
      FirstFromZero(src);
      FirstFromMonotone(src, r.pos.flushpos, 0);
    }
  }

  /** Exactly when a reconnect is harmless.  With another transaction to come at both places, the log stays one of
      whole transactions without gaps, in every continuation with clean reconnects, if and only if this reconnect
      is clean. */
  lemma {:induction false} CleanConnectIff<K, V>(src: seq<SrcTxn<K, V>>, r: Recv<K, V>)
    requires CommitOrder(src) && LogInv(src, r) && Enabled(src, Connect, r)
    requires FirstFrom(src, Later(r.pos.startpos, r.confirmed)) < |src| && FirstFrom(src, r.pos.flushpos) < |src|
    ensures StaysWhole(src, Do(src, Connect, r)) <==> CleanConnect(src, r)
  {
    if CleanConnect(src, r) {
      var r1 := Do(src, Connect, r);
      ConnectKeepsLog(src, r, r1);
      forall evs | CleanPlay(src, evs, r1) ensures Play(src, evs, r1).Some? && LogShape(src, Play(src, evs, r1).value) {
        CleanKeepsLog(src, evs, r1);
      }
    } else if r.open.Some? {
      OpenIsTorn(src, r);
    } else if FirstFrom(src, Later(r.pos.startpos, r.confirmed)) > Front(r.entries, |r.entries|) {
      BehindIsSkipped(src, r);
    } else {
      FlushedIsSkipped(src, r);
    }
  }
}
