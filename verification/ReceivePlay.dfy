/** Runs of the receive thread, played step by step, and the delivery of whole transactions. */
module ReceivePlay {
  import opened OptionType
  import opened Replay
  import opened SyncLog
  import opened Receive

  /** Takes the steps one after the other; None when one of them cannot be taken. */
  function Play<K, V>(src: seq<SrcTxn<K, V>>, evs: seq<Event>, r: Recv<K, V>): Option<Recv<K, V>>
    requires CommitOrder(src)
  {
    if evs == [] then Some(r)
    else if Enabled(src, evs[0], r) then Play(src, evs[1..], Do(src, evs[0], r))
    else None
  }

  /** A played sequence of steps is a run. */
  lemma {:induction false} PlayIsRun<K, V>(src: seq<SrcTxn<K, V>>, evs: seq<Event>, r: Recv<K, V>)
    returns (run: seq<Recv<K, V>>)
    requires CommitOrder(src) && Play(src, evs, r).Some?
    ensures |run| == |evs| + 1 && run[0] == r && run[|evs|] == Play(src, evs, r).value
    ensures forall i | 0 <= i < |evs| :: Step(src, evs[i], run[i], run[i + 1])
  {
    if evs == [] {
      run := [r];
    } else {
      var rest := PlayIsRun(src, evs[1..], Do(src, evs[0], r));
      run := [r] + rest;
      forall i | 0 <= i < |evs| ensures Step(src, evs[i], run[i], run[i + 1]) {
        if i > 0 { assert Step(src, evs[1..][i - 1], rest[i - 1], rest[i]); }
      }
    }
  }

  lemma {:induction false} PlayedRun<K, V>(src: seq<SrcTxn<K, V>>, evs: seq<Event>, r: Recv<K, V>)
    requires CommitOrder(src) && Play(src, evs, Init()) == Some(r)
    ensures exists run: seq<Recv<K, V>> :: IsRun(src, evs, run) && run[|evs|] == r
  {
    var run := PlayIsRun(src, evs, Init());
    assert IsRun(src, evs, run);
  }

  lemma {:induction false} PlayAppend<K, V>(src: seq<SrcTxn<K, V>>, a: seq<Event>, b: seq<Event>, r: Recv<K, V>)
    requires CommitOrder(src) && Play(src, a, r).Some?
    ensures Play(src, a + b, r) == Play(src, b, Play(src, a, r).value)
  {
    if a == [] {
      assert a + b == b;
    } else {
      assert (a + b)[1..] == a[1..] + b;
      PlayAppend(src, a[1..], b, Do(src, a[0], r));
    }
  }

  lemma {:induction false} PlayThen<K, V>(src: seq<SrcTxn<K, V>>, a: seq<Event>, b: seq<Event>, r: Recv<K, V>, m: Recv<K, V>, r': Recv<K, V>)
    requires CommitOrder(src) && Play(src, a, r) == Some(m) && Play(src, b, m) == Some(r')
    ensures Play(src, a + b, r) == Some(r')
  {
    PlayAppend(src, a, b, r);
  }

  lemma {:induction false} PlayOne<K, V>(src: seq<SrcTxn<K, V>>, e: Event, r: Recv<K, V>)
    requires CommitOrder(src) && Enabled(src, e, r)
    ensures Play(src, [e], r) == Some(Do(src, e, r))
  {
    var none: seq<Event> := [];
    assert [e][1..] == none;
  }

  lemma {:induction false} PlayTwo<K, V>(src: seq<SrcTxn<K, V>>, e1: Event, e2: Event, r: Recv<K, V>)
    requires CommitOrder(src) && Enabled(src, e1, r) && Enabled(src, e2, Do(src, e1, r))
    ensures Play(src, [e1, e2], r) == Some(Do(src, e2, Do(src, e1, r)))
  {
    PlayOne(src, e1, r);
    PlayOne(src, e2, Do(src, e1, r));
    PlayThen(src, [e1], [e2], r, Do(src, e1, r), Do(src, e2, Do(src, e1, r)));
  }

  // ---- Delivery ----------------------------------------------------------------------------------------------

  /** Receiving and storing `n` messages. */
  function Deliveries(n: nat): (evs: seq<Event>)
    ensures |evs| == 2 * n && forall i | 0 <= i < |evs| :: evs[i] == Message || evs[i] == Store
  {
    if n == 0 then [] else [Message, Store] + Deliveries(n - 1)
  }

  /** The rows of a transaction from row `j` on, numbered from `id` on. */
  function RowsFrom<K, V>(ops: seq<Op<K, V>>, j: nat, id: int): (rows: seq<LogRow<K, V>>)
    requires j <= |ops| + 2
    ensures Sqls(rows) == TxnSqls(ops)[j..]
    decreases |ops| + 2 - j
  {
    if j == |ops| + 2 then []
    else
      assert TxnSqls(ops)[j..] == [TxnSqls(ops)[j]] + TxnSqls(ops)[j + 1..];
      [LogRow(id, TxnSqls(ops)[j])] + RowsFrom(ops, j + 1, id + 1)
  }

  /** The rows that a local transaction holds before message `m` is stored. */
  function HeldRows<K, V>(r: Recv<K, V>): seq<LogRow<K, V>> {
    if r.open.Some? then r.open.value else []
  }

  /** Transaction `i` delivered from row `j` on: all that was held and all of these rows are in the log. */
  function Delivered<K, V>(src: seq<SrcTxn<K, V>>, r: Recv<K, V>, i: nat, j: nat): Recv<K, V>
    requires i < |src| && j <= |src[i].ops| + 2
  {
    var t := src[i];
    r.(stream := Some(Msg(i + 1, 0)), pos := Positions(t.endLsn, r.pos.startpos, t.endLsn),
       log := r.log + HeldRows(r) + RowsFrom(t.ops, j, r.nextId), open := None,
       nextId := r.nextId + |t.ops| + 2 - j, entries := r.entries + [i])
  }

  /** One message, not the last of its transaction. */
  function RowDelivered<K, V>(src: seq<SrcTxn<K, V>>, r: Recv<K, V>, i: nat, j: nat): Recv<K, V>
    requires CommitOrder(src) && i < |src| && j <= |src[i].ops|
  {
    var x := MsgLsn(src, Msg(i, j));
    r.(stream := Some(Msg(i, j + 1)), pos := Positions(x, r.pos.startpos, x),
       open := Some(HeldRows(r) + [LogRow(r.nextId, TxnSqls(src[i].ops)[j])]), nextId := r.nextId + 1)
  }

  lemma {:induction false} DeliverRow<K, V>(src: seq<SrcTxn<K, V>>, r: Recv<K, V>, i: nat, j: nat)
    requires CommitOrder(src) && i < |src| && j <= |src[i].ops|
    requires r.pending.None? && r.stream == Some(Msg(i, j)) && (j > 0 ==> r.open.Some?)
    ensures Play(src, [Message, Store], r) == Some(RowDelivered(src, r, i, j))
  {
    PlayTwo(src, Message, Store, r);
  }

  lemma {:induction false} DeliverLast<K, V>(src: seq<SrcTxn<K, V>>, r: Recv<K, V>, i: nat)
    requires CommitOrder(src) && i < |src|
    requires r.pending.None? && r.stream == Some(Msg(i, |src[i].ops| + 1)) && r.open.Some?
    ensures Play(src, [Message, Store], r) == Some(Delivered(src, r, i, |src[i].ops| + 1))
  {
    var n := |src[i].ops| + 1;
    PlayTwo(src, Message, Store, r);
    var row := LogRow(r.nextId, TxnSqls(src[i].ops)[n]);
    assert RowsFrom(src[i].ops, n, r.nextId) == [row] + RowsFrom(src[i].ops, n + 1, r.nextId + 1) == [row];
    assert r.log + (r.open.value + [row]) == r.log + r.open.value + [row];
  }

  lemma {:induction false} FirstRow<K, V>(ops: seq<Op<K, V>>, j: nat, id: int)
    requires j <= |ops| + 1
    ensures RowsFrom(ops, j, id) == [LogRow(id, TxnSqls(ops)[j])] + RowsFrom(ops, j + 1, id + 1)
  {
  }

  lemma {:induction false} Regroup<T>(log: seq<T>, held: seq<T>, row: T, rest: seq<T>)
    ensures log + (held + [row]) + rest == log + held + ([row] + rest)
  {
  }

  lemma {:induction false} DeliveredStep<K, V>(src: seq<SrcTxn<K, V>>, r: Recv<K, V>, i: nat, j: nat)
    requires CommitOrder(src) && i < |src| && j <= |src[i].ops|
    ensures Delivered(src, RowDelivered(src, r, i, j), i, j + 1) == Delivered(src, r, i, j)
  {
    var ops := src[i].ops;
    var row, rest := LogRow(r.nextId, TxnSqls(ops)[j]), RowsFrom(ops, j + 1, r.nextId + 1);
    FirstRow(ops, j, r.nextId);
    hide RowsFrom;
    hide TxnSqls;
    hide Sqls;
    hide CommitOrder;
    hide MsgLsn;
    var r' := RowDelivered(src, r, i, j);
    assert HeldRows(r') == HeldRows(r) + [row] && r'.log == r.log && r'.nextId == r.nextId + 1;
    Regroup(r.log, HeldRows(r), row, rest);
    hide HeldRows;
    hide RowDelivered;
  }

  /** The rest of a transaction delivered, whatever else is held. */
  lemma {:induction false} Deliver<K, V>(src: seq<SrcTxn<K, V>>, r: Recv<K, V>, i: nat, j: nat)
    requires CommitOrder(src) && i < |src| && j <= |src[i].ops| + 1
    requires r.pending.None? && r.stream == Some(Msg(i, j)) && (j > 0 ==> r.open.Some?)
    ensures Play(src, Deliveries(|src[i].ops| + 2 - j), r) == Some(Delivered(src, r, i, j))
    decreases |src[i].ops| + 2 - j
  {
    hide Delivered;
    var n := |src[i].ops| + 2 - j;
    assert Deliveries(n) == [Message, Store] + Deliveries(n - 1);
    if n == 1 {
      DeliverLast(src, r, i);
      assert Deliveries(0) == [] && Deliveries(1) == [Message, Store];
    } else {
      var r' := RowDelivered(src, r, i, j);
      DeliverRow(src, r, i, j);
      Deliver(src, r', i, j + 1);
      DeliveredStep(src, r, i, j);
      PlayThen(src, [Message, Store], Deliveries(n - 1), r, r', Delivered(src, r', i, j + 1));
    }
  }

  /** Connecting, one transaction, and a report. */
  function NextTxn<K, V>(src: seq<SrcTxn<K, V>>, i: nat): seq<Event>
    requires i < |src|
  {
    [Connect] + Deliveries(|src[i].ops| + 2)
  }

  lemma {:induction false} DeliverNext<K, V>(src: seq<SrcTxn<K, V>>, r: Recv<K, V>, i: nat)
    requires CommitOrder(src) && i < |src|
    requires Enabled(src, Connect, r) && Do(src, Connect, r).stream == Some(Msg(i, 0))
    ensures Play(src, NextTxn(src, i), r) == Some(Delivered(src, Do(src, Connect, r), i, 0))
  {
    var r1 := Do(src, Connect, r);
    PlayOne(src, Connect, r);
    Deliver(src, r1, i, 0);
    PlayThen(src, [Connect], Deliveries(|src[i].ops| + 2), r, r1, Delivered(src, r1, i, 0));
  }
}
