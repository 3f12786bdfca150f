/** Runs of the receive thread from its start that the guarantees exclude, and what they do. */
module Mishaps {
  import opened OptionType
  import opened Replay
  import opened SyncLog
  import opened ApplyProofs
  import opened Receive
  import opened ReceivePlay
  import opened FailedFeedback
  import opened FailureLoss
  import A = ApplyThread
  import L = ApplyLoop
  import T = ThreadStops

  /** One transaction of one statement. */
  const DELIVER: seq<Event> := Deliveries(3)

  function OneOp<K, V>(op: Op<K, V>, lsn: int): SrcTxn<K, V> {
    SrcTxn([op], [lsn, lsn + 1], lsn + 2, lsn + 3)
  }

  /** The source of the second run. */
  function ThreeUpdates(): (src: seq<SrcTxn<int, char>>)
    ensures CommitOrder(src)
  {
    [OneOp(Update(1, 'a'), 10), OneOp(Update(1, 'b'), 20), OneOp(Insert(2, 'c'), 30)]
  }

  lemma {:induction false} ThreeFacts()
    ensures var src := ThreeUpdates();
      && FirstFrom(src, 0) == 0 && FirstFrom(src, 23) == 2 && |src| == 3
      && src[0].endLsn == 13 && src[1].endLsn == 23 && src[2].endLsn == 33
      && forall i | 0 <= i < 3 :: |src[i].ops| == 1
  {
    var src := ThreeUpdates();
    assert FirstFrom(src[1..][1..], 23) == 0;
    assert FirstFrom(src[1..], 23) == 1;
  }

  /** One of the three is delivered. */
  lemma {:induction false} DeliverOf(r: Recv<int, char>, i: nat) returns (r': Recv<int, char>)
    requires i < 3 && r.pending.None? && r.stream == Some(Msg(i, 0))
    ensures Play(ThreeUpdates(), DELIVER, r) == Some(r')
    ensures r'.stream == Some(Msg(i + 1, 0)) && r'.pending.None? && r'.open.None? && r'.entries == r.entries + [i]
    ensures r'.confirmed == r.confirmed && r'.pos == Positions(10 * i + 13, r.pos.startpos, 10 * i + 13)
  {
    hide ThreeUpdates;
    hide RowsFrom;
    hide Play;
    hide FirstFrom;
    ThreeFacts();
    Deliver(ThreeUpdates(), r, i, 0);
    r' := Delivered(ThreeUpdates(), r, i, 0);
  }

  /** Two transactions stored, no feedback. */
  lemma {:induction false} BothStored() returns (evs: seq<Event>, r: Recv<int, char>)
    ensures Play(ThreeUpdates(), evs, Init()) == Some(r)
    ensures r.stream == Some(Msg(2, 0)) && r.pending.None? && r.open.None?
    ensures r.pos == Positions(23, 0, 23) && r.confirmed == 0 && r.entries == [0, 1]
    ensures forall i | 0 <= i < |evs| :: !evs[i].FeedbackFails?
  {
    hide ThreeUpdates;
    hide FirstFrom;
    hide Play;
    ThreeFacts();
    var src := ThreeUpdates();
    var r0 := Init<int, char>();
    var r1 := Do(src, Connect, Do(src, SaveSlot, r0));
    PlayTwo(src, SaveSlot, Connect, r0);
    var r2 := DeliverOf(r1, 0);
    r := DeliverOf(r2, 1);
    PlayThen(src, [SaveSlot, Connect], DELIVER, r0, r1, r2);
    PlayThen(src, [SaveSlot, Connect] + DELIVER, DELIVER, r0, r2, r);
    evs := [SaveSlot, Connect] + DELIVER + DELIVER;
  }

  /** The stream starts over, both are confirmed, and the first is stored again. */
  lemma {:induction false} StartsOver(r3: Recv<int, char>) returns (evs: seq<Event>, r: Recv<int, char>)
    requires r3.stream == Some(Msg(2, 0)) && r3.pending.None? && r3.open.None?
    requires r3.pos == Positions(23, 0, 23) && r3.confirmed == 0
    ensures Play(ThreeUpdates(), evs, r3) == Some(r)
    ensures r.stream == Some(Msg(1, 0)) && r.pending.None? && r.confirmed == 23 && r.entries == r3.entries + [0]
    ensures forall i | 0 <= i < |evs| :: !evs[i].FeedbackFails?
  {
    hide ThreeUpdates;
    hide FirstFrom;
    hide Play;
    ThreeFacts();
    var src := ThreeUpdates();
    PlayTwo(src, Disconnect, Connect, r3);
    var r4 := Do(src, Connect, Do(src, Disconnect, r3));
    PlayTwo(src, Feedback, AckArrives(23), r4);
    var r5 := Do(src, AckArrives(23), Do(src, Feedback, r4));
    r := DeliverOf(r5, 0);
    PlayThen(src, [Disconnect, Connect], [Feedback, AckArrives(23)], r3, r4, r5);
    PlayThen(src, [Disconnect, Connect] + [Feedback, AckArrives(23)], DELIVER, r3, r5, r);
    evs := [Disconnect, Connect] + [Feedback, AckArrives(23)] + DELIVER;
  }

  /** A restart goes on behind both. */
  lemma {:induction false} GoesOn(r6: Recv<int, char>) returns (evs: seq<Event>, r: Recv<int, char>)
    requires r6.stream == Some(Msg(1, 0)) && r6.pending.None? && r6.confirmed == 23
    ensures Play(ThreeUpdates(), evs, r6) == Some(r)
    ensures r.entries == r6.entries + [2]
    ensures forall i | 0 <= i < |evs| :: !evs[i].FeedbackFails?
  {
    hide ThreeUpdates;
    hide FirstFrom;
    hide Play;
    ThreeFacts();
    var src := ThreeUpdates();
    PlayTwo(src, Restart, Connect, r6);
    var r7 := Do(src, Connect, Do(src, Restart, r6));
    r := DeliverOf(r7, 2);
    PlayThen(src, [Restart, Connect], DELIVER, r6, r7, r);
    evs := [Restart, Connect] + DELIVER;
  }

  lemma {:induction false} SkippingPlay() returns (evs: seq<Event>, r: Recv<int, char>)
    ensures Play(ThreeUpdates(), evs, Init()) == Some(r)
    ensures r.entries == [0, 1, 0, 2]
    ensures forall i | 0 <= i < |evs| :: !evs[i].FeedbackFails?
  {
    var e1, r3 := BothStored();
    var e2, r6 := StartsOver(r3);
    var e3, r7 := GoesOn(r6);
    PlayThen(ThreeUpdates(), e1, e2, Init(), r3, r6);
    PlayThen(ThreeUpdates(), e1 + e2, e3, Init(), r6, r7);
    evs, r := e1 + e2 + e3, r7;
  }

  lemma {:induction false} RunOneMore(ops: seq<Op<int, char>>, op: Op<int, char>, db: map<int, char>)
    ensures Run(ops + [op], db) == Lenient(op, Run(ops, db))
    ensures ValidRun(ops + [op], db) <==> ValidRun(ops, db) && Applicable(op, Run(ops, db))
  {
    RunAppend(ops, [op], db);
    ValidAppend(ops, [op], db);
    RunOne(op, Run(ops, db));
  }

  lemma {:induction false} ThreeOps()
    ensures Txns(ThreeUpdates()) == [[Update(1, 'a')], [Update(1, 'b')], [Insert(2, 'c')]]
    ensures Ops(Txns(ThreeUpdates()), 0, 3) == [] + [Update(1, 'a')] + [Update(1, 'b')] + [Insert(2, 'c')]
  {
    var txns := Txns(ThreeUpdates());
    assert Ops(txns, 3, 3) == [] && Ops(txns, 2, 3) == txns[2] + [];
  }

  lemma {:induction false} SkippedRuns()
    ensures
      var a: Op<int, char>, b: Op<int, char>, c: Op<int, char> := Update(1, 'a'), Update(1, 'b'), Insert(2, 'c');
      var z: map<int, char> := map[1 := 'z'];
      && ValidRun([] + [a] + [b] + [c], z) && Run([] + [a] + [b] + [c], z) == map[1 := 'b', 2 := 'c']
      && Run([] + [a] + [b] + [a] + [c], z) == map[1 := 'a', 2 := 'c']
  {
    hide Run;
    hide ValidRun;
    var a: Op<int, char>, b: Op<int, char>, c: Op<int, char> := Update(1, 'a'), Update(1, 'b'), Insert(2, 'c');
    var none: seq<Op<int, char>>, z: map<int, char> := [], map[1 := 'z'];
    RunNothing(z);
    RunOneMore(none, a, z);
    RunOneMore(none + [a], b, z);
    RunOneMore(none + [a] + [b], c, z);
    RunOneMore(none + [a] + [b], a, z);
    RunOneMore(none + [a] + [b] + [a], c, z);
  }

  lemma {:induction false} SkippedEffect()
    ensures
      var txns := Txns(ThreeUpdates());
      && ValidHistory(txns, map[1 := 'z'])
      && Source(txns, map[1 := 'z'], 3) == map[1 := 'b', 2 := 'c']
      && Run(txns[0] + txns[1] + txns[0] + txns[2], map[1 := 'z']) == map[1 := 'a', 2 := 'c']
  {
    hide Run;
    hide ValidRun;
    hide Txns;
    ThreeOps();
    SkippedRuns();
    var none: seq<Op<int, char>> := [];
    assert none + [Update(1, 'a')] == [Update(1, 'a')];
  }

  lemma {:induction false} RunNothing(db: map<int, char>)
    ensures Run([], db) == db && ValidRun([], db)
  {
  }

  /** After a reconnect inside the process, the log can skip.  Two transactions are stored; the connection
      drops before any feedback; the stream starts over at 0; the feedback now sent confirms both; then
      the process ends after transaction 0 has been stored a second time.  The server goes on with
      transaction 2.  Applying the log 0 1 0 2 leaves the row of the replayed UPDATE on the target. */
  lemma {:induction false} ReconnectSkips()
    ensures exists evs: seq<Event>, run: seq<Recv<int, char>> ::
      && IsRun(ThreeUpdates(), evs, run)
      && (forall i | 0 <= i < |evs| :: !evs[i].FeedbackFails?)
      && run[|evs|].entries == [0, 1, 0, 2]
    ensures !Chain([0, 1, 0, 2])
  {
    var evs, r := SkippingPlay();
    PlayedRun(ThreeUpdates(), evs, r);
    var entries: seq<nat> := [0, 1, 0, 2];
    assert entries[3] > Front(entries, 3);
  }

  // ---- A connection lost within a transaction ------------------------------------------------------------------

  function TwoRows(): seq<Op<int, char>> { [Insert(1, 'a'), Insert(2, 'b')] }

  function OneTxn(): (src: seq<SrcTxn<int, char>>)
    ensures CommitOrder(src)
  {
    [SrcTxn(TwoRows(), [10, 11, 12], 13, 14)]
  }

  function TornLog(): seq<LogRow<int, char>> {
    [LogRow(1, BeginSql), LogRow(2, Statement(Insert(1, 'a'))),
     LogRow(3, BeginSql), LogRow(4, Statement(Insert(1, 'a'))), LogRow(5, Statement(Insert(2, 'b'))), LogRow(6, CommitSql)]
  }

  lemma {:induction false} OneFacts()
    ensures |OneTxn()| == 1 && OneTxn()[0].ops == TwoRows() && |TwoRows()| == 2 && FirstFrom(OneTxn(), 0) == 0
  {
  }

  /** The connection drops when the first INSERT has been stored. */
  lemma {:induction false} HalfStored() returns (evs: seq<Event>, r: Recv<int, char>)
    ensures Play(OneTxn(), evs, Init()) == Some(r)
    ensures r.stream == Some(Msg(0, 0)) && r.pending.None? && r.log == [] && r.nextId == 3
    ensures r.open == Some([LogRow(1, BeginSql), LogRow(2, Statement(Insert(1, 'a')))])
    ensures forall i | 0 <= i < |evs| :: !evs[i].FeedbackFails?
  {
    OneFacts();
    hide OneTxn;
    hide FirstFrom;
    hide Play;
    hide RowsFrom;
    var src := OneTxn();
    assert TxnSqls(TwoRows()) == [BeginSql, Statement(Insert(1, 'a')), Statement(Insert(2, 'b')), CommitSql];
    var b: LogRow<int, char>, i: LogRow<int, char> := LogRow(1, BeginSql), LogRow(2, Statement(Insert(1, 'a')));
    assert [] + [b] == [b] && [b] + [i] == [b, i];
    var r0 := Init<int, char>();
    var r1 := Do(src, Connect, r0);
    PlayOne(src, Connect, r0);
    DeliverRow(src, r1, 0, 0);
    var r2 := RowDelivered(src, r1, 0, 0);
    assert r2.open == Some([b]) && r2.nextId == 2;
    DeliverRow(src, r2, 0, 1);
    var r3 := RowDelivered(src, r2, 0, 1);
    assert r3.open == Some([b, i]);
    PlayTwo(src, Disconnect, Connect, r3);
    r := Do(src, Connect, Do(src, Disconnect, r3));
    PlayThen(src, [Connect], [Message, Store], r0, r1, r2);
    PlayThen(src, [Connect] + [Message, Store], [Message, Store], r0, r2, r3);
    PlayThen(src, [Connect] + [Message, Store] + [Message, Store], [Disconnect, Connect], r0, r3, r);
    evs := [Connect] + [Message, Store] + [Message, Store] + [Disconnect, Connect];
  }

  lemma {:induction false} TornPlay() returns (evs: seq<Event>, r: Recv<int, char>)
    ensures Play(OneTxn(), evs, Init()) == Some(r) && r.log == TornLog()
    ensures forall i | 0 <= i < |evs| :: !evs[i].FeedbackFails?
  {
    hide OneTxn;
    hide Play;
    hide FirstFrom;
    hide RowsFrom;
    OneFacts();
    var before, r4 := HalfStored();
    Deliver(OneTxn(), r4, 0, 0);
    r := Delivered(OneTxn(), r4, 0, 0);
    PlayThen(OneTxn(), before, Deliveries(4), Init(), r4, r);
    evs := before + Deliveries(4);
    var ops := TwoRows();
    FirstRow(ops, 0, 3);
    FirstRow(ops, 1, 4);
    FirstRow(ops, 2, 5);
    FirstRow(ops, 3, 6);
    NoMoreRows(7);
  }

  lemma {:induction false} NoMoreRows(id: int)
    ensures RowsFrom(TwoRows(), 4, id) == []
  {
  }

  /** The thread on that log before its row `k`: the second BEGIN is only a warning, the INSERT behind it a duplicate,
      and passing over it takes back the one that had succeeded. */
  function TornSession(k: nat): A.Session<int, char> {
    var none: map<int, char> := map[];
    if k == 0 then A.Session(none, A.Idle)
    else if k == 1 || k == 4 then A.Session(none, A.Open(none, []))
    else if k == 2 || k == 3 then A.Session(none, A.Open(map[1 := 'a'], [Insert(1, 'a')]))
    else if k == 5 then A.Session(none, A.Open(map[2 := 'b'], [Insert(2, 'b')]))
    else A.Session(map[2 := 'b'], A.Idle)
  }

  function TornThread(k: nat): A.Thread {
    if k == 6 then A.Thread(6, 1, A.SqlCommit, 6, 6, false)
    else A.Thread(0, 0, if k == 2 || k == 5 then A.FirstStatement else A.SqlBegin, k, 6, false)
  }

  lemma {:induction false} TornRow(k: nat)
    requires k < 6
    ensures A.ApplyRow(TornThread(k), TornSession(k), TornLog()[k]) == A.Continue(TornThread(k + 1), TornSession(k + 1))
  {
    var none: map<int, char> := map[];
    assert none[1 := 'a'] == map[1 := 'a'] && none[2 := 'b'] == map[2 := 'b'];
    var i1: Op<int, char>, i2: Op<int, char> := Insert(1, 'a'), Insert(2, 'b');
    assert [] + [i1] == [i1] && [] + [i2] == [i2];
  }

  lemma {:induction false} TornRows(k: nat)
    requires k <= 6
    ensures T.ApplyRows(TornThread(k), TornSession(k), TornLog()[k..]) == A.Continue(TornThread(6), TornSession(6))
    decreases 6 - k
  {
    hide TornThread;
    hide TornSession;
    hide A.ApplyRow;
    if k < 6 {
      TornRow(k);
      TornRows(k + 1);
      assert TornLog()[k..][1..] == TornLog()[k + 1..];
    }
  }

  /** After a reconnect within a transaction a row is lost.  The first of two INSERTs is stored; the connection drops
      and comes back; the transaction is sent again from its start, into the same local transaction.  The apply
      thread reads that log to its end, and the target has the second row only. */
  lemma {:induction false} TornTransactionLosesRow()
    ensures exists evs: seq<Event>, run: seq<Recv<int, char>> ::
      IsRun(OneTxn(), evs, run) && run[|evs|].log == TornLog() && forall i | 0 <= i < |evs| :: !evs[i].FeedbackFails?
    ensures Source(Txns(OneTxn()), map[], 1) == map[1 := 'a', 2 := 'b']
    ensures TornRun()
  {
    var evs, r := TornPlay();
    PlayedRun(OneTxn(), evs, r);
    OneTxnSource();
    TornRead();
  }

  /** The apply thread can read that log to its end, and the first row is not there. */
  ghost predicate TornRun() {
    exists trace: seq<A.Apply<int, char>> ::
      && L.Trace(TornLog(), trace) && trace[0] == A.Apply(0, A.Session(map[], A.Idle), None, 0, 0)
      && L.Last(trace).thread.Some? && L.Last(trace).thread.value.next == |TornLog()|
      && L.Last(trace).session == A.Session(map[2 := 'b'], A.Idle)
  }

  lemma {:induction false} TornRead()
    ensures TornRun()
  {
    var a: A.Apply<int, char> := A.Apply(0, A.Session(map[], A.Idle), None, 0, 0);
    assert Below(TornLog(), 0) == 0 && TornLog()[0..] == TornLog();
    TornRows(0);
    var trace := T.ReadsLog(TornLog(), a);
  }

  lemma {:induction false} OneTxnSource()
    ensures Source(Txns(OneTxn()), map[], 1) == map[1 := 'a', 2 := 'b']
  {
    var txns := Txns(OneTxn());
    var none: map<int, char> := map[];
    assert Ops(txns, 1, 1) == [] && Ops(txns, 0, 1) == TwoRows() + [] == TwoRows();
    assert TwoRows()[1..] == [Insert(2, 'b')] && [Insert(2, 'b')][1..] == [];
    assert Lenient(TwoRows()[0], none) == map[1 := 'a'];
  }

  // ---- A feedback send that fails --------------------------------------------------------------------------

  function TwoInserts(): (src: seq<SrcTxn<int, char>>)
    ensures CommitOrder(src)
  {
    [OneOp(Insert(1, 'a'), 10), OneOp(Insert(2, 'b'), 20)]
  }

  lemma {:induction false} TwoFacts()
    ensures var src := TwoInserts();
      |src| == 2 && |src[0].ops| == 1 && src[0].ops != src[1].ops && FirstFrom(src, 0) == 0 && RowBehind(src, 0, 0)
  {
  }

  /** Transaction 0 received up to its COMMIT, which is in hand. */
  lemma {:induction false} CommitInHand() returns (evs: seq<Event>, r: Recv<int, char>)
    ensures Play(TwoInserts(), evs, Init()) == Some(r) && Unfailing(evs)
    ensures r.pending == Some(Msg(0, 2)) && r.log == [] && r.stream.Some?
  {
    hide RowsFrom;
    hide TwoInserts;
    hide FirstFrom;
    hide Play;
    TwoFacts();
    var src := TwoInserts();
    var r0 := Init<int, char>();
    var r1 := Do(src, Connect, r0);
    PlayOne(src, Connect, r0);
    var r2, r3 := RowDelivered(src, r1, 0, 0), RowDelivered(src, RowDelivered(src, r1, 0, 0), 0, 1);
    DeliverRow(src, r1, 0, 0);
    DeliverRow(src, r2, 0, 1);
    r := Do(src, Message, r3);
    PlayOne(src, Message, r3);
    PlayThen(src, [Connect], [Message, Store], r0, r1, r2);
    PlayThen(src, [Connect] + [Message, Store], [Message, Store], r0, r2, r3);
    PlayThen(src, [Connect] + [Message, Store] + [Message, Store], [Message], r0, r3, r);
    evs := [Connect] + [Message, Store] + [Message, Store] + [Message];
  }

  /** After a feedback send that failed, acknowledgement does outrun storage.  The COMMIT of transaction 0 is in hand;
      the feedback that goes out before it is stored fails: the start position already lies behind the commit, the
      message is dropped, the next stream starts with transaction 1, and the report behind that one acknowledges
      both. */
  lemma {:induction false} FailedFeedbackOutruns()
    ensures exists evs: seq<Event>, run: seq<Recv<int, char>> :: IsRun(TwoInserts(), evs, run) && Outruns(TwoInserts(), run[|evs|])
  {
    hide TwoInserts;
    hide Play;
    hide Stored;
    hide SafeInv;
    TwoFacts();
    var src := TwoInserts();
    var before, r := CommitInHand();
    InitSafe(src);
    PlaySafe(src, before, Init());
    NothingStored<int, char>(src[0].ops);
    var r' := Do(src, FeedbackFails, r);
    FailureOutruns(src, r, r');
    var after :| Unfailing(after) && Play(src, after, r').Some? && Outruns(src, Play(src, after, r').value);
    PlayOne(src, FeedbackFails, r);
    PlayThen(src, before, [FeedbackFails], Init(), r, r');
    PlayThen(src, before + [FeedbackFails], after, Init(), r', Play(src, after, r').value);
    PlayedRun(src, before + [FeedbackFails] + after, Play(src, after, r').value);
  }

  /** With a second transaction whose rows lie behind the commit record, as these do, the first one is lost: its rows
      are held when the process ends, and the server goes on behind it. */
  lemma {:induction false} FailedFeedbackLoses()
    ensures exists evs: seq<Event>, run: seq<Recv<int, char>>, k: nat ::
      IsRun(TwoInserts(), evs, run) && Lost(TwoInserts(), run[|evs|], k)
  {
    hide TwoInserts;
    hide Play;
    hide SafeInv;
    hide Lost;
    TwoFacts();
    var src := TwoInserts();
    var before, r := CommitInHand();
    InitSafe(src);
    PlaySafe(src, before, Init());
    NothingStored<int, char>(src[0].ops);
    var r' := Do(src, FeedbackFails, r);
    FailureLoses(src, r, r', 0);
    var after, k: nat :| Unfailing(after) && Play(src, after, r').Some? && Lost(src, Play(src, after, r').value, k);
    PlayOne(src, FeedbackFails, r);
    PlayThen(src, before, [FeedbackFails], Init(), r, r');
    PlayThen(src, before + [FeedbackFails], after, Init(), r', Play(src, after, r').value);
    PlayedRun(src, before + [FeedbackFails] + after, Play(src, after, r').value);
  }

  lemma {:induction false} NothingStored<K, V>(ops: seq<Op<K, V>>)
    ensures !Stored([], ops) && !Holds([], ops)
  {
  }
}
