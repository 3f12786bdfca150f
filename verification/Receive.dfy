/** The receive thread: it streams source transactions from a replication slot, writes them row by row
    into `sync_sqls` inside one local transaction each, and reports positions back to the server.

    The server, the network and the local database are steps of the environment.  `sent` and the two
    slot positions belong to the server's side; everything in `pos` is lost when the process ends. */
module Receive {
  import opened OptionType
  import opened Replay
  import opened SyncLog

  /** A source transaction as the slot delivers it: the LSN of its `begin` and of each change, and of
      its commit record, which ends at `endLsn`. */
  datatype SrcTxn<K, V> = SrcTxn(ops: seq<Op<K, V>>, lsns: seq<int>, commitLsn: int, endLsn: int)

  /** What the server promises: commit order, and no change at or past the commit record. */
  predicate CommitOrder<K, V>(src: seq<SrcTxn<K, V>>) {
    && (forall i | 0 <= i < |src| :: SoundTxn(src[i]))
    && (forall i, j | 0 <= i < j < |src| :: src[i].endLsn <= src[j].commitLsn)
  }

  predicate SoundTxn<K, V>(t: SrcTxn<K, V>) {
    && |t.lsns| == |t.ops| + 1
    && 0 < t.commitLsn < t.endLsn
    && forall j | 0 <= j < |t.lsns| :: 0 < t.lsns[j] <= t.commitLsn
  }

  function Txns<K, V>(src: seq<SrcTxn<K, V>>): (t: seq<seq<Op<K, V>>>)
    ensures |t| == |src|
    ensures forall i | 0 <= i < |src| :: t[i] == src[i].ops
  {
    seq(|src|, i requires 0 <= i < |src| => src[i].ops)
  }

  /** Message `row` of transaction `txn`: 0 is BEGIN, the last is COMMIT. */
  datatype Msg = Msg(txn: nat, row: nat)

  predicate IsMsg<K, V>(src: seq<SrcTxn<K, V>>, m: Msg) {
    m.txn < |src| && m.row <= |src[m.txn].ops| + 1
  }

  predicate IsCommit<K, V>(src: seq<SrcTxn<K, V>>, m: Msg)
    requires IsMsg(src, m)
  {
    m.row == |src[m.txn].ops| + 1
  }

  /** The position in the header of the message. */
  function MsgLsn<K, V>(src: seq<SrcTxn<K, V>>, m: Msg): int
    requires CommitOrder(src) && IsMsg(src, m)
  {
    assert SoundTxn(src[m.txn]);
    if IsCommit(src, m) then src[m.txn].endLsn else src[m.txn].lsns[m.row]
  }

  function NextMsg<K, V>(src: seq<SrcTxn<K, V>>, m: Msg): Msg
    requires IsMsg(src, m)
  {
    if IsCommit(src, m) then Msg(m.txn + 1, 0) else Msg(m.txn, m.row + 1)
  }

  /** Streaming from `x` passes over the transactions whose commit lies before it. */
  function FirstFrom<K, V>(src: seq<SrcTxn<K, V>>, x: int): (n: nat)
    ensures n <= |src|
  {
    if src == [] || src[0].commitLsn >= x then 0 else 1 + FirstFrom(src[1..], x)
  }

  datatype Positions = Positions(recvpos: int, startpos: int, flushpos: int)

  const ZERO := Positions(0, 0, 0)

  datatype Recv<K, V> = Recv(
    confirmed: int, saved: int, sent: int, stream: Option<Msg>,
    pos: Positions, pending: Option<Msg>,
    log: seq<LogRow<K, V>>, open: Option<seq<LogRow<K, V>>>, nextId: int,
    entries: seq<nat>, acked: int)

  datatype Event =
    | Connect
    | Message
    | Keepalive(walEnd: int)
    | Feedback
    | FeedbackFails
    | Store
    | Disconnect
    | Restart
    | AckArrives(x: int)
    | SaveSlot
    | ServerCrash

  function Later(a: int, b: int): int { if a < b then b else a }

  function Init<K, V>(): Recv<K, V> {
    Recv(0, 0, 0, None, ZERO, None, [], None, 1, [], 0)
  }

  /** Writing the pending message: BEGIN, INSERT INTO sync_sqls, END. */
  function StoreMsg<K, V>(src: seq<SrcTxn<K, V>>, r: Recv<K, V>, m: Msg): Recv<K, V>
    requires IsMsg(src, m)
  {
    var row := LogRow(r.nextId, TxnSqls(src[m.txn].ops)[m.row]);
    var open := if m.row == 0 && r.open.None? then Some([]) else r.open;
    var inserted := if open.Some? then r.(open := Some(open.value + [row])) else r.(log := r.log + [row]);
    var flushed := inserted.(nextId := r.nextId + 1, pos := r.pos.(flushpos := r.pos.recvpos), pending := None);
    if IsCommit(src, m) && flushed.open.Some? then
      flushed.(log := r.log + flushed.open.value, open := None, entries := r.entries + [m.txn])
    else flushed
  }

  /** When a step can be taken, and the state it leads to. */
  predicate Enabled<K, V>(src: seq<SrcTxn<K, V>>, ev: Event, r: Recv<K, V>) {
    match ev
    case Connect => r.stream.None? && r.pending.None?
    case Message => r.stream.Some? && r.pending.None? && IsMsg(src, r.stream.value)
    case Keepalive(walEnd) =>
      // the server has decoded up to walEnd, and has sent every transaction committed before it
      && r.stream.Some? && r.pending.None?
      && (r.stream.value.txn < |src| ==> walEnd <= src[r.stream.value.txn].commitLsn)
    case Feedback => r.stream.Some?
    case FeedbackFails => r.stream.Some?
    case Store => r.pending.Some? && IsMsg(src, r.pending.value)
    case Disconnect => r.stream.Some? && r.pending.None?
    case Restart => true
    case AckArrives(x) => r.confirmed < x <= r.sent
    case SaveSlot => true
    case ServerCrash => true
  }

  function Do<K, V>(src: seq<SrcTxn<K, V>>, ev: Event, r: Recv<K, V>): Recv<K, V>
    requires CommitOrder(src) && Enabled(src, ev, r)
  {
    match ev
    case Connect =>
      // START_REPLICATION at startpos; the server starts no earlier than the slot's position
      r.(stream := Some(Msg(FirstFrom(src, Later(r.pos.startpos, r.confirmed)), 0)), sent := 0)
    case Message =>
      var m := r.stream.value;
      r.(pos := r.pos.(recvpos := MsgLsn(src, m)), pending := Some(m), stream := Some(NextMsg(src, m)))
    case Keepalive(walEnd) =>
      r.(pos := r.pos.(recvpos := Later(walEnd, r.pos.recvpos)))
    case Feedback =>
      r.(pos := r.pos.(startpos := r.pos.recvpos),
         sent := Later(r.sent, r.pos.flushpos), acked := Later(r.acked, r.pos.flushpos))
    case FeedbackFails =>
      // the send fails after startpos has moved; the message just received is dropped
      r.(pos := r.pos.(startpos := r.pos.recvpos), pending := None, stream := None)
    case Store => StoreMsg(src, r, r.pending.value)
    case Disconnect => r.(stream := None)
    case Restart => r.(pos := ZERO, pending := None, stream := None, open := None)
    case AckArrives(x) => r.(confirmed := x)
    case SaveSlot => r.(saved := r.confirmed)
    case ServerCrash => r.(confirmed := r.saved, sent := 0, stream := None)
  }

  ghost predicate Step<K, V>(src: seq<SrcTxn<K, V>>, ev: Event, r: Recv<K, V>, r': Recv<K, V>)
    requires CommitOrder(src)
  {
    Enabled(src, ev, r) && r' == Do(src, ev, r)
  }

  // ---- Positions and transactions ------------------------------------------------------------------------

  lemma {:induction false} FirstFromSplits<K, V>(src: seq<SrcTxn<K, V>>, x: int, k: nat)
    requires CommitOrder(src) && k < |src|
    ensures k < FirstFrom(src, x) <==> src[k].commitLsn < x
  {
    assert SoundTxn(src[0]);
    if k == 0 {
    } else {
      assert src[0].endLsn <= src[k].commitLsn;
      if src[0].commitLsn < x {
        assert CommitOrder(src[1..]) by {
          forall i | 0 <= i < |src| - 1 ensures SoundTxn(src[1..][i]) { assert SoundTxn(src[i + 1]); }
        }
        FirstFromSplits(src[1..], x, k - 1);
      }
    }
  }

  lemma {:induction false} FirstFromMonotone<K, V>(src: seq<SrcTxn<K, V>>, x: int, y: int)
    requires CommitOrder(src) && x <= y
    ensures FirstFrom(src, x) <= FirstFrom(src, y)
  {
    var n := FirstFrom(src, x);
    if n > 0 {
      FirstFromSplits(src, x, n - 1);
      FirstFromSplits(src, y, n - 1);
    }
  }

  /** A message position covers no commit that comes after it. */
  lemma {:induction false} MsgLsnCovers<K, V>(src: seq<SrcTxn<K, V>>, m: Msg, k: nat)
    requires CommitOrder(src) && IsMsg(src, m) && k < |src|
    requires src[k].commitLsn < MsgLsn(src, m)
    ensures k <= m.txn && (k == m.txn ==> IsCommit(src, m))
  {
    assert SoundTxn(src[m.txn]) && SoundTxn(src[k]);
  }

  // ---- Acknowledgement never outruns storage ---------------------------------------------------------------

  /** The rows of transaction `ops`, in one piece, at row `a` of the log. */
  predicate BlockAt<K(==), V(==)>(sqls: seq<Sql<K, V>>, a: int, ops: seq<Op<K, V>>) {
    0 <= a && a + |ops| + 2 <= |sqls| && sqls[a..a + |ops| + 2] == TxnSqls(ops)
  }

  /** All of the transaction is committed in `sync_sqls`. */
  ghost predicate Stored<K, V>(log: seq<LogRow<K, V>>, ops: seq<Op<K, V>>) {
    exists a :: BlockAt(Sqls(log), a, ops)
  }

  ghost predicate StoredBelow<K, V>(src: seq<SrcTxn<K, V>>, log: seq<LogRow<K, V>>, n: nat) {
    forall k | 0 <= k < n && k < |src| :: Stored(log, src[k].ops)
  }

  /** Every transaction whose commit lies before `x` is stored, `but` possibly the one whose COMMIT is
      in hand. */
  ghost predicate Covered<K, V>(src: seq<SrcTxn<K, V>>, log: seq<LogRow<K, V>>, x: int, but: Option<Msg>) {
    forall k | 0 <= k < |src| && src[k].commitLsn < x ::
      Stored(log, src[k].ops) || but == Some(Msg(k, |src[k].ops| + 1))
  }

  /** The open local transaction ends with the first `n` rows of `ops`. */
  ghost predicate OpenTail<K, V>(open: Option<seq<LogRow<K, V>>>, ops: seq<Op<K, V>>, n: nat)
    requires n <= |ops| + 2
  {
    n > 0 ==> open.Some? && |open.value| >= n && Sqls(open.value)[|open.value| - n..] == TxnSqls(ops)[..n]
  }

  /** The message the thread is about to store, or else the one it is about to receive. */
  function Current<K, V>(r: Recv<K, V>): Option<Msg> {
    if r.pending.Some? then r.pending else r.stream
  }

  ghost predicate AtMsg<K, V>(src: seq<SrcTxn<K, V>>, r: Recv<K, V>, m: Msg) {
    && (m.row > 0 ==> IsMsg(src, m))
    && StoredBelow(src, r.log, m.txn)
    && (m.txn < |src| ==> IsMsg(src, m) && OpenTail(r.open, src[m.txn].ops, m.row))
  }

  /** What a local transaction holds is not complete. */
  ghost predicate NothingEnded<K, V>(rows: seq<LogRow<K, V>>) {
    forall i | 0 <= i < |rows| :: !rows[i].sql.CommitSql?
  }

  ghost predicate SafeInv<K, V>(src: seq<SrcTxn<K, V>>, r: Recv<K, V>)
    requires CommitOrder(src)
  {
    && Covered(src, r.log, r.confirmed, None) && Covered(src, r.log, r.saved, None)
    && Covered(src, r.log, r.sent, None) && Covered(src, r.log, r.acked, None)
    && Covered(src, r.log, r.pos.flushpos, None)
    && Covered(src, r.log, r.pos.startpos, r.pending)
    && Covered(src, r.log, r.pos.recvpos, r.pending)
    && (Current(r).Some? ==> AtMsg(src, r, Current(r).value))
    && (r.pending.Some? ==>
        && IsMsg(src, r.pending.value)
        && r.pos.recvpos == MsgLsn(src, r.pending.value)
        && (r.stream.Some? ==> r.stream.value == NextMsg(src, r.pending.value)))
    && (r.open.Some? ==> NothingEnded(r.open.value))
  }

  lemma {:induction false} InitSafe<K, V>(src: seq<SrcTxn<K, V>>)
    requires CommitOrder(src)
    ensures SafeInv(src, Init<K, V>())
  {
    forall k | 0 <= k < |src| ensures src[k].commitLsn > 0 { assert SoundTxn(src[k]); }
  }

  lemma {:induction false} StoredGrows<K, V>(log: seq<LogRow<K, V>>, more: seq<LogRow<K, V>>, ops: seq<Op<K, V>>)
    requires Stored(log, ops)
    ensures Stored(log + more, ops)
  {
    var a :| BlockAt(Sqls(log), a, ops);
    assert Sqls(log + more)[a..a + |ops| + 2] == Sqls(log)[a..a + |ops| + 2];
    assert BlockAt(Sqls(log + more), a, ops);
  }

  lemma {:induction false} CoveredGrows<K, V>(src: seq<SrcTxn<K, V>>, log: seq<LogRow<K, V>>, more: seq<LogRow<K, V>>, x: int, but: Option<Msg>)
    requires Covered(src, log, x, but)
    ensures Covered(src, log + more, x, but)
  {
    forall k | 0 <= k < |src| && src[k].commitLsn < x
      ensures Stored(log + more, src[k].ops) || but == Some(Msg(k, |src[k].ops| + 1))
    {
      if Stored(log, src[k].ops) { StoredGrows(log, more, src[k].ops); }
    }
  }

  /** Storing a message extends the tail by its row. */
  lemma {:induction false} TailExtends<K, V>(open: seq<LogRow<K, V>>, ops: seq<Op<K, V>>, n: nat, row: LogRow<K, V>)
    requires n < |ops| + 2 && row.sql == TxnSqls(ops)[n]
    requires OpenTail(Some(open), ops, n)
    ensures OpenTail(Some(open + [row]), ops, n + 1)
  {
    hide TxnSqls;
    assert Sqls(open + [row]) == Sqls(open) + [row.sql];
    TailSnoc(Sqls(open), TxnSqls(ops), n);
  }

  lemma {:induction false} TailSnoc<T>(s: seq<T>, t: seq<T>, n: nat)
    requires n < |t| && (n > 0 ==> |s| >= n && s[|s| - n..] == t[..n])
    ensures var s' := s + [t[n]]; s'[|s'| - (n + 1)..] == t[..n + 1]
  {
    assert n == 0 ==> s[|s| - n..] == t[..n];
    assert (s + [t[n]])[|s| - n..] == s[|s| - n..] + [t[n]];
    assert t[..n + 1] == t[..n] + [t[n]];
  }

  /** Committing a local transaction that ends with all rows of `ops` stores it. */
  lemma {:induction false} TailStored<K, V>(log: seq<LogRow<K, V>>, open: seq<LogRow<K, V>>, ops: seq<Op<K, V>>)
    requires OpenTail(Some(open), ops, |ops| + 2)
    ensures Stored(log + open, ops)
  {
    var log' := log + open;
    var a := |log'| - (|ops| + 2);
    assert Sqls(log')[a..a + |ops| + 2] == Sqls(open)[|open| - (|ops| + 2)..];
    assert TxnSqls(ops)[..|ops| + 2] == TxnSqls(ops);
    assert BlockAt(Sqls(log'), a, ops);
  }

  /** Storing a row that is not a COMMIT. */
  lemma {:induction false} StoreRowIs<K, V>(src: seq<SrcTxn<K, V>>, r: Recv<K, V>, m: Msg)
    requires CommitOrder(src) && IsMsg(src, m) && !IsCommit(src, m) && (m.row > 0 ==> r.open.Some?)
    ensures
      var open := (if r.open.None? then [] else r.open.value) + [LogRow(r.nextId, TxnSqls(src[m.txn].ops)[m.row])];
      StoreMsg(src, r, m) == r.(open := Some(open), nextId := r.nextId + 1, pos := r.pos.(flushpos := r.pos.recvpos), pending := None)
  {
  }

  /** Storing the COMMIT. */
  lemma {:induction false} StoreCommitIs<K, V>(src: seq<SrcTxn<K, V>>, r: Recv<K, V>, m: Msg)
    requires CommitOrder(src) && IsMsg(src, m) && IsCommit(src, m) && r.open.Some?
    ensures
      var more := r.open.value + [LogRow(r.nextId, TxnSqls(src[m.txn].ops)[m.row])];
      StoreMsg(src, r, m) == r.(log := r.log + more, open := None, entries := r.entries + [m.txn],
                               nextId := r.nextId + 1, pos := r.pos.(flushpos := r.pos.recvpos), pending := None)
  {
  }

  /** What the position of the message in hand covers is stored, once its transaction is if it is a COMMIT. */
  lemma {:induction false} ReceivedCovered<K, V>(src: seq<SrcTxn<K, V>>, log: seq<LogRow<K, V>>, m: Msg)
    requires CommitOrder(src) && IsMsg(src, m) && StoredBelow(src, log, m.txn)
    requires IsCommit(src, m) ==> Stored(log, src[m.txn].ops)
    ensures Covered(src, log, MsgLsn(src, m), None)
  {
    forall k | 0 <= k < |src| && src[k].commitLsn < MsgLsn(src, m) ensures Stored(log, src[k].ops) {
      MsgLsnCovers(src, m, k);
    }
  }

  lemma {:induction false} NotACommit<K, V>(ops: seq<Op<K, V>>, rows: seq<LogRow<K, V>>, id: int, j: nat)
    requires j <= |ops| && NothingEnded(rows)
    ensures NothingEnded(rows + [LogRow(id, TxnSqls(ops)[j])])
  {
  }

  lemma {:induction false} StoreRowSafe<K, V>(src: seq<SrcTxn<K, V>>, r: Recv<K, V>, m: Msg)
    requires CommitOrder(src) && SafeInv(src, r) && r.pending == Some(m) && !IsCommit(src, m)
    ensures SafeInv(src, StoreMsg(src, r, m))
  {
    hide Covered;
    hide StoredBelow;
    hide OpenTail;
    hide NothingEnded;
    hide TxnSqls;
    hide StoreMsg;
    var ops, open := src[m.txn].ops, if r.open.None? then [] else r.open.value;
    OpenForRow(src, r, m);
    StoreRowIs(src, r, m);
    TailExtends(open, ops, m.row, LogRow(r.nextId, TxnSqls(ops)[m.row]));
    NotACommit(ops, open, r.nextId, m.row);
    ReceivedCovered(src, r.log, m);
    CoveredWithout(src, r.log, r.pos.startpos, m);
  }

  /** Before a row of a transaction is stored the local transaction ends with those before it. */
  lemma {:induction false} OpenForRow<K, V>(src: seq<SrcTxn<K, V>>, r: Recv<K, V>, m: Msg)
    requires CommitOrder(src) && SafeInv(src, r) && r.pending == Some(m)
    ensures m.row > 0 ==> r.open.Some?
    ensures
      var open := if r.open.None? then [] else r.open.value;
      OpenTail(Some(open), src[m.txn].ops, m.row) && NothingEnded(open)
  {
  }

  lemma {:induction false} CoveredWithout<K, V>(src: seq<SrcTxn<K, V>>, log: seq<LogRow<K, V>>, x: int, m: Msg)
    requires IsMsg(src, m) && !IsCommit(src, m) && Covered(src, log, x, Some(m))
    ensures Covered(src, log, x, None)
  {
  }

  lemma {:induction false} StoredBelowGrows<K, V>(src: seq<SrcTxn<K, V>>, log: seq<LogRow<K, V>>, more: seq<LogRow<K, V>>, n: nat)
    requires StoredBelow(src, log, n)
    ensures StoredBelow(src, log + more, n)
  {
    forall k | 0 <= k < n && k < |src| ensures Stored(log + more, src[k].ops) { StoredGrows(log, more, src[k].ops); }
  }

  lemma {:induction false} StoreCommitSafe<K, V>(src: seq<SrcTxn<K, V>>, r: Recv<K, V>, m: Msg)
    requires CommitOrder(src) && SafeInv(src, r) && r.pending == Some(m) && IsCommit(src, m)
    ensures SafeInv(src, StoreMsg(src, r, m))
  {
    hide Stored;
    hide TxnSqls;
    var ops, open := src[m.txn].ops, r.open.value;
    var row := LogRow(r.nextId, TxnSqls(ops)[m.row]);
    StoreCommitIs(src, r, m);
    TailExtends(open, ops, m.row, row);
    var more := open + [row];
    TailStored(r.log, more, ops);
    StoredBelowGrows(src, r.log, more, m.txn);
    CoveredGrows(src, r.log, more, r.confirmed, None);
    CoveredGrows(src, r.log, more, r.saved, None);
    CoveredGrows(src, r.log, more, r.sent, None);
    CoveredGrows(src, r.log, more, r.acked, None);
    CoveredGrows(src, r.log, more, r.pos.startpos, r.pending);
    ReceivedCovered(src, r.log + more, m);
  }

  lemma {:induction false} StoreSafe<K, V>(src: seq<SrcTxn<K, V>>, r: Recv<K, V>, m: Msg)
    requires CommitOrder(src) && SafeInv(src, r) && r.pending == Some(m)
    ensures SafeInv(src, StoreMsg(src, r, m))
  {
    if IsCommit(src, m) {
      StoreCommitSafe(src, r, m);
    } else {
      StoreRowSafe(src, r, m);
    }
  }

  lemma {:induction false} MessageSafe<K, V>(src: seq<SrcTxn<K, V>>, r: Recv<K, V>, r': Recv<K, V>)
    requires CommitOrder(src) && SafeInv(src, r) && Step(src, Message, r, r')
    ensures SafeInv(src, r')
  {
    var m := r.stream.value;
    forall k | 0 <= k < |src| && src[k].commitLsn < MsgLsn(src, m)
      ensures Stored(r.log, src[k].ops) || Some(m) == Some(Msg(k, |src[k].ops| + 1))
    {
      MsgLsnCovers(src, m, k);
    }
  }

  lemma {:induction false} KeepaliveSafe<K, V>(src: seq<SrcTxn<K, V>>, walEnd: int, r: Recv<K, V>, r': Recv<K, V>)
    requires CommitOrder(src) && SafeInv(src, r) && Step(src, Keepalive(walEnd), r, r')
    ensures SafeInv(src, r')
  {
    var m := r.stream.value;
    forall k | 0 <= k < |src| && src[k].commitLsn < walEnd ensures Stored(r.log, src[k].ops) {
      assert m.txn < |src| ==> SoundTxn(src[m.txn]);
      assert k < m.txn;
    }
  }

  lemma {:induction false} ConnectSafe<K, V>(src: seq<SrcTxn<K, V>>, r: Recv<K, V>, r': Recv<K, V>)
    requires CommitOrder(src) && SafeInv(src, r) && Step(src, Connect, r, r')
    ensures SafeInv(src, r')
  {
    var from := Later(r.pos.startpos, r.confirmed);
    forall k | 0 <= k < FirstFrom(src, from) ensures Stored(r.log, src[k].ops) {
      FirstFromSplits(src, from, k);
    }
    forall k | 0 <= k < |src| ensures src[k].commitLsn > 0 { assert SoundTxn(src[k]); }
  }

  lemma {:induction false} FailureSafe<K, V>(src: seq<SrcTxn<K, V>>, r: Recv<K, V>, r': Recv<K, V>)
    requires CommitOrder(src) && SafeInv(src, r) && Step(src, FeedbackFails, r, r')
    requires !UnstoredCommit(src, r)
    ensures SafeInv(src, r')
  {
  }

  lemma {:induction false} FeedbackSafe<K, V>(src: seq<SrcTxn<K, V>>, r: Recv<K, V>, r': Recv<K, V>)
    requires CommitOrder(src) && SafeInv(src, r) && Step(src, Feedback, r, r')
    ensures SafeInv(src, r')
  {
    hide Stored;
  }

  /** The end of a connection or of the process. */
  lemma {:induction false} EndingSafe<K, V>(src: seq<SrcTxn<K, V>>, ev: Event, r: Recv<K, V>, r': Recv<K, V>)
    requires CommitOrder(src) && SafeInv(src, r) && Step(src, ev, r, r') && (ev.Disconnect? || ev.Restart?)
    ensures SafeInv(src, r')
  {
    hide Stored;
    forall k | 0 <= k < |src| ensures src[k].commitLsn > 0 { assert SoundTxn(src[k]); }
  }

  lemma {:induction false} ServerSafe<K, V>(src: seq<SrcTxn<K, V>>, ev: Event, r: Recv<K, V>, r': Recv<K, V>)
    requires CommitOrder(src) && SafeInv(src, r) && Step(src, ev, r, r')
    requires ev.AckArrives? || ev.SaveSlot? || ev.ServerCrash?
    ensures SafeInv(src, r')
  {
    hide Stored;
    forall k | 0 <= k < |src| ensures src[k].commitLsn > 0 { assert SoundTxn(src[k]); }
  }

  /** The message in hand is the COMMIT of a transaction that is not stored yet. */
  ghost predicate UnstoredCommit<K, V>(src: seq<SrcTxn<K, V>>, r: Recv<K, V>) {
    && r.pending.Some? && IsMsg(src, r.pending.value) && IsCommit(src, r.pending.value)
    && !Stored(r.log, src[r.pending.value.txn].ops)
  }

  /** Every step is safe but the failure of a report that drops such a COMMIT. */
  lemma {:induction false} StepSafe<K, V>(src: seq<SrcTxn<K, V>>, ev: Event, r: Recv<K, V>, r': Recv<K, V>)
    requires CommitOrder(src) && SafeInv(src, r) && Step(src, ev, r, r')
    requires ev.FeedbackFails? ==> !UnstoredCommit(src, r)
    ensures SafeInv(src, r')
  {
    hide SafeInv;
    match ev
    case Connect => ConnectSafe(src, r, r');
    case Message => MessageSafe(src, r, r');
    case Keepalive(w) => KeepaliveSafe(src, w, r, r');
    case Store => StoreSafe(src, r, r.pending.value);
    case Feedback => FeedbackSafe(src, r, r');
    case FeedbackFails => FailureSafe(src, r, r');
    case Disconnect => EndingSafe(src, ev, r, r');
    case Restart => EndingSafe(src, ev, r, r');
    case AckArrives(_) => ServerSafe(src, ev, r, r');
    case SaveSlot => ServerSafe(src, ev, r, r');
    case ServerCrash => ServerSafe(src, ev, r, r');
  }

  ghost predicate IsRun<K, V>(src: seq<SrcTxn<K, V>>, evs: seq<Event>, run: seq<Recv<K, V>>)
    requires CommitOrder(src)
  {
    && |run| == |evs| + 1 && run[0] == Init()
    && forall i | 0 <= i < |evs| :: Step(src, evs[i], run[i], run[i + 1])
  }

  lemma {:induction false} RunSafe<K, V>(src: seq<SrcTxn<K, V>>, evs: seq<Event>, run: seq<Recv<K, V>>, n: nat)
    requires CommitOrder(src) && IsRun(src, evs, run) && n <= |evs|
    requires forall i | 0 <= i < n && evs[i].FeedbackFails? :: !UnstoredCommit(src, run[i])
    ensures SafeInv(src, run[n])
  {
    if n == 0 {
      InitSafe(src);
    } else {
      RunSafe(src, evs, run, n - 1);
      StepSafe(src, evs[n - 1], run[n - 1], run[n]);
    }
  }

  /** Acknowledgement never outruns storage.  In every run, with keepalives, feedback, reconnects at any
      point, restarts and failed feedback, but none that fails with an unstored COMMIT in hand: a transaction
      that ends at or before a flush position ever sent is committed in `sync_sqls`, all of it. */
  lemma {:induction false} AckNeverOutrunsStorage<K, V>(src: seq<SrcTxn<K, V>>, evs: seq<Event>, run: seq<Recv<K, V>>, n: nat, k: nat)
    requires CommitOrder(src) && IsRun(src, evs, run) && n <= |evs| && k < |src|
    requires forall i | 0 <= i < n && evs[i].FeedbackFails? :: !UnstoredCommit(src, run[i])
    requires src[k].endLsn <= run[n].acked
    ensures Stored(run[n].log, src[k].ops)
  {
    RunSafe(src, evs, run, n);
    assert SoundTxn(src[k]);
  }
}
