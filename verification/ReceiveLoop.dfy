/** The receive thread's loop as the program runs it: bytes are taken from the stream, translated, and stored as
    texts in the local database.  Each round of it is a run of the protocol. */
module ReceiveLoop {
  import opened OptionType
  import opened SqlMeaning
  import opened Databases
  import opened TextThread
  import opened Receive
  import opened ReceivePlay
  import opened StringInfos
  import opened Translation
  import opened Handler
  import S = SyncLog
  import W = Wire
  import G = SqlGen

  /** The session with the local database: committed rows of `sync_sqls`, those of the open transaction, and
      the next value of its sequence, which no rollback takes back. */
  class LocalSession {
    var log: seq<TextRow>
    var open: Option<seq<TextRow>>
    var nextId: int

    constructor ()
      ensures log == [] && open == None && nextId == 1
    {
      log, open, nextId := [], None, 1;
    }

    /** BEGIN; inside a transaction it is only a warning. */
    method Begin()
      modifies this
      ensures open == (if old(open).None? then Some([]) else old(open)) && log == old(log) && nextId == old(nextId)
    {
      if open.None? {
        open := Some([]);
      }
    }

    /** INSERT INTO sync_sqls, in the open transaction or on its own. */
    method InsertSql(sql: string)
      modifies this
      ensures nextId == old(nextId) + 1
      ensures old(open).Some? ==> open == Some(old(open).value + [TextRow(old(nextId), sql)]) && log == old(log)
      ensures old(open).None? ==> open == None && log == old(log) + [TextRow(old(nextId), sql)]
    {
      var row := TextRow(nextId, sql);
      nextId := nextId + 1;
      if open.Some? {
        open := Some(open.value + [row]);
      } else {
        log := log + [row];
      }
    }

    /** END: the open rows become visible. */
    method End()
      modifies this
      ensures open == None && nextId == old(nextId)
      ensures log == old(log) + if old(open).Some? then old(open).value else []
    {
      if open.Some? {
        log := log + open.value;
        open := None;
      }
    }
  }

  type Source = seq<SrcTxn<RowId, TableRow>>

  type State = Recv<RowId, TableRow>

  /** What the protocol state says of the session and the handler. */
  ghost predicate Shows(cat: Catalog, local: LocalSession, hander: DecoderHandler, r: State)
    reads local, hander
  {
    && Rendered(cat, r.log, local.log) && local.nextId == r.nextId && hander.View() == r.pos && hander.Valid()
    && (r.open.None? <==> local.open.None?)
    && (r.open.Some? ==> Rendered(cat, r.open.value, local.open.value))
  }

  function RowOf(src: Source, m: Msg): Sql
    requires IsMsg(src, m)
  {
    S.TxnSqls(src[m.txn].ops)[m.row]
  }

  lemma {:induction false} RenderedMore(cat: Catalog, a: Rows, a': seq<TextRow>, b: Rows, b': seq<TextRow>)
    requires Rendered(cat, a, a') && Rendered(cat, b, b')
    ensures Rendered(cat, a + b, a' + b')
  {
  }

  lemma {:induction false} OneRendered(cat: Catalog, row: S.LogRow<RowId, TableRow>, text: string)
    requires Renders(cat, row.sql, text)
    ensures Rendered(cat, [row], [TextRow(row.id, text)]) && Rendered(cat, [], [])
  {
  }

  /** One message: BEGIN opens the local transaction, the text is inserted, the flush position follows the received
      one, COMMIT closes the local transaction. */
  method StoreMessage(local: LocalSession, hander: DecoderHandler, typ: char, text: string,
                      ghost cat: Catalog, ghost src: Source, ghost r: State, ghost m: Msg)
    requires IsMsg(src, m) && Renders(cat, RowOf(src, m), text) && Shows(cat, local, hander, r)
    requires (typ == 'B' <==> RowOf(src, m).BeginSql?) && (typ == 'C' <==> RowOf(src, m).CommitSql?)
    modifies local, hander
    ensures Shows(cat, local, hander, StoreMsg(src, r, m)) && old(local.log) <= local.log
  {
    hide Renders;
    FirstAndLast(src, m);
    ghost var row: S.LogRow<RowId, TableRow> := S.LogRow(r.nextId, RowOf(src, m));
    OneRendered(cat, row, text);
    if typ == 'B' {
      local.Begin();
    }
    ghost var held, held' := HeldRows(r), if local.open.Some? then local.open.value else [];
    RenderedMore(cat, held, held', [row], [TextRow(r.nextId, text)]);
    RenderedMore(cat, r.log, local.log, [row], [TextRow(r.nextId, text)]);
    RenderedMore(cat, r.log, local.log, held + [row], held' + [TextRow(r.nextId, text)]);
    local.InsertSql(text);
    hander.flushpos := hander.recvpos;
    if typ == 'C' {
      local.End();
    }
  }

  /** BEGIN is the first and COMMIT the last row of a transaction, and no other row is either. */
  lemma {:induction false} FirstAndLast(src: Source, m: Msg)
    requires IsMsg(src, m)
    ensures RowOf(src, m).BeginSql? <==> m.row == 0
    ensures RowOf(src, m).CommitSql? <==> IsCommit(src, m)
  {
    var ops := src[m.txn].ops;
    if 0 < m.row <= |ops| {
      assert S.TxnSqls(ops)[m.row] == S.Statements(ops)[m.row - 1];
    }
  }

  // ---- What the server sends -----------------------------------------------------------------------------------

  /** The bytes of message `m` of the stream are those of a wire message that says its row. */
  ghost predicate Carries(cat: Catalog, src: Source, o: W.Options, wire: W.Message, m: Msg, body: string)
    requires IsMsg(src, m)
  {
    && W.Sound(wire) && (o.columnInfo ==> o.typeNames) && body == W.Encode(o, wire)
    && Translatable(W.DecodedMessage(o, wire))
    && (wire.BeginMsg? <==> RowOf(src, m).BeginSql?) && (wire.CommitMsg? <==> RowOf(src, m).CommitSql?)
    && Renders(cat, RowOf(src, m), G.MessageText(W.DecodedMessage(o, wire)))
  }

  /** BEGIN and COMMIT are logged as the texts that the apply thread knows them by. */
  lemma {:induction false} BracketsCarried(cat: Catalog, src: Source, o: W.Options, wire: W.Message, m: Msg)
    requires IsMsg(src, m) && !RowOf(src, m).Statement? && W.Sound(wire) && (o.columnInfo ==> o.typeNames)
    requires if RowOf(src, m).BeginSql? then wire.BeginMsg? else wire.CommitMsg?
    ensures Carries(cat, src, o, wire, m, W.Encode(o, wire))
  {
    hide W.Encode;
  }

  /** And so is a change, as the text of its statement. */
  lemma {:induction false} ChangeCarried(cat: Catalog, src: Source, o: W.Options, wire: W.Message, m: Msg, t: TableName, op: KeyedTables.Operation)
    requires IsMsg(src, m) && W.Sound(wire) && wire.ChangeMsg? && (o.columnInfo ==> o.typeNames)
    requires Translatable(W.DecodedMessage(o, wire)) && Logged(cat, W.DecodedMessage(o, wire), t, op)
    requires RowOf(src, m) == S.Statement(OnTable(t, op))
    ensures Carries(cat, src, o, wire, m, W.Encode(o, wire))
  {
    hide W.Encode;
    hide Logged;
    hide Translatable;
    hide W.DecodedMessage;
  }

  /** What arrives on the stream of `r`: keepalives that name no position past a transaction still to be sent, and
      the next message with its position. */
  ghost predicate Promised(cat: Catalog, src: Source, o: W.Options, wire: W.Message, r: State, a: Arrival)
    requires CommitOrder(src)
  {
    && Sane(a)
    && (a.Data? ==> r.stream.Some?)
    && (IsKeepalive(a) ==> |a.bytes| >= 9 && Enabled(src, Event.Keepalive(PositionAt(a.bytes, 1)), r))
    && (IsMessage(a) ==>
        && r.stream.Some? && IsMsg(src, r.stream.value)
        && TheLater(MsgLsn(src, r.stream.value), PositionAt(a.bytes, 1), PositionAt(a.bytes, 9))
        && Carries(cat, src, o, wire, r.stream.value, a.bytes[25..]))
  }

  /** `x` is the later of the two. */
  predicate TheLater(x: int, a: int, b: int) { a <= x && b <= x && (x == a || x == b) }

  /** The state after what a call of the handler's loop told. */
  ghost predicate AfterCall(src: Source, evs: seq<Event>, lsn: int, r: State, z: State) {
    && z.pos == Acts(r.pos, evs, lsn)
    && z.log == r.log && z.open == r.open && z.nextId == r.nextId && z.entries == r.entries
    && (if FeedbackFails in evs then z.stream.None? && z.pending.None?
        else if Message in evs then
          r.stream.Some? && IsMsg(src, r.stream.value) && z.pending == r.stream && z.stream == Some(NextMsg(src, r.stream.value))
        else z.stream == r.stream && z.pending.None?)
  }

  /** The next event of a call can be taken. */
  lemma {:induction false} NextEvent(src: Source, evs: seq<Event>, ev: Event, lsn: int, r: State, z: State)
    requires CommitOrder(src) && Ordered(evs + [ev]) && r.stream.Some? && AfterCall(src, evs, lsn, r, z)
    requires ev.Keepalive? ==> Enabled(src, ev, r)
    requires ev.Message? ==> IsMsg(src, r.stream.value) && lsn == MsgLsn(src, r.stream.value)
    ensures Enabled(src, ev, z) && AfterCall(src, evs + [ev], lsn, r, Do(src, ev, z))
  {
    var all := evs + [ev];
    forall i | 0 <= i < |evs| ensures !evs[i].FeedbackFails? && (evs[i].Message? ==> FeedbackEvent(ev)) {
      assert all[i] == evs[i] && all[|evs|] == ev;
    }
    assert all[|evs|] == ev;
    ActsSnoc(r.pos, evs, ev, lsn);
    ActIsDo(src, ev, z);
  }

  /** What the loop tells is a run of the protocol. */
  lemma {:induction false} PlaysOut(src: Source, evs: seq<Event>, lsn: int, r: State)
    requires CommitOrder(src) && Ordered(evs) && r.pending.None? && (evs != [] ==> r.stream.Some?)
    requires forall i | 0 <= i < |evs| && evs[i].Keepalive? :: Enabled(src, evs[i], r)
    requires Message in evs ==> IsMsg(src, r.stream.value) && lsn == MsgLsn(src, r.stream.value)
    ensures Play(src, evs, r).Some? && AfterCall(src, evs, lsn, r, Play(src, evs, r).value)
    decreases |evs|
  {
    if evs != [] {
      var n := |evs| - 1;
      var before, ev := evs[..n], evs[n];
      assert before + [ev] == evs;
      assert Ordered(before);
      PlaysOut(src, before, lsn, r);
      var z := Play(src, before, r).value;
      NextEvent(src, before, ev, lsn, r, z);
      PlayOne(src, ev, z);
      PlayThen(src, before, [ev], r, z, Do(src, ev, z));
    }
  }

  lemma {:induction false} CarriesKnown(cat: Catalog, src: Source, o: W.Options, wire: W.Message, m: Msg, body: string)
    requires IsMsg(src, m) && Carries(cat, src, o, wire, m, body)
    ensures KnownAction(body)
  {
    hide Translatable;
    hide Renders;
    hide W.Encode;
    W.EncodeKind(o, wire);
  }

  /** The handler takes exactly the actions of which the reader can read a message. */
  lemma {:induction false} KnownIff(c: char)
    ensures KnownAction([c]) <==> exists rest :: W.Parse([c] + rest).Some?
  {
    var o, rel := W.Options(false, false, false), W.Relation("", "", [], None);
    if KnownAction([c]) {
      var m := if c == 'B' then W.BeginMsg(0, 0, 0) else if c == 'C' then W.CommitMsg(0, 0, 0)
               else W.ChangeMsg(rel, if c == 'I' then W.Insert([]) else if c == 'U' then W.Update(None, []) else W.Delete(None));
      W.WireRoundTrip(o, m);
      KindIs(o, m, c);
      assert W.Encode(o, m) == [c] + W.Encode(o, m)[1..];
    }
    if rest :| W.Parse([c] + rest).Some? {
      assert ([c] + rest)[0] == c;
    }
  }

  lemma {:induction false} KindIs(o: W.Options, m: W.Message, c: char)
    requires m.ChangeMsg? ==> W.Fits(m.rel, m.change)
    requires c == match m case BeginMsg(_, _, _) => 'B' case CommitMsg(_, _, _) => 'C'
                  case ChangeMsg(_, Insert(_)) => 'I' case ChangeMsg(_, Update(_, _)) => 'U' case ChangeMsg(_, Delete(_)) => 'D'
    ensures W.Encode(o, m) != "" && W.Encode(o, m)[0] == c
  {
  }

  /** All that arrives in a round is what the server promises; nothing does when the stream could not be started. */
  ghost predicate AllPromised(cat: Catalog, src: Source, o: W.Options, wire: W.Message, r: State, arrivals: seq<Arrival>)
    requires CommitOrder(src)
  {
    && (forall i | 0 <= i < |arrivals| :: Promised(cat, src, o, wire, r, arrivals[i]))
    && (r.stream.None? ==> arrivals == [] || arrivals[0].Broken?)
  }

  /** Waiting for a message: the events told are a run of the protocol, and what is returned is what the message at
      hand carries. */
  method Await(local: LocalSession, hander: DecoderHandler, arrivals: seq<Arrival>, clock: seq<Times>,
               ghost cat: Catalog, ghost src: Source, ghost o: W.Options, ghost wire: W.Message, ghost r: State)
      returns (body: Option<string>, ghost parts: seq<seq<Event>>, ghost z: State)
    requires CommitOrder(src) && Shows(cat, local, hander, r) && r.pending.None?
    requires AllPromised(cat, src, o, wire, r, arrivals) && |clock| == |arrivals|
    modifies hander, hander.conn
    ensures Rounds(arrivals, clock, old(hander.lastStatus), parts) && Over(arrivals, parts)
    ensures hander.Did(r.pos, Joined(parts), LsnOf(arrivals, parts), old(hander.conn.sent), old(hander.conn.refused))
    ensures Play(src, Joined(parts), r) == Some(z) && Shows(cat, local, hander, z)
    ensures body.Some? <==> Got(arrivals, parts)
    ensures body.None? ==> z.pending.None?
    ensures body.Some? ==>
      z.pending.Some? && z.pending == r.stream && IsMsg(src, z.pending.value) && Carries(cat, src, o, wire, z.pending.value, body.value)
  {
    hide Tells;
    hide Carries;
    hide KnownAction;
    hide Joined;
    hide Ordered;
    hide Arrived;
    hide StatusAt;
    body, parts := hander.ExecLogicalDecoder(arrivals, clock);
    z := PlaysRounds(cat, src, o, wire, r, arrivals, clock, old(hander.lastStatus), parts);
  }

  /** What the rounds told is a run of the protocol. */
  lemma {:induction false} PlaysRounds(cat: Catalog, src: Source, o: W.Options, wire: W.Message, r: State, arrivals: seq<Arrival>,
                                       clock: seq<Times>, status: int, parts: seq<seq<Event>>) returns (z: State)
    requires CommitOrder(src) && r.pending.None? && AllPromised(cat, src, o, wire, r, arrivals)
    requires Rounds(arrivals, clock, status, parts)
    ensures Play(src, Joined(parts), r) == Some(z) && AfterCall(src, Joined(parts), LsnOf(arrivals, parts), r, z)
    ensures z.pending.Some? <==> Got(arrivals, parts)
    ensures Got(arrivals, parts) ==>
      z.pending == r.stream && IsMsg(src, z.pending.value) && Carries(cat, src, o, wire, z.pending.value, arrivals[|parts| - 1].bytes[25..])
  {
    hide Rounds;
    hide Joined;
    hide Ordered;
    hide Arrived;
    hide AllPromised;
    hide Carries;
    hide LsnOf;
    var evs := Joined(parts);
    assert parts[..|parts|] == parts;
    RoundsOrdered(arrivals, clock, status, parts, |parts|);
    KeepalivesPromised(cat, src, o, wire, r, arrivals, evs);
    MessageAtLast(cat, src, o, wire, r, arrivals, clock, status, parts);
    PlaysOut(src, evs, LsnOf(arrivals, parts), r);
    z := Play(src, evs, r).value;
  }

  /** A message that the rounds told is that of the stream. */
  lemma {:induction false} MessageAtLast(cat: Catalog, src: Source, o: W.Options, wire: W.Message, r: State, arrivals: seq<Arrival>,
                                         clock: seq<Times>, status: int, parts: seq<seq<Event>>)
    requires CommitOrder(src) && AllPromised(cat, src, o, wire, r, arrivals) && Rounds(arrivals, clock, status, parts)
    ensures |parts| <= |arrivals| && (Joined(parts) != [] ==> r.stream.Some?)
    ensures Got(arrivals, parts) <==> Message in Joined(parts) && FeedbackFails !in Joined(parts)
    ensures Message in Joined(parts) ==>
      && |parts| > 0 && IsMessage(arrivals[|parts| - 1]) && IsMsg(src, r.stream.value)
      && LsnOf(arrivals, parts) == MsgLsn(src, r.stream.value)
      && Carries(cat, src, o, wire, r.stream.value, arrivals[|parts| - 1].bytes[25..])
  {
    hide Ordered;
    hide Arrived;
    hide Carries;
    hide KnownAction;
    hide PositionAt;
    hide Joined;
    hide Tells;
    var n := |parts|;
    assert parts[..n] == parts;
    RoundsOrdered(arrivals, clock, status, parts, n);
    if r.stream.None? {
      NothingFirst(arrivals, clock, status, parts);
    }
    if n > 0 {
      RoundPartIs(arrivals, n - 1, clock[n - 1], InRedo(arrivals, n - 1), StatusAt(arrivals, clock, status, parts, n - 1), parts[n - 1]);
      if IsMessage(arrivals[n - 1]) {
        assert Promised(cat, src, o, wire, r, arrivals[n - 1]);
        HeaderLsnIs(arrivals[n - 1].bytes);
        CarriesKnown(cat, src, o, wire, r.stream.value, arrivals[n - 1].bytes[25..]);
      }
    }
  }

  /** Nothing is told of a stream that could not be started. */
  lemma {:induction false} NothingFirst(arrivals: seq<Arrival>, clock: seq<Times>, status: int, parts: seq<seq<Event>>)
    requires Rounds(arrivals, clock, status, parts) && (arrivals == [] || arrivals[0].Broken?)
    ensures Joined(parts) == []
  {
    if parts != [] {
      assert Tells(arrivals[0], clock[0], InRedo(arrivals, 0), StatusAt(arrivals, clock, status, parts, 0), parts[0]);
      assert parts == [[]] && parts[..0] == [];
    }
  }

  lemma {:induction false} KeepalivesPromised(cat: Catalog, src: Source, o: W.Options, wire: W.Message, r: State,
                                              arrivals: seq<Arrival>, evs: seq<Event>)
    requires CommitOrder(src) && AllPromised(cat, src, o, wire, r, arrivals) && Arrived(arrivals, evs)
    ensures forall i | 0 <= i < |evs| && evs[i].Keepalive? :: Enabled(src, evs[i], r)
  {
    hide Carries;
    forall i | 0 <= i < |evs| && evs[i].Keepalive? ensures Enabled(src, evs[i], r) {
      var j :| 0 <= j < |arrivals| && IsKeepalive(arrivals[j])
        && (|arrivals[j].bytes| >= 9 ==> evs[i].walEnd == PositionAt(arrivals[j].bytes, 1));
      assert Promised(cat, src, o, wire, r, arrivals[j]);
    }
  }

  /** Connections come and go beside the log. */
  lemma {:induction false} StillShows(local: LocalSession, hander: DecoderHandler, cat: Catalog, src: Source, ev: Event, r: State)
    requires CommitOrder(src) && Enabled(src, ev, r) && (ev.Connect? || ev.Disconnect?) && Shows(cat, local, hander, r)
    ensures Shows(cat, local, hander, Do(src, ev, r)) && Do(src, ev, r).pending == r.pending
  {
  }

  lemma {:induction false} PlayNothing(src: Source, r: State)
    requires CommitOrder(src)
    ensures Play(src, [], r) == Some(r)
  {
  }

  /** The message in hand as text in the log. */
  method TranslateAndStore(local: LocalSession, hander: DecoderHandler, scratch: StringInfo, body: string,
                           ghost cat: Catalog, ghost src: Source, ghost o: W.Options, ghost wire: W.Message, ghost r: State)
      returns (ghost evs: seq<Event>, ghost z: State)
    requires CommitOrder(src) && Shows(cat, local, hander, r) && scratch.Valid()
    requires r.pending.Some? && IsMsg(src, r.pending.value) && Carries(cat, src, o, wire, r.pending.value, body)
    modifies local, hander, scratch, scratch.data
    ensures Play(src, evs, r) == Some(z) && Shows(cat, local, hander, z) && z.pending.None?
    ensures old(local.log) <= local.log
    ensures scratch.Valid() && (scratch.data == old(scratch.data) || fresh(scratch.data))
    ensures evs == [Store]
  {
    hide Shows;
    hide Play;
    hide Renders;
    hide Translatable;
    hide W.Encode;
    ghost var m := r.pending.value;
    var rc, typ, text := Translate(body, scratch, o, wire);
    StoreMessage(local, hander, typ, text, cat, src, r, m);
    PlayOne(src, Store, r);
    evs, z := [Store], Do(src, Store, r);
  }

  /** The connection is made, if it is. */
  lemma {:induction false} Opened(local: LocalSession, hander: DecoderHandler, cat: Catalog, src: Source, connects: bool, r: State)
      returns (evs: seq<Event>, z: State)
    requires CommitOrder(src) && Shows(cat, local, hander, r) && r.pending.None? && (connects ==> r.stream.None?)
    ensures evs == if connects then [Connect] else []
    ensures z == (if connects then Do(src, Connect, r) else r) && z.pos == r.pos && z.pending.None?
    ensures Play(src, evs, r) == Some(z) && Shows(cat, local, hander, z)
  {
    hide Shows;
    hide Play;
    evs, z := [], r;
    PlayNothing(src, r);
    if connects {
      StillShows(local, hander, cat, src, Connect, r);
      PlayOne(src, Connect, r);
      evs, z := [Connect], Do(src, Connect, r);
    }
  }

  /** Without a message the connection goes. */
  lemma {:induction false} GiveUp(local: LocalSession, hander: DecoderHandler, cat: Catalog, src: Source, r: State)
      returns (evs: seq<Event>, z: State)
    requires CommitOrder(src) && Shows(cat, local, hander, r) && r.pending.None?
    ensures Play(src, evs, r) == Some(z) && Shows(cat, local, hander, z) && z.pending.None? && z.stream.None?
    ensures evs == if r.stream.Some? then [Disconnect] else []
  {
    hide Shows;
    hide Play;
    evs, z := [], r;
    PlayNothing(src, r);
    if r.stream.Some? {
      StillShows(local, hander, cat, src, Disconnect, r);
      PlayOne(src, Disconnect, r);
      evs, z := [Disconnect], Do(src, Disconnect, r);
    }
  }

  /** One round: connect if there is no stream, wait for a message, translate and store it; without one the
      connection is given up.  Whatever happens is a run of the protocol from the state before to the state
      after: the connection, what waiting told, and the store of the message or the end of the connection. */
  method Round(local: LocalSession, hander: DecoderHandler, scratch: StringInfo, init: bool, connected: bool, arrivals: seq<Arrival>,
               clock: seq<Times>, ghost cat: Catalog, ghost src: Source, ghost o: W.Options, ghost wire: W.Message, ghost r: State)
      returns (streaming: bool, ghost parts: seq<seq<Event>>, ghost last: seq<Event>, ghost evs: seq<Event>, ghost z: State)
    requires CommitOrder(src) && Shows(cat, local, hander, r) && r.pending.None? && scratch.Valid()
    requires !init ==> r.stream.None?
    requires AllPromised(cat, src, o, wire, if !init && connected then Do(src, Connect, r) else r, arrivals) && |clock| == |arrivals|
    modifies local, hander, hander.conn, scratch, scratch.data
    ensures Rounds(arrivals, clock, old(hander.lastStatus), parts) && Over(arrivals, parts)
    ensures evs == (if !init && connected then [Connect] else []) + Joined(parts) + last
    ensures if streaming then last == [Store] else last == [Disconnect] || last == []
    ensures old(hander.conn.sent) <= hander.conn.sent
    ensures Reported(r.pos, Joined(parts), LsnOf(arrivals, parts), hander.conn.sent[|old(hander.conn.sent)|..])
    ensures Play(src, evs, r) == Some(z) && Shows(cat, local, hander, z) && z.pending.None?
    ensures streaming <==> Got(arrivals, parts)
    ensures !streaming ==> z.stream.None?
    ensures old(local.log) <= local.log
    ensures scratch.Valid() && (scratch.data == old(scratch.data) || fresh(scratch.data))
  {
    hide Shows;
    hide Play;
    hide AllPromised;
    hide Rounds;
    hide Reported;
    hide Joined;
    hide Got;
    hide Over;
    hide CommitOrder;
    hide Enabled;
    hide Do;
    streaming := init;
    if !streaming {
      streaming := true;
    }
    evs, z := Opened(local, hander, cat, src, !init && connected, r);
    ghost var r1 := z;
    var body;
    body, parts, z := Await(local, hander, arrivals, clock, cat, src, o, wire, r1);
    PlayThen(src, evs, Joined(parts), r, r1, z);
    evs := evs + Joined(parts);
    ghost var z' := z;
    last := [];
    if body.Some? {
      last, z' := TranslateAndStore(local, hander, scratch, body.value, cat, src, o, wire, z);
    } else {
      streaming := false;
      last, z' := GiveUp(local, hander, cat, src, z);
    }
    PlayThen(src, evs, last, r, z, z');
    evs, z := evs + last, z';
  }
}
