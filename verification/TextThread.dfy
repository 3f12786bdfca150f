/** The apply thread on the texts that are logged and the tables of the target.  Every step of it is a step of the
    abstract thread on operations and maps, so what is proved of that one holds of the texts and the rows. */
module TextThread {
  import opened OptionType
  import opened Wire
  import opened SqlMeaning
  import opened SqlGen
  import opened KeyedTables
  import opened Databases
  import opened ApplyThread
  import Replay
  import SqlRoundTrip
  import S = SyncLog

  // ---- The texts of the log ----------------------------------------------------------------------------------

  datatype TextRow = TextRow(id: int, sql: string)

  type Sql = S.Sql<RowId, TableRow>

  type Rows = seq<S.LogRow<RowId, TableRow>>

  /** The text that is logged for the operation. */
  ghost predicate Renders(cat: Catalog, sql: Sql, text: string) {
    match sql
    case BeginSql => text == "begin;"
    case CommitSql => text == "commit;"
    case Statement(op) =>
      exists d: Decoded, t: TableName, o :: Logged(cat, d, t, o) && op == OnTable(t, o) && text == MessageText(d)
  }

  ghost predicate Rendered(cat: Catalog, rows: Rows, texts: seq<TextRow>) {
    && |rows| == |texts|
    && forall i | 0 <= i < |rows| :: rows[i].id == texts[i].id && Renders(cat, rows[i].sql, texts[i].sql)
  }

  // ---- The target server -------------------------------------------------------------------------------------

  datatype TextTx = TextIdle | TextOpen(work: Database) | TextFailed

  datatype TextSession = TextSession(db: Database, tx: TextTx)

  datatype TextReply = TextReply(session: TextSession, status: Status)

  /** What the server does with a text. */
  function SendText(cat: Catalog, s: TextSession, text: string): TextReply {
    if text == "begin;" || text == "BEGIN" then
      match s.tx
      case TextIdle => TextReply(s.(tx := TextOpen(s.db)), CommandOk)
      case TextOpen(_) => TextReply(s, CommandOk)
      case TextFailed => TextReply(s, OtherError)
    else if text == "commit;" || text == "END" then
      match s.tx
      case TextIdle => TextReply(s, CommandOk)
      case TextOpen(w) => TextReply(TextSession(w, TextIdle), CommandOk)
      case TextFailed => TextReply(s.(tx := TextIdle), CommandOk)
    else if s.tx.TextFailed? then TextReply(s, OtherError)
    else
      match ExecText(cat, text, if s.tx.TextOpen? then s.tx.work else s.db)
      case Ok(db) => TextReply(if s.tx.TextOpen? then s.(tx := TextOpen(db)) else s.(db := db), CommandOk)
      case Duplicate => TextReply(if s.tx.TextOpen? then s.(tx := TextFailed) else s, DuplicateKeyError)
      case Error => TextReply(if s.tx.TextOpen? then s.(tx := TextFailed) else s, OtherError)
  }

  // ---- The thread --------------------------------------------------------------------------------------------

  function ClassifyText(text: string, before: SqlType): SqlType {
    if text == "begin;" then SqlBegin
    else if text == "commit;" then SqlCommit
    else if before.SqlBegin? then FirstStatement
    else OtherStatement
  }

  datatype TextResult = TextContinue(thread: Thread, session: TextSession) | TextExit

  function ApplyText(cat: Catalog, th: Thread, s: TextSession, row: TextRow): TextResult {
    var sqlType := ClassifyText(row.sql, th.sqlType);
    var r := SendText(cat, s, row.sql);
    if r.status.CommandOk? then
      var th' := th.(sqlType := sqlType, next := th.next + 1);
      if sqlType.SqlCommit? then
        TextContinue(th'.(applyId := row.id, nCommit := th.nCommit + 1, writing := th.nCommit + 1 == CHECKPOINT_EVERY), r.session)
      else
        TextContinue(th', r.session)
    else if r.status.DuplicateKeyError? && sqlType.FirstStatement? then
      var ended := SendText(cat, r.session, "END");
      if !ended.status.CommandOk? then TextExit
      else
        var begun := SendText(cat, ended.session, "BEGIN");
        if !begun.status.CommandOk? then TextExit
        else TextContinue(th.(sqlType := SqlBegin, next := th.next + 1), begun.session)
    else TextExit
  }

  function TextBelow(log: seq<TextRow>, after: int): nat {
    if log == [] || log[0].id > after then 0 else 1 + TextBelow(log[1..], after)
  }

  datatype TextApply = TextApply(durable: int, session: TextSession, thread: Option<Thread>)

  function Written(a: TextApply, ok: bool): TextApply
    requires a.thread.Some?
  {
    if ok then a.(durable := a.thread.value.applyId) else a
  }

  ghost predicate TextStep(cat: Catalog, log: seq<TextRow>, ev: Event, a: TextApply, a': TextApply) {
    match ev
    case Crash => a' == a.(thread := None, session := a.session.(tx := TextIdle))
    case StartThread =>
      && a.thread.None?
      && var n := TextBelow(log, a.durable);
      a' == a.(thread := Some(Thread(a.durable, 0, SqlBegin, n, n, false)))
    case Declare =>
      && a.thread.Some?
      && var th := a.thread.value;
      && th.next == th.limit && !th.writing && th.nCommit == 0
      && a' == a.(thread := Some(th.(sqlType := SqlBegin, next := TextBelow(log, th.applyId), limit := |log|)))
    case Fetch =>
      && a.thread.Some?
      && var th := a.thread.value;
      && th.next < th.limit <= |log| && !th.writing
      && var r := ApplyText(cat, th, a.session, log[th.next]);
      && r.TextContinue?
      && a' == a.(thread := Some(r.thread), session := r.session)
    case WriteBack(ok) =>
      && a.thread.Some? && a.thread.value.writing
      && a' == Written(a, ok).(thread := Some(a.thread.value.(nCommit := 0, writing := false)))
    case EndOfCursor(ok) =>
      && a.thread.Some?
      && var th := a.thread.value;
      && th.next == th.limit && !th.writing && th.nCommit != 0
      && a' == Written(a, ok).(thread := Some(th.(nCommit := 0)))
  }

  // ---- Both in step ------------------------------------------------------------------------------------------

  ghost predicate SameTx(cat: Catalog, tx: Tx<RowId, TableRow>, tx': TextTx) {
    match tx
    case Idle => tx'.TextIdle?
    case Open(w, _) => tx'.TextOpen? && HoldsAll(cat, w, tx'.work)
    case Failed => tx'.TextFailed?
  }

  /** The tables hold what the maps say. */
  ghost predicate SameSession(cat: Catalog, s: Session<RowId, TableRow>, s': TextSession) {
    HoldsAll(cat, s.db, s'.db) && SameTx(cat, s.tx, s'.tx)
  }

  ghost predicate SameApply(cat: Catalog, a: Apply<RowId, TableRow>, a': TextApply) {
    a.durable == a'.durable && a.thread == a'.thread && SameSession(cat, a.session, a'.session)
  }

  /** The text of a change is taken for none of the commands. */
  lemma {:induction false} NotACommand(cat: Catalog, d: Decoded, t: TableName, op: Operation)
    requires Logged(cat, d, t, op)
    ensures MessageText(d) !in {"begin;", "commit;", "BEGIN", "END"}
  {
    SqlRoundTrip.NotABracket(OutputOf(d).stmt);
  }

  /** BEGIN and COMMIT, however they are written. */
  lemma {:induction false} CommandSame(cat: Catalog, s: Session<RowId, TableRow>, s': TextSession, sql: Sql, text: string)
    requires SameSession(cat, s, s')
    requires (sql.BeginSql? && (text == "begin;" || text == "BEGIN")) || (sql.CommitSql? && (text == "commit;" || text == "END"))
    ensures SendText(cat, s', text).status == Send(s, sql).status
    ensures SameSession(cat, Send(s, sql).session, SendText(cat, s', text).session)
  {
    hide HoldsAll;
    hide ExecText;
  }

  ghost predicate SameResult(cat: Catalog, o: Replay.Outcome<RowId, TableRow>, r: Result) {
    match o
    case Done(m) => r.Ok? && HoldsAll(cat, m, r.db)
    case DuplicateKey => r.Duplicate?
  }

  /** A statement in the same state with the same result. */
  lemma {:induction false} StatementSame(cat: Catalog, s: Session<RowId, TableRow>, s': TextSession, op: DbOp, text: string)
    requires SameSession(cat, s, s') && text !in {"begin;", "commit;", "BEGIN", "END"}
    requires !s.tx.Failed? ==>
      SameResult(cat, Replay.Exec(op, if s.tx.Open? then s.tx.work else s.db),
                 ExecText(cat, text, if s'.tx.TextOpen? then s'.tx.work else s'.db))
    ensures SendText(cat, s', text).status == Send(s, S.Statement(op)).status
    ensures SameSession(cat, Send(s, S.Statement(op)).session, SendText(cat, s', text).session)
  {
    hide HoldsAll;
    hide ExecText;
    hide Replay.Exec;
  }

  lemma {:induction false} SendSame(cat: Catalog, s: Session<RowId, TableRow>, s': TextSession, sql: Sql, text: string)
    requires SameSession(cat, s, s') && Renders(cat, sql, text)
    ensures SendText(cat, s', text).status == Send(s, sql).status
    ensures SameSession(cat, Send(s, sql).session, SendText(cat, s', text).session)
  {
    if sql.Statement? {
      var d: Decoded, t: TableName, o :| Logged(cat, d, t, o) && sql.op == OnTable(t, o) && text == MessageText(d);
      hide HoldsAll;
      hide ExecText;
      hide SendText;
      hide Send;
      hide Logged;
      hide Replay.Exec;
      NotACommand(cat, d, t, o);
      if !s.tx.Failed? {
        TextIsOp(cat, d, t, o, if s.tx.Open? then s.tx.work else s.db, if s'.tx.TextOpen? then s'.tx.work else s'.db);
      }
      StatementSame(cat, s, s', sql.op, text);
    } else {
      CommandSame(cat, s, s', sql, text);
    }
  }

  lemma {:induction false} ClassifySame(cat: Catalog, sql: Sql, text: string, before: SqlType)
    requires Renders(cat, sql, text)
    ensures ClassifyText(text, before) == Classify(sql, before)
  {
    if sql.Statement? {
      var d: Decoded, t: TableName, o :| Logged(cat, d, t, o) && sql.op == OnTable(t, o) && text == MessageText(d);
      NotACommand(cat, d, t, o);
    }
  }

  lemma {:induction false} ApplySame(cat: Catalog, th: Thread, s: Session<RowId, TableRow>, s': TextSession,
                                     row: S.LogRow<RowId, TableRow>, text: TextRow)
    requires SameSession(cat, s, s') && row.id == text.id && Renders(cat, row.sql, text.sql)
    ensures
      var (r, r') := (ApplyRow(th, s, row), ApplyText(cat, th, s', text));
      && (r.Continue? <==> r'.TextContinue?)
      && (r.Continue? ==> r.thread == r'.thread && SameSession(cat, r.session, r'.session))
  {
    hide Send;
    hide SendText;
    hide Renders;
    hide SameSession;
    hide ClassifyText;
    hide Classify;
    SendSame(cat, s, s', row.sql, text.sql);
    ClassifySame(cat, row.sql, text.sql, th.sqlType);
    var r, r' := Send(s, row.sql), SendText(cat, s', text.sql);
    CommandSame(cat, r.session, r'.session, S.CommitSql, "END");
    var e, e' := Send(r.session, S.CommitSql), SendText(cat, r'.session, "END");
    CommandSame(cat, e.session, e'.session, S.BeginSql, "BEGIN");
  }

  lemma {:induction false} BelowSame(cat: Catalog, rows: Rows, texts: seq<TextRow>, after: int)
    requires Rendered(cat, rows, texts)
    ensures S.Below(rows, after) == TextBelow(texts, after)
  {
    if rows != [] {
      assert Rendered(cat, rows[1..], texts[1..]) by {
        assert forall i | 0 <= i < |rows| - 1 :: rows[1..][i] == rows[i + 1] && texts[1..][i] == texts[i + 1];
      }
      assert rows[0].id == texts[0].id;
      BelowSame(cat, rows[1..], texts[1..], after);
    }
  }

  /** A step on texts and rows is a step on operations and maps. */
  lemma {:induction false} StepSame(cat: Catalog, log: Rows, texts: seq<TextRow>, ev: Event,
                                    a: Apply<RowId, TableRow>, t: TextApply, t': TextApply) returns (a': Apply<RowId, TableRow>)
    requires Rendered(cat, log, texts) && SameApply(cat, a, t) && TextStep(cat, texts, ev, t, t')
    ensures Step(log, ev, a, a') && SameApply(cat, a', t')
  {
    match ev
    case Crash => a' := a.(thread := None, session := a.session.(tx := Idle));
    case StartThread =>
      BelowSame(cat, log, texts, a.durable);
      a' := a.(thread := t'.thread);
    case Declare =>
      BelowSame(cat, log, texts, a.thread.value.applyId);
      a' := a.(thread := t'.thread);
    case Fetch =>
      var th := a.thread.value;
      ApplySame(cat, th, a.session, t.session, log[th.next], texts[th.next]);
      FetchIs(log, a);
      var r := ApplyRow(th, a.session, log[th.next]);
      a' := a.(thread := Some(r.thread), session := r.session, done := Most(a.done, Commits(log[..r.thread.next])));
    case WriteBack(ok) => a' := WritePosition(a, ok).(thread := t'.thread);
    case EndOfCursor(ok) => a' := WritePosition(a, ok).(thread := t'.thread);
  }

  lemma {:induction false} FetchIs(log: Rows, a: Apply<RowId, TableRow>)
    requires a.thread.Some? && a.thread.value.next < |log| && ApplyRow(a.thread.value, a.session, log[a.thread.value.next]).Continue?
    ensures ApplyRow(a.thread.value, a.session, log[a.thread.value.next]).thread.next == a.thread.value.next + 1
  {
  }
}
