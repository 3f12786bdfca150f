/** The apply thread: it reads `sync_sqls` behind its durable position, sends each row to the target,
    passes over a duplicate key that is the first statement of its target transaction, and writes its
    position back after every fifth commit and at the end of the log. */
module ApplyThread {
  import opened OptionType
  import opened Replay
  import opened SyncLog

  const CHECKPOINT_EVERY := 5

  // ---- The target server -------------------------------------------------------------------------

  /** The transaction state of the target session.  `Open` remembers the statements that succeeded. */
  datatype Tx<K, V> = Idle | Open(work: map<K, V>, ran: seq<Op<K, V>>) | Failed

  datatype Status = CommandOk | DuplicateKeyError | OtherError

  datatype Session<K, V> = Session(db: map<K, V>, tx: Tx<K, V>)

  datatype Reply<K, V> = Reply(session: Session<K, V>, status: Status)

  /** What the server does with one command. */
  function Send<K, V>(s: Session<K, V>, sql: Sql<K, V>): Reply<K, V> {
    match sql
    case BeginSql => (
      match s.tx
      case Idle => Reply(s.(tx := Open(s.db, [])), CommandOk)
      case Open(_, _) => Reply(s, CommandOk)
      case Failed => Reply(s, OtherError))
    case CommitSql => (
      match s.tx
      case Idle => Reply(s, CommandOk)
      case Open(w, _) => Reply(Session(w, Idle), CommandOk)
      case Failed => Reply(s.(tx := Idle), CommandOk))
    case Statement(op) => (
      match s.tx
      case Idle => (
        match Exec(op, s.db)
        case Done(db) => Reply(s.(db := db), CommandOk)
        case DuplicateKey => Reply(s, DuplicateKeyError))
      case Open(w, ran) => (
        match Exec(op, w)
        case Done(w') => Reply(s.(tx := Open(w', ran + [op])), CommandOk)
        case DuplicateKey => Reply(s.(tx := Failed), DuplicateKeyError))
      case Failed => Reply(s, OtherError))
  }

  // ---- One row of the log ------------------------------------------------------------------------

  datatype SqlType = SqlBegin | SqlCommit | FirstStatement | OtherStatement

  /** The thread's variables; the cursor stands on row `next` of the log and ends before `limit`.
      `writing` says that the position is about to be written back. */
  datatype Thread = Thread(applyId: int, nCommit: nat, sqlType: SqlType, next: nat, limit: nat, writing: bool)

  function Classify<K, V>(sql: Sql<K, V>, before: SqlType): SqlType {
    match sql
    case BeginSql => SqlBegin
    case CommitSql => SqlCommit
    case Statement(_) => if before.SqlBegin? then FirstStatement else OtherStatement
  }

  datatype RowResult<K, V> = Continue(thread: Thread, session: Session<K, V>) | Exit

  function ApplyRow<K, V>(th: Thread, s: Session<K, V>, row: LogRow<K, V>): RowResult<K, V> {
    var sqlType := Classify(row.sql, th.sqlType);
    var r := Send(s, row.sql);
    if r.status.CommandOk? then
      var th' := th.(sqlType := sqlType, next := th.next + 1);
      if sqlType.SqlCommit? then
        Continue(th'.(applyId := row.id, nCommit := th.nCommit + 1, writing := th.nCommit + 1 == CHECKPOINT_EVERY), r.session)
      else
        Continue(th', r.session)
    else if r.status.DuplicateKeyError? && sqlType.FirstStatement? then
      var ended := Send(r.session, CommitSql);
      if !ended.status.CommandOk? then Exit
      else
        var begun := Send(ended.session, BeginSql);
        if !begun.status.CommandOk? then Exit
        else Continue(th.(sqlType := SqlBegin, next := th.next + 1), begun.session)
    else Exit
  }

  /** The connection to the target, and the thread's loop body as the program runs it. */
  class Target<K(==), V> {
    var db: map<K, V>
    var tx: Tx<K, V>

    constructor (db: map<K, V>)
      ensures View() == Session(db, Idle)
    {
      this.db := db;
      this.tx := Idle;
    }

    function View(): Session<K, V>
      reads this
    {
      Session(db, tx)
    }

    method PQexec(sql: Sql<K, V>) returns (status: Status)
      modifies this
      ensures Reply(View(), status) == Send(old(View()), sql)
    {
      status := CommandOk;
      match sql {
        case BeginSql =>
          if tx.Idle? {
            tx := Open(db, []);
          } else if tx.Failed? {
            status := OtherError;
          }
        case CommitSql =>
          if tx.Open? {
            db := tx.work;
          }
          tx := Idle;
        case Statement(op) =>
          if tx.Failed? {
            status := OtherError;
          } else {
            var before := if tx.Open? then tx.work else db;
            match Exec(op, before) {
              case Done(after) =>
                if tx.Open? {
                  tx := Open(after, tx.ran + [op]);
                } else {
                  db := after;
                }
              case DuplicateKey =>
                status := DuplicateKeyError;
                if tx.Open? {
                  tx := Failed;
                }
            }
          }
      }
    }
  }

  class Applier<K(==), V> {
    var applyId: int
    var nCommit: nat
    var sqlType: SqlType
    var next: nat
    var limit: nat
    var writing: bool
    const target: Target<K, V>

    function View(): Thread
      reads this
    {
      Thread(applyId, nCommit, sqlType, next, limit, writing)
    }

    constructor (target: Target<K, V>, applyId: int)
      ensures this.target == target
      ensures View() == Thread(applyId, 0, SqlBegin, 0, 0, false)
    {
      this.target := target;
      this.applyId, this.nCommit, this.sqlType := applyId, 0, SqlBegin;
      this.next, this.limit, this.writing := 0, 0, false;
    }

    /** One round of the fetch loop.  `go` is false when the thread gives up. */
    method Fetched(row: LogRow<K, V>) returns (go: bool)
      modifies this, target
      ensures go <==> ApplyRow(old(View()), old(target.View()), row).Continue?
      ensures go ==> ApplyRow(old(View()), old(target.View()), row) == Continue(View(), target.View())
      ensures !go ==> target.db == old(target.db)
    {
      if row.sql.BeginSql? {
        sqlType := SqlBegin;
      } else if row.sql.CommitSql? {
        sqlType := SqlCommit;
      } else if sqlType == SqlBegin {
        sqlType := FirstStatement;
      } else {
        sqlType := OtherStatement;
      }

      var status := target.PQexec(row.sql);
      if status != CommandOk {
        if status == DuplicateKeyError && sqlType == FirstStatement {
          status := target.PQexec(CommitSql);
          if status != CommandOk {
            return false;
          }
          status := target.PQexec(BeginSql);
          if status != CommandOk {
            return false;
          }
          sqlType := SqlBegin;
        } else {
          return false;
        }
      }

      if sqlType == SqlCommit {
        nCommit := nCommit + 1;
        applyId := row.id;
        writing := nCommit == CHECKPOINT_EVERY;
      }
      next := next + 1;
      return true;
    }
  }

  // ---- The thread, the target and the durable position as a state machine -------------------------

  /** `durable` is `db_sync_status.apply_id`.  `done` and `lost` are history: the number of log
      transactions the target has ever committed, and the number of position writes that failed (the
      thread does not look at their outcome). */
  datatype Apply<K, V> = Apply(durable: int, session: Session<K, V>, thread: Option<Thread>, done: nat, lost: nat)

  datatype Event = StartThread | Declare | Fetch | WriteBack(ok: bool) | EndOfCursor(ok: bool) | Crash

  function WritePosition<K, V>(a: Apply<K, V>, ok: bool): Apply<K, V>
    requires a.thread.Some?
  {
    if ok then a.(durable := a.thread.value.applyId) else a.(lost := a.lost + 1)
  }

  /** Number of `commit;` rows: every one ends a transaction. */
  function Commits<K, V>(rows: seq<LogRow<K, V>>): nat {
    if rows == [] then 0
    else Commits(rows[..|rows| - 1]) + if rows[|rows| - 1].sql.CommitSql? then 1 else 0
  }

  function Most(a: nat, b: nat): nat { if a < b then b else a }

  ghost predicate Step<K, V>(log: seq<LogRow<K, V>>, ev: Event, a: Apply<K, V>, a': Apply<K, V>) {
    match ev
    case Crash =>
      // the process ends or the thread gives up: the target rolls the open transaction back
      a' == a.(thread := None, session := a.session.(tx := Idle))
    case StartThread =>
      && a.thread.None?
      && var n := Below(log, a.durable);
      a' == a.(thread := Some(Thread(a.durable, 0, SqlBegin, n, n, false)))
    case Declare =>
      && a.thread.Some?
      && var th := a.thread.value;
      && th.next == th.limit && !th.writing && th.nCommit == 0
      && a' == a.(thread := Some(th.(sqlType := SqlBegin, next := Below(log, th.applyId), limit := |log|)))
    case Fetch =>
      && a.thread.Some?
      && var th := a.thread.value;
      && th.next < th.limit <= |log| && !th.writing
      && var r := ApplyRow(th, a.session, log[th.next]);
      && r.Continue?
      && a' == a.(thread := Some(r.thread), session := r.session,
                  done := Most(a.done, Commits(log[..r.thread.next])))
    case WriteBack(ok) =>
      && a.thread.Some? && a.thread.value.writing
      && a' == WritePosition(a, ok).(thread := Some(a.thread.value.(nCommit := 0, writing := false)))
    case EndOfCursor(ok) =>
      && a.thread.Some?
      && var th := a.thread.value;
      && th.next == th.limit && !th.writing && th.nCommit != 0
      && a' == WritePosition(a, ok).(thread := Some(th.(nCommit := 0)))
  }
}
