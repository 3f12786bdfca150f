/** All tables of the target together: the statement of a change runs on the table it names, and a database is one
    map whose keys are pairs of a table and a key in it. */
module Databases {
  import opened CStrings
  import opened SqlText
  import opened SqlRoundTrip
  import opened Wire
  import opened SqlGen
  import opened SqlMeaning
  import opened EndToEnd
  import opened KeyedTables
  import Replay

  type TableName = (string, string)

  type Catalog = map<TableName, Schema>

  type Database = map<TableName, seq<TableRow>>

  type RowId = (TableName, Key)

  type DbMap = map<RowId, TableRow>

  type DbOp = Replay.Op<RowId, TableRow>

  datatype Result = Ok(db: Database) | Duplicate | Error

  /** The text as the server takes it: parsed, and run on the table it names. */
  function ExecText(cat: Catalog, text: string, db: Database): Result {
    match ParseQuery(text)
    case None => Error
    case Some(q) =>
      var t := TargetOf(q);
      if t !in cat || t !in db then Error else Stored(db, t, Exec(q, cat[t], db[t]))
  }

  function Stored(db: Database, t: TableName, o: Outcome): Result {
    match o
    case Done(rows) => Ok(db[t := rows])
    case DuplicateKey => Duplicate
    case Invalid => Error
  }

  /** The part of the map that belongs to one table. */
  ghost function Part(m: DbMap, t: TableName): map<Key, TableRow> {
    map id | id in m && id.0 == t :: id.1 := m[id]
  }

  function OnTable(t: TableName, op: Operation): DbOp {
    match op
    case Insert(k, v) => Replay.Insert((t, k), v)
    case Update(k, v) => Replay.Update((t, k), v)
    case Delete(k) => Replay.Delete((t, k))
    case Rekey(k, k', v) => Replay.Rekey((t, k), (t, k'), v)
  }

  /** A table with its map. */
  ghost predicate HoldsIn(s: Schema, m: map<Key, TableRow>, rows: seq<TableRow>) {
    && s.key != [] && (forall i | 0 <= i < |rows| :: rows[i].Keys == s.names)
    && KeyUnique(s.key, rows) && Represents(s.key, m, rows)
  }

  /** All tables with the map of all. */
  ghost predicate HoldsAll(cat: Catalog, m: DbMap, db: Database) {
    && db.Keys == cat.Keys
    && (forall id | id in m :: id.0 in cat)
    && forall t | t in cat :: HoldsIn(cat[t], Part(m, t), db[t])
  }

  /** The change is of that table, is that operation, and can be said in SQL. */
  ghost predicate Logged(cat: Catalog, d: Decoded, t: TableName, op: Operation) {
    && d.ChangeD? && t == (d.schema, d.name) && t in cat && NameSet(d.cols) == cat[t].names
    && Says(d, cat[t].key, op) && Writable(d) && OutputOf(d).Statement? && Expressible(d)
  }

  // ---- One statement -----------------------------------------------------------------------------------------

  lemma {:induction false} PartAt(m: DbMap, t: TableName, k: Key)
    ensures k in Part(m, t) <==> (t, k) in m
    ensures (t, k) in m ==> Part(m, t)[k] == m[(t, k)]
  {
    assert (t, k).1 == k;
  }

  lemma {:induction false} PartIs(m: DbMap, t: TableName, p: map<Key, TableRow>)
    requires forall k: Key :: (t, k) in m <==> k in p
    requires forall k: Key :: (t, k) in m ==> m[(t, k)] == p[k]
    ensures Part(m, t) == p
  {
    forall k: Key ensures (k in Part(m, t) <==> k in p) && (k in p ==> Part(m, t)[k] == p[k]) {
      PartAt(m, t, k);
    }
  }

  /** An operation on one table's part, and nothing on the others. */
  lemma {:induction false} PartExec(t: TableName, op: Operation, m: DbMap)
    ensures Replay.Exec(OnTable(t, op), m).Done? <==> Replay.Exec(op, Part(m, t)).Done?
    ensures Replay.Exec(op, Part(m, t)).Done? ==>
      Part(Replay.Exec(OnTable(t, op), m).db, t) == Replay.Exec(op, Part(m, t)).db
  {
    var p := Part(m, t);
    PartAt(m, t, op.key);
    if op.Rekey? { PartAt(m, t, op.newKey); }
    if Replay.Exec(op, p).Done? {
      var m', p' := Replay.Exec(OnTable(t, op), m).db, Replay.Exec(op, p).db;
      forall k: Key ensures ((t, k) in m' <==> k in p') && ((t, k) in m' ==> m'[(t, k)] == p'[k]) {
        PartAt(m, t, k);
      }
      PartIs(m', t, p');
    }
  }

  lemma {:induction false} OtherParts(t: TableName, op: Operation, m: DbMap, u: TableName)
    requires Replay.Exec(OnTable(t, op), m).Done? && u != t
    ensures Part(Replay.Exec(OnTable(t, op), m).db, u) == Part(m, u)
  {
    var m' := Replay.Exec(OnTable(t, op), m).db;
    forall k: Key ensures (u, k) in m' <==> k in Part(m, u) {
      PartAt(m, u, k);
    }
    forall k: Key ensures (u, k) in m' ==> m'[(u, k)] == Part(m, u)[k] {
      PartAt(m, u, k);
    }
    PartIs(m', u, Part(m, u));
  }

  lemma {:induction false} ExecStays(cat: Catalog, t: TableName, op: Operation, m: DbMap)
    requires t in cat && (forall id | id in m :: id.0 in cat) && Replay.Exec(OnTable(t, op), m).Done?
    ensures forall id | id in Replay.Exec(OnTable(t, op), m).db :: id.0 in cat
  {
  }

  lemma {:induction false} AsTable(s: Schema, cols: seq<Column>, m: map<Key, TableRow>, rows: seq<TableRow>)
    requires NameSet(cols) == s.names
    ensures HoldsIn(s, m, rows) <==> Holds(cols, s.key, m, rows)
  {
  }

  lemma {:induction false} RunsOnTable(cat: Catalog, d: Decoded, t: TableName, op: Operation, db: Database)
    requires Logged(cat, d, t, op) && db.Keys == cat.Keys
    ensures ExecText(cat, MessageText(d), db) == Stored(db, t, Exec(MeaningOf(OutputOf(d).stmt), cat[t], db[t]))
  {
    StatementReads(d);
  }

  /** The text of a change on the table it names is its operation on that table's part. */
  lemma {:induction false} TextOnTable(cat: Catalog, d: Decoded, t: TableName, op: Operation, m: DbMap, db: Database)
    requires Logged(cat, d, t, op) && HoldsAll(cat, m, db)
    ensures
      var r := ExecText(cat, MessageText(d), db);
      match Replay.Exec(op, Part(m, t))
      case Done(p) => r.Ok? && r.db.Keys == cat.Keys && r.db == db[t := r.db[t]] && HoldsIn(cat[t], p, r.db[t])
      case DuplicateKey => r.Duplicate?
  {
    hide ExecText;
    hide Exec;
    hide Expressible;
    hide Writable;
    hide MeaningOf;
    hide KeyUnique;
    hide Represents;
    RunsOnTable(cat, d, t, op, db);
    AsTable(cat[t], d.cols, Part(m, t), db[t]);
    StatementIsOp(d, cat[t].key, op, Part(m, t), db[t]);
    assert Schema(NameSet(d.cols), cat[t].key) == cat[t];
  }

  /** One table anew with its part, all others as they were. */
  lemma {:induction false} Rejoined(cat: Catalog, t: TableName, op: Operation, m: DbMap, db: Database, rows: seq<TableRow>)
    requires HoldsAll(cat, m, db) && t in cat && Replay.Exec(OnTable(t, op), m).Done?
    requires HoldsIn(cat[t], Part(Replay.Exec(OnTable(t, op), m).db, t), rows)
    ensures HoldsAll(cat, Replay.Exec(OnTable(t, op), m).db, db[t := rows])
  {
    hide HoldsIn;
    hide Replay.Exec;
    hide OnTable;
    ExecStays(cat, t, op, m);
    forall u | u in cat && u != t ensures Part(Replay.Exec(OnTable(t, op), m).db, u) == Part(m, u) {
      OtherParts(t, op, m, u);
    }
  }

  /** The text of a change on the database is its operation on the map. */
  lemma {:induction false} TextIsOp(cat: Catalog, d: Decoded, t: TableName, op: Operation, m: DbMap, db: Database)
    requires Logged(cat, d, t, op) && HoldsAll(cat, m, db)
    ensures
      var r := ExecText(cat, MessageText(d), db);
      match Replay.Exec(OnTable(t, op), m)
      case Done(m') => r.Ok? && HoldsAll(cat, m', r.db)
      case DuplicateKey => r.Duplicate?
  {
    hide ExecText;
    hide HoldsIn;
    hide HoldsAll;
    hide Replay.Exec;
    TextOnTable(cat, d, t, op, m, db);
    PartExec(t, op, m);
    if Replay.Exec(op, Part(m, t)).Done? {
      Rejoined(cat, t, op, m, db, ExecText(cat, MessageText(d), db).db[t]);
    }
  }

  /** A change whose names hold capital letters runs on the table that is called the same in small letters; when there
      is none it is an error.  Its own table stays as it was. */
  lemma {:induction false} FoldedRuns(cat: Catalog, d: Decoded, db: Database)
    requires ButForTable(d) && Matching(d) && (d.kind == 'I' || d.kind == 'U' || d.kind == 'D')
    requires OutputOf(d).Statement? && Expressible(d)
    requires Identifier(d.schema) && Label(d.name) && d.schema[0] != '"' && d.name[0] != '"'
    ensures
      var t := (Lowered(d.schema), Lowered(d.name));
      var r := ExecText(cat, MessageText(d), db);
      && r == (if t !in cat || t !in db then Error else Stored(db, t, Exec(MeaningOf(OutputOf(d).stmt), cat[t], db[t])))
      && (r.Ok? && (d.schema, d.name) != t && (d.schema, d.name) in db ==> r.db[(d.schema, d.name)] == db[(d.schema, d.name)])
  {
    FoldedTarget(d);
  }
}
