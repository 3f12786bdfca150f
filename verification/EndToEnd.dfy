/** From the change on the source to the table on the target, through the bytes and the text. */
module EndToEnd {
  import opened OptionType
  import opened CStrings
  import opened SqlText
  import opened SqlRoundTrip
  import opened SqlTextExact
  import opened TableNames
  import opened Wire
  import opened SqlGen
  import opened SqlMeaning
  import opened ChangeMeaning

  // ---- The text can be read ----------------------------------------------------------------------------------

  /** A column name as the plugin spells it: in double quotes, or in small letters. */
  predicate Spelling(s: string) { Identifier(s) && (s[0] == '"' || PlainName(s)) }

  predicate NamedWell(cols: seq<Column>) { forall i | 0 <= i < |cols| && cols[i].Live? :: Spelling(cols[i].name) }

  predicate PrintableCell(c: Column, v: Cell)
    requires c.Live?
  {
    v.Text? ==> Printable(Typed(c.typ, v.value))
  }

  predicate PrintableRow(cols: seq<Column>, row: seq<Cell>) {
    |row| == |cols| && forall i | 0 <= i < |cols| && cols[i].Live? :: PrintableCell(cols[i], row[i])
  }

  predicate AnyPicked(pick: seq<bool>, n: nat)
    requires n <= |pick|
  {
    exists i | 0 <= i < n :: pick[i]
  }

  lemma {:induction false} ItemsPrintable(cols: seq<Column>, row: seq<Cell>, pick: seq<bool>, n: nat)
    requires OnLive(cols, pick) && n <= |cols| && PrintableRow(cols, row)
    ensures PrintableItems(Items(cols, row, pick, n))
  {
    if n > 0 {
      hide Items;
      hide Printable;
      ItemsPrintable(cols, row, pick, n - 1);
      ItemsStep(cols, row, pick, n - 1);
      assert pick[n - 1] ==> PrintableCell(cols[n - 1], row[n - 1]);
    }
  }

  lemma {:induction false} ListsPrintable(cols: seq<Column>, row: seq<Cell>, n: nat)
    requires n <= |cols| && PrintableRow(cols, row)
    ensures PrintableLits(LiveLits(cols, row, n))
  {
    if n > 0 {
      ListsPrintable(cols, row, n - 1);
      assert cols[n - 1].Live? ==> PrintableCell(cols[n - 1], row[n - 1]);
    }
  }

  lemma {:induction false} PickedMore(pick: seq<bool>, n: nat)
    requires n < |pick|
    ensures AnyPicked(pick, n + 1) <==> AnyPicked(pick, n) || pick[n]
  {
  }

  lemma {:induction false} ItemsNamedWell(cols: seq<Column>, row: seq<Cell>, pick: seq<bool>, n: nat)
    requires |row| == |cols| && OnLive(cols, pick) && n <= |cols| && NamedWell(cols)
    ensures NamedItems(Items(cols, row, pick, n))
    ensures Items(cols, row, pick, n) != [] <==> AnyPicked(pick, n)
  {
    hide Items;
    hide AnyPicked;
    if n > 0 {
      ItemsNamedWell(cols, row, pick, n - 1);
      ItemsStep(cols, row, pick, n - 1);
      PickedMore(pick, n - 1);
    } else {
      NoItems(cols, row, pick);
    }
  }

  lemma {:induction false} NoItems(cols: seq<Column>, row: seq<Cell>, pick: seq<bool>)
    requires |row| == |cols| && OnLive(cols, pick)
    ensures Items(cols, row, pick, 0) == [] && !AnyPicked(pick, 0)
  {
  }

  /** Column names are as the plugin spells them, and values are printable. */
  predicate ButForTable(d: Decoded) {
    && d.ChangeD? && NamedWell(d.cols)
    && (d.newRow != [] ==> PrintableRow(d.cols, d.newRow))
    && (d.oldRow != [] ==> PrintableRow(d.cols, d.oldRow))
  }

  /** And the two names that are sent without quotes denote themselves. */
  predicate Writable(d: Decoded) { ButForTable(d) && PlainSchema(d.schema) && PlainName(d.name) }

  /** What a change needs for its statement to be one: an INSERT its last column live, an UPDATE something to
      set, and UPDATE and DELETE a column to find the row by. */
  predicate Expressible(d: Decoded)
    requires Matching(d) && (d.kind == 'I' || d.kind == 'U' || d.kind == 'D') && OutputOf(d).Statement?
  {
    var n := |d.cols|;
    if d.kind == 'I' then d.cols[n - 1].Live?
    else if d.kind == 'D' then AnyPicked(Identifying(d.cols, d.keys), n)
    else if d.keys == [] then AnyPicked(Diff(d.cols, d.oldRow, d.newRow), n) && AnyPicked(Identifying(d.cols, []), n)
    else if d.oldRow == [] then AnyPicked(OutsideKey(d.cols, d.keys), n) && AnyPicked(Identifying(d.cols, d.keys), n)
    else AnyPicked(OutsideKey(d.cols, []), n) && AnyPicked(Identifying(d.cols, d.keys), n)
  }

  lemma {:induction false} ListsNamedWell(cols: seq<Column>, row: seq<Cell>, n: nat)
    requires |row| == |cols| && n <= |cols| && NamedWell(cols)
    ensures GoodNames(LiveNames(cols, n)) && |LiveNames(cols, n)| == |LiveLits(cols, row, n)|
    ensures n > 0 && cols[n - 1].Live? ==> LiveNames(cols, n) != []
  {
    if n > 0 {
      ListsNamedWell(cols, row, n - 1);
    }
  }

  /** Names are identifiers. */
  predicate WellNamed(d: Decoded) { d.ChangeD? && Identifier(d.schema) && Label(d.name) && NamedWell(d.cols) }

  lemma {:induction false} WellNamedStmt(d: Decoded)
    requires WellNamed(d) && Matching(d) && (d.kind == 'I' || d.kind == 'U' || d.kind == 'D') && OutputOf(d).Statement?
    ensures NamedStmt(OutputOf(d).stmt) && (Readable(OutputOf(d).stmt) <==> Expressible(d))
  {
    var n := |d.cols|;
    if d.kind == 'I' {
      ListsNamedWell(d.cols, d.newRow, n);
    } else if d.kind == 'D' {
      ItemsNamedWell(d.cols, d.oldRow, Identifying(d.cols, d.keys), n);
    } else if d.keys == [] {
      ItemsNamedWell(d.cols, d.newRow, Diff(d.cols, d.oldRow, d.newRow), n);
      ItemsNamedWell(d.cols, d.oldRow, Identifying(d.cols, []), n);
    } else if d.oldRow == [] {
      ItemsNamedWell(d.cols, d.newRow, OutsideKey(d.cols, d.keys), n);
      ItemsNamedWell(d.cols, d.newRow, Identifying(d.cols, d.keys), n);
    } else {
      ItemsNamedWell(d.cols, d.newRow, OutsideKey(d.cols, []), n);
      ItemsNamedWell(d.cols, d.oldRow, Identifying(d.cols, d.keys), n);
    }
  }

  lemma {:induction false} WritableStmt(d: Decoded)
    requires ButForTable(d) && Matching(d) && (d.kind == 'I' || d.kind == 'U' || d.kind == 'D') && OutputOf(d).Statement?
    ensures PrintableStmt(OutputOf(d).stmt)
  {
    hide PrintableRow;
    var n := |d.cols|;
    if d.kind == 'I' {
      ListsPrintable(d.cols, d.newRow, n);
    } else if d.kind == 'D' {
      ItemsPrintable(d.cols, d.oldRow, Identifying(d.cols, d.keys), n);
    } else if d.keys == [] {
      ItemsPrintable(d.cols, d.newRow, Diff(d.cols, d.oldRow, d.newRow), n);
      ItemsPrintable(d.cols, d.oldRow, Identifying(d.cols, []), n);
    } else if d.oldRow == [] {
      ItemsPrintable(d.cols, d.newRow, OutsideKey(d.cols, d.keys), n);
      ItemsPrintable(d.cols, d.newRow, Identifying(d.cols, d.keys), n);
    } else {
      ItemsPrintable(d.cols, d.newRow, OutsideKey(d.cols, []), n);
      ItemsPrintable(d.cols, d.oldRow, Identifying(d.cols, d.keys), n);
    }
  }

  lemma {:induction false} GoodStmtIs(st: Stmt)
    requires NamedStmt(st) && PrintableStmt(st)
    ensures GoodStmt(st)
  {
  }

  lemma {:induction false} PlainDenotes(s: string)
    requires PlainName(s)
    ensures Denoted(s) == s && Label(s)
  {
  }

  /** The text of a change reads back as its statement, or not at all. */
  lemma {:induction false} TextReads(d: Decoded)
    requires ButForTable(d) && Identifier(d.schema) && Label(d.name)
    requires Matching(d) && (d.kind == 'I' || d.kind == 'U' || d.kind == 'D') && OutputOf(d).Statement?
    ensures ParseQuery(MessageText(d)) == if Expressible(d) then Some(MeaningOf(OutputOf(d).stmt)) else None
  {
    WellNamedStmt(d);
    WritableStmt(d);
    GoodStmtIs(OutputOf(d).stmt);
    TextRoundTrip(OutputOf(d).stmt);
  }

  /** And is about the table of the change when its names denote themselves. */
  lemma {:induction false} StatementReads(d: Decoded)
    requires Writable(d) && Matching(d) && (d.kind == 'I' || d.kind == 'U' || d.kind == 'D') && OutputOf(d).Statement?
    ensures ParseQuery(MessageText(d)) == if Expressible(d) then Some(MeaningOf(OutputOf(d).stmt)) else None
    ensures TargetOf(MeaningOf(OutputOf(d).stmt)) == (d.schema, d.name)
  {
    PlainDenotes(d.schema);
    PlainDenotes(d.name);
    TextReads(d);
  }

  /** Exactly when the text of a change reads back as its statement: when it has the columns it needs and every
      value that it prints is printable. */
  lemma {:induction false} StatementReadsIff(d: Decoded)
    requires WellNamed(d) && Matching(d) && (d.kind == 'I' || d.kind == 'U' || d.kind == 'D') && OutputOf(d).Statement?
    ensures ParseQuery(MessageText(d)) == Some(MeaningOf(OutputOf(d).stmt)) <==> Expressible(d) && PrintableStmt(OutputOf(d).stmt)
  {
    WellNamedStmt(d);
    TextRoundTripIff(OutputOf(d).stmt);
  }

  /** Exactly when the text of a change is a statement about its own table: when both names are words in small
      letters and the schema's is not a key word. */
  lemma {:induction false} NamesOwnTableIff(d: Decoded)
    requires ButForTable(d) && Matching(d) && (d.kind == 'I' || d.kind == 'U' || d.kind == 'D')
    requires OutputOf(d).Statement? && Expressible(d)
    ensures
      var q := ParseQuery(MessageText(d));
      q.Some? && TargetOf(q.value) == (d.schema, d.name) <==> PlainSchema(d.schema) && PlainName(d.name)
  {
    var q := ParseQuery(MessageText(d));
    var st := OutputOf(d).stmt;
    assert st.schema == d.schema && st.rel == d.name;
    if PlainSchema(d.schema) && PlainName(d.name) {
      StatementReads(d);
    }
    if q.Some? && TargetOf(q.value) == (d.schema, d.name) {
      ReadsTable(st);
      BehindStops(st);
      OnlyPlainTable(d.schema, d.name, BehindTable(st), if st.UpdateS? then 2 else 1);
    }
  }
  /** With names in capital letters the statement is about the table with the same names in small letters. */
  lemma {:induction false} FoldedTarget(d: Decoded)
    requires ButForTable(d) && Matching(d) && (d.kind == 'I' || d.kind == 'U' || d.kind == 'D')
    requires OutputOf(d).Statement? && Expressible(d)
    requires Identifier(d.schema) && Label(d.name) && d.schema[0] != '"' && d.name[0] != '"'
    ensures ParseQuery(MessageText(d)) == Some(MeaningOf(OutputOf(d).stmt))
    ensures TargetOf(MeaningOf(OutputOf(d).stmt)) == (Lowered(d.schema), Lowered(d.name))
  {
    TextReads(d);
  }

  // ---- Changes of a relation with a key ----------------------------------------------------------------------

  predicate AllSent(o: Options) { o.columnInfo && o.keyInfo && o.typeNames }

  predicate SqlRelation(rel: Relation) {
    && SoundRelation(rel) && |rel.cols| > 0
    && PlainSchema(rel.schema) && PlainName(rel.name) && NamedWell(rel.cols) && Distinct(rel.cols)
    && (rel.identity.Some? ==>
        rel.identity.value != [] && forall k | k in rel.identity.value :: k in NameSet(rel.cols))
  }

  /** A tuple whose live values can be sent and printed. */
  predicate SqlRow(rel: Relation, row: seq<Cell>) { SoundRow(row) && PrintableRow(rel.cols, row) && NoToast(rel.cols, row) }

  lemma {:induction false} ArrivedSame(cols: seq<Column>, key: seq<string>, row: seq<Cell>)
    requires |row| == |cols|
    ensures PrintableRow(cols, row) ==> PrintableRow(cols, Arrived(cols, row))
    ensures NoToast(cols, row) ==> NoToast(cols, Arrived(cols, row))
    ensures NoNull(cols, row) <==> NoNull(cols, Arrived(cols, row))
    ensures HasKey(cols, key, row) ==> HasKey(cols, key, Arrived(cols, row))
  {
    if PrintableRow(cols, row) {
      forall i | 0 <= i < |cols| && cols[i].Live? ensures PrintableCell(cols[i], Arrived(cols, row)[i]) {
        assert PrintableCell(cols[i], row[i]);
      }
    }
  }

  lemma {:induction false} ArrivedIsRow(cols: seq<Column>, row: seq<Cell>, was: TableRow, r: TableRow)
    requires |row| == |cols| && IsRow(cols, row, was, r)
    ensures IsRow(cols, Arrived(cols, row), was, r)
  {
  }

  lemma {:induction false} ArrivedKeyIs(cols: seq<Column>, key: seq<string>, row: seq<Cell>, r: TableRow)
    requires |row| == |cols| && KeyIs(cols, key, row, r)
    ensures KeyIs(cols, key, Arrived(cols, row), r)
  {
    forall i | 0 <= i < |cols| && Identifies(cols[i], key) ensures CellHolds(cols[i], Arrived(cols, row)[i], r) {
      assert CellHolds(cols[i], row[i], r);
    }
  }

  /** What a change of a relation with key `key` is on the source: it leads from `rows` to `rows'`, through row
      `j`, where it is an update or a delete, and the new row `r`, where it is an insert or an update. */
  predicate SourceDoes(rel: Relation, ch: Change, rows: seq<TableRow>, j: nat, r: TableRow, rows': seq<TableRow>)
    requires rel.identity.Some?
  {
    var key := rel.identity.value;
    && TableOf(rel.cols, rows) && KeyUnique(key, rows) && KeyUnique(key, rows')
    && match ch
       case Insert(n) => SqlRow(rel, n) && IsRow(rel.cols, n, map[], r) && rows' == rows + [r]
       case Update(was, n) =>
         && SqlRow(rel, n) && j < |rows| && IsRow(rel.cols, n, rows[j], r) && rows' == rows[j := r]
         && FoundBy(rel, if was.Some? then was.value else n, rows[j])
       case Delete(was) =>
         && was.Some? && j < |rows| && rows' == rows[..j] + rows[j + 1..] && FoundBy(rel, was.value, rows[j])
  }

  /** The tuple holds the row's key and can be sent and printed. */
  predicate FoundBy(rel: Relation, row: seq<Cell>, r: TableRow)
    requires rel.identity.Some?
  {
    && SoundRow(row) && PrintableRow(rel.cols, row)
    && HasKey(rel.cols, rel.identity.value, row) && KeyIs(rel.cols, rel.identity.value, row, r)
  }

  /** The change can be said in SQL: an INSERT when the last attribute is live, an UPDATE that leaves the key
      alone when there is a column outside the key. */
  predicate Sayable(rel: Relation, ch: Change)
    requires |rel.cols| > 0 && rel.identity.Some?
  {
    match ch
    case Insert(_) => rel.cols[|rel.cols| - 1].Live?
    case Update(was, _) => was.Some? || exists i | 0 <= i < |rel.cols| :: Settable(rel.cols[i], rel.identity.value)
    case Delete(_) => true
  }

  lemma {:induction false} KeyPicks(cols: seq<Column>, key: seq<string>, row: seq<Cell>)
    requires HasKey(cols, key, row)
    ensures AnyPicked(Identifying(cols, key), |cols|) && AnyPicked(OutsideKey(cols, []), |cols|)
  {
    var k := key[0];
    assert k in NameSet(cols);
    var i :| 0 <= i < |cols| && cols[i].Live? && cols[i].name == k;
    assert Identifying(cols, key)[i] && OutsideKey(cols, [])[i];
  }

  lemma {:induction false} OutsidePicks(cols: seq<Column>, key: seq<string>)
    ensures AnyPicked(OutsideKey(cols, key), |cols|) <==> exists i | 0 <= i < |cols| :: Settable(cols[i], key)
  {
    if i :| 0 <= i < |cols| && Settable(cols[i], key) {
      assert OutsideKey(cols, key)[i];
    }
  }

  /** The text of `d` is a statement exactly when `sayable`, and then is about that relation and takes `rows` to
      `rows'`. */
  predicate Reaches(rel: Relation, d: Decoded, sayable: bool, rows: seq<TableRow>, rows': seq<TableRow>)
    requires rel.identity.Some?
  {
    && Matching(d) && (d.kind == 'I' || d.kind == 'U' || d.kind == 'D')
    && (ParseQuery(MessageText(d)).Some? <==> sayable)
    && (sayable ==>
        TargetOf(ParseQuery(MessageText(d)).value) == (rel.schema, rel.name) &&
        Exec(ParseQuery(MessageText(d)).value, Schema(NameSet(rel.cols), rel.identity.value), rows) == Done(rows'))
  }

  lemma {:induction false} InsertReaches(rel: Relation, d: Decoded, rows: seq<TableRow>, r: TableRow)
    requires rel.identity.Some? && d.ChangeD? && d.schema == rel.schema && d.name == rel.name && d.cols == rel.cols
    requires Writable(d) && Distinct(d.cols)
    requires d.kind == 'I' && d.oldRow == [] && |d.newRow| == |d.cols| > 0
    requires IsRow(d.cols, d.newRow, map[], r) && KeyUnique(rel.identity.value, rows + [r])
    ensures Reaches(rel, d, rel.cols[|rel.cols| - 1].Live?, rows, rows + [r])
  {
    hide ParseQuery;
    hide Exec;
    hide Writable;
    hide IsRow;
    hide KeyUnique;
    InsertAddsRow(d, rel.identity.value, rows, r);
    StatementReads(d);
  }

  lemma {:induction false} InsertDecoded(o: Options, rel: Relation, n: seq<Cell>, r: TableRow)
    requires AllSent(o) && SqlRelation(rel) && SqlRow(rel, n) && IsRow(rel.cols, n, map[], r)
    ensures
      var d := DecodedChange(o, rel, Insert(n));
      && d.ChangeD? && d.schema == rel.schema && d.name == rel.name && d.cols == rel.cols && Writable(d) && d.kind == 'I' && d.oldRow == [] && |d.newRow| == |d.cols|
      && IsRow(d.cols, d.newRow, map[], r)
  {
    ArrivedSame(rel.cols, [], n);
    ArrivedIsRow(rel.cols, n, map[], r);
  }

  lemma {:induction false} UpdateReaches(o: Options, rel: Relation, n: seq<Cell>, rows: seq<TableRow>, j: nat, r: TableRow,
                                         rows': seq<TableRow>)
    requires AllSent(o) && SqlRelation(rel) && rel.identity.Some?
    requires SourceDoes(rel, Update(None, n), rows, j, r, rows')
    ensures
      var d := DecodedChange(o, rel, Update(None, n));
      Reaches(rel, d, Sayable(rel, Update(None, n)), rows, rows')
  {
    var d, key := DecodedChange(o, rel, Update(None, n)), rel.identity.value;
    ArrivedSame(rel.cols, key, n);
    ArrivedIsRow(rel.cols, n, rows[j], r);
    ArrivedKeyIs(rel.cols, key, n, rows[j]);
    KeyUnchangedUpdate(d, rows, j, r);
    KeyPicks(rel.cols, key, n);
    OutsidePicks(rel.cols, key);
    StatementReads(d);
  }

  lemma {:induction false} RekeyReaches(o: Options, rel: Relation, was: seq<Cell>, n: seq<Cell>, rows: seq<TableRow>, j: nat,
                                        r: TableRow, rows': seq<TableRow>)
    requires AllSent(o) && SqlRelation(rel) && rel.identity.Some?
    requires SourceDoes(rel, Update(Some(was), n), rows, j, r, rows')
    ensures
      var d := DecodedChange(o, rel, Update(Some(was), n));
      Reaches(rel, d, Sayable(rel, Update(Some(was), n)), rows, rows')
  {
    var d, key := DecodedChange(o, rel, Update(Some(was), n)), rel.identity.value;
    ArrivedSame(rel.cols, key, was);
    ArrivedSame(rel.cols, key, n);
    ArrivedIsRow(rel.cols, n, rows[j], r);
    ArrivedKeyIs(rel.cols, key, was, rows[j]);
    KeyedRow(rel.cols, key, was);
    KeyChangedUpdate(d, rows, j, r);
    KeyPicks(rel.cols, key, was);
    StatementReads(d);
  }

  lemma {:induction false} DeleteReaches(o: Options, rel: Relation, was: seq<Cell>, rows: seq<TableRow>, j: nat, r: TableRow,
                                         rows': seq<TableRow>)
    requires AllSent(o) && SqlRelation(rel) && rel.identity.Some?
    requires SourceDoes(rel, Delete(Some(was)), rows, j, r, rows')
    ensures
      var d := DecodedChange(o, rel, Delete(Some(was)));
      Reaches(rel, d, true, rows, rows')
  {
    var d, key := DecodedChange(o, rel, Delete(Some(was))), rel.identity.value;
    ArrivedSame(rel.cols, key, was);
    ArrivedKeyIs(rel.cols, key, was, rows[j]);
    KeyedRow(rel.cols, key, was);
    KeyedDelete(d, rows, j);
    KeyPicks(rel.cols, key, was);
    StatementReads(d);
  }

  /** Every change of a relation with a key: the bytes decode to it, the text is a statement exactly when it can
      be said, and that statement does to a copy of the table what the change did to the original. */
  lemma {:induction false} KeyedChangeReachesTarget(o: Options, rel: Relation, ch: Change, rows: seq<TableRow>, j: nat,
                                                    r: TableRow, rows': seq<TableRow>)
    requires AllSent(o) && SqlRelation(rel) && rel.identity.Some? && SoundChange(rel, ch)
    requires SourceDoes(rel, ch, rows, j, r, rows')
    ensures Parse(Encode(o, ChangeMsg(rel, ch))) == Some((DecodedChange(o, rel, ch), ""))
    ensures Reaches(rel, DecodedChange(o, rel, ch), Sayable(rel, ch), rows, rows')
  {
    WireRoundTrip(o, ChangeMsg(rel, ch));
    match ch
    case Insert(n) =>
      InsertDecoded(o, rel, n, r);
      InsertReaches(rel, DecodedChange(o, rel, ch), rows, r);
    case Update(None, n) => UpdateReaches(o, rel, n, rows, j, r, rows');
    case Update(Some(was), n) => RekeyReaches(o, rel, was, n, rows, j, r, rows');
    case Delete(Some(was)) => DeleteReaches(o, rel, was, rows, j, r, rows');
    case Delete(None) =>
  }

  // ---- Changes of a relation without a key -------------------------------------------------------------------

  /** Something differs exactly when the new row is another row. */
  lemma {:induction false} DiffIff(cols: seq<Column>, was: seq<Cell>, now: seq<Cell>, row: TableRow, r: TableRow)
    requires |cols| == |was| == |now| && NoToast(cols, was) && IsRow(cols, was, row, row) && IsRow(cols, now, row, r)
    ensures AnyPicked(Diff(cols, was, now), |cols|) <==> r != row
    ensures AnyPicked(Diff(cols, was, now), |cols|) ==> AnyPicked(Identifying(cols, []), |cols|)
  {
    if i :| 0 <= i < |cols| && Diff(cols, was, now)[i] {
      assert Field(row, cols[i].name) == Value(cols[i], was[i], row);
      assert Field(r, cols[i].name) == Value(cols[i], now[i], row);
      assert Identifying(cols, [])[i];
    } else {
      forall i | 0 <= i < |cols| && cols[i].Live? ensures Field(row, cols[i].name) == Value(cols[i], now[i], row) {
        assert !Diff(cols, was, now)[i];
        assert Field(row, cols[i].name) == Value(cols[i], was[i], row);
      }
      RowUnique(cols, now, row, r, row);
    }
  }

  /** An update of a relation without a key, from row `j` to `r`: there is a statement exactly when something
      changed; it turns every equal row into the new one, or none at all when the old row has a null; so it is
      what the source did exactly when the old row has no null and is there once. */
  lemma {:induction false} FullRowUpdateReachesTarget(o: Options, rel: Relation, was: seq<Cell>, n: seq<Cell>,
                                                      rows: seq<TableRow>, j: nat, r: TableRow)
    requires AllSent(o) && SqlRelation(rel) && rel.identity.None? && SoundChange(rel, Update(Some(was), n))
    requires SqlRow(rel, was) && PrintableRow(rel.cols, n) && TableOf(rel.cols, rows) && j < |rows|
    requires IsRow(rel.cols, was, rows[j], rows[j]) && IsRow(rel.cols, n, rows[j], r)
    ensures
      var d := DecodedChange(o, rel, Update(Some(was), n));
      var q := ParseQuery(MessageText(d));
      var s := Schema(NameSet(rel.cols), []);
      && Parse(Encode(o, ChangeMsg(rel, Update(Some(was), n)))) == Some((d, ""))
      && (q.Some? <==> r != rows[j])
      && (q.Some? ==> TargetOf(q.value) == (rel.schema, rel.name))
      && (q.Some? ==> Exec(q.value, s, rows) == Done(if NoNull(rel.cols, was) then Replaced(rows, rows[j], r) else rows))
      && (q.Some? ==> (Exec(q.value, s, rows) == Done(rows[j := r]) <==> NoNull(rel.cols, was) && OnlyAt(rows, j)))
  {
    hide ParseQuery;
    hide Exec;
    hide Parse;
    hide Encode;
    hide Writable;
    hide IsRow;
    hide NoNull;
    WireRoundTrip(o, ChangeMsg(rel, Update(Some(was), n)));
    FullRowDecoded(o, rel, was, n, rows, j, r);
    FullRowReads(DecodedChange(o, rel, Update(Some(was), n)), rows, j, r);
  }

  /** What the client makes of a full-row update. */
  lemma {:induction false} FullRowDecoded(o: Options, rel: Relation, was: seq<Cell>, n: seq<Cell>,
                                          rows: seq<TableRow>, j: nat, r: TableRow)
    requires AllSent(o) && SqlRelation(rel) && rel.identity.None? && SoundChange(rel, Update(Some(was), n))
    requires SqlRow(rel, was) && PrintableRow(rel.cols, n) && TableOf(rel.cols, rows) && j < |rows|
    requires IsRow(rel.cols, was, rows[j], rows[j]) && IsRow(rel.cols, n, rows[j], r)
    ensures
      var d := DecodedChange(o, rel, Update(Some(was), n));
      && GoodTable(d, rows) && Writable(d) && d.schema == rel.schema && d.name == rel.name && d.kind == 'U' && d.keys == [] && d.hasOld
      && |d.newRow| == |d.cols| == |d.oldRow| > 0 && NoToast(d.cols, d.oldRow)
      && IsRow(d.cols, d.oldRow, rows[j], rows[j]) && IsRow(d.cols, d.newRow, rows[j], r)
      && SchemaOf(d) == Schema(NameSet(rel.cols), []) && (NoNull(d.cols, d.oldRow) <==> NoNull(rel.cols, was))
  {
    ArrivedSame(rel.cols, [], was);
    ArrivedSame(rel.cols, [], n);
    ArrivedIsRow(rel.cols, was, rows[j], rows[j]);
    ArrivedIsRow(rel.cols, n, rows[j], r);
  }

  /** The text of a full-row update, read and run. */
  lemma {:induction false} FullRowReads(d: Decoded, rows: seq<TableRow>, j: nat, r: TableRow)
    requires GoodTable(d, rows) && Writable(d) && j < |rows| && d.kind == 'U' && d.keys == [] && d.hasOld
    requires |d.newRow| == |d.cols| == |d.oldRow| > 0 && NoToast(d.cols, d.oldRow)
    requires IsRow(d.cols, d.oldRow, rows[j], rows[j]) && IsRow(d.cols, d.newRow, rows[j], r)
    ensures Matching(d) && OutputOf(d).Statement?
    ensures
      var q := ParseQuery(MessageText(d));
      && (q.Some? <==> r != rows[j])
      && (q.Some? ==> TargetOf(q.value) == (d.schema, d.name))
      && (q.Some? ==> Exec(q.value, SchemaOf(d), rows) == Done(if NoNull(d.cols, d.oldRow) then Replaced(rows, rows[j], r) else rows))
      && (q.Some? ==> (Exec(q.value, SchemaOf(d), rows) == Done(rows[j := r]) <==> NoNull(d.cols, d.oldRow) && OnlyAt(rows, j)))
  {
    hide ParseQuery;
    hide Exec;
    hide IsRow;
    hide Writable;
    FullRowUpdate(d, rows, j, r);
    DiffIff(d.cols, d.oldRow, d.newRow, rows[j], r);
    StatementReads(d);
  }

  lemma {:induction false} FullRowDeleteReachesTarget(o: Options, rel: Relation, was: seq<Cell>, rows: seq<TableRow>, j: nat)
    requires AllSent(o) && SqlRelation(rel) && rel.identity.None? && SoundChange(rel, Delete(Some(was)))
    requires SqlRow(rel, was) && TableOf(rel.cols, rows) && j < |rows| && IsRow(rel.cols, was, rows[j], rows[j])
    ensures
      var d := DecodedChange(o, rel, Delete(Some(was)));
      var q := ParseQuery(MessageText(d));
      var s := Schema(NameSet(rel.cols), []);
      && Parse(Encode(o, ChangeMsg(rel, Delete(Some(was))))) == Some((d, ""))
      && (q.Some? <==> NameSet(rel.cols) != {})
      && (q.Some? ==> TargetOf(q.value) == (rel.schema, rel.name))
      && (q.Some? ==> (Exec(q.value, s, rows) == Done(rows[..j] + rows[j + 1..]) <==> NoNull(rel.cols, was) && OnlyAt(rows, j)))
  {
    var d := DecodedChange(o, rel, Delete(Some(was)));
    WireRoundTrip(o, ChangeMsg(rel, Delete(Some(was))));
    ArrivedSame(rel.cols, [], was);
    ArrivedIsRow(rel.cols, was, rows[j], rows[j]);
    FullRowDelete(d, rows, j);
    StatementReads(d);
    LivePicks(rel.cols);
  }

  lemma {:induction false} LivePicks(cols: seq<Column>)
    ensures AnyPicked(Identifying(cols, []), |cols|) <==> NameSet(cols) != {}
  {
    if n :| n in NameSet(cols) {
      var i :| 0 <= i < |cols| && cols[i].Live? && cols[i].name == n;
      assert Identifying(cols, [])[i];
    }
    if i :| 0 <= i < |cols| && Identifying(cols, [])[i] {
      assert cols[i].name in NameSet(cols);
    }
  }
}
