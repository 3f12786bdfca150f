/** The statement of a change does to the target's table what the change did to the source's. */
module ChangeMeaning {
  import opened SqlText
  import opened Wire
  import opened SqlGen
  import opened SqlMeaning

  function SchemaOf(d: Decoded): Schema
    requires d.ChangeD?
  {
    Schema(NameSet(d.cols), d.keys)
  }

  /** The table belongs to the relation of the change and has at most one row per key. */
  predicate GoodTable(d: Decoded, rows: seq<TableRow>) {
    d.ChangeD? && Distinct(d.cols) && TableOf(d.cols, rows) && KeyUnique(d.keys, rows)
  }

  predicate NoToast(cols: seq<Column>, row: seq<Cell>) {
    |row| == |cols| && forall i | 0 <= i < |cols| && cols[i].Live? :: !row[i].Toast?
  }

  // ---- Setting a row -----------------------------------------------------------------------------------------

  /** Setting every column outside the key, on a row that has the key already. */
  lemma {:induction false} SetsOutsideKey(cols: seq<Column>, key: seq<string>, row: seq<Cell>, was: TableRow)
    requires Distinct(cols) && was.Keys == NameSet(cols) && NoToast(cols, row)
    requires forall i | 0 <= i < |cols| && cols[i].Live? && cols[i].name in key :: CellHolds(cols[i], row[i], was)
    ensures IsRow(cols, row, was, Assign(Bindings(SetsOf(cols, key, row)), was))
  {
    var pick := OutsideKey(cols, key);
    ItemsSet(cols, row, pick, |cols|, was);
    var r := Assign(Bindings(SetsOf(cols, key, row)), was);
    forall i | 0 <= i < |cols| && cols[i].Live? ensures Field(r, cols[i].name) == Value(cols[i], row[i], was) {
      assert pick[i] == (cols[i].name !in key);
    }
  }

  lemma {:induction false} SetsDifferences(cols: seq<Column>, was: seq<Cell>, now: seq<Cell>, r: TableRow)
    requires Distinct(cols) && |cols| == |was| == |now| && NoToast(cols, was) && IsRow(cols, was, r, r)
    ensures IsRow(cols, now, r, Assign(Bindings(ChangesOf(cols, was, now)), r))
  {
    var pick := Diff(cols, was, now);
    ItemsSet(cols, now, pick, |cols|, r);
    var r' := Assign(Bindings(ChangesOf(cols, was, now)), r);
    forall i | 0 <= i < |cols| && cols[i].Live? ensures Field(r', cols[i].name) == Value(cols[i], now[i], r) {
      assert pick[i] == Differs(was[i], now[i]);
      assert Field(r, cols[i].name) == Value(cols[i], was[i], r);
    }
  }

  // ---- INSERT ------------------------------------------------------------------------------------------------

  /** An insert adds the row of its tuple, unless its key is taken; an unchanged-toast value is inserted as a
      null.  The key is the table's own: an INSERT message does not carry it. */
  lemma {:induction false} InsertAddsRow(d: Decoded, key: seq<string>, rows: seq<TableRow>, r: TableRow)
    requires d.ChangeD? && Distinct(d.cols) && Matching(d) && d.kind == 'I' && |d.newRow| == |d.cols| > 0
    requires IsRow(d.cols, d.newRow, map[], r)
    ensures OutputOf(d).Statement?
    ensures Exec(MeaningOf(OutputOf(d).stmt), Schema(NameSet(d.cols), key), rows)
         == if KeyUnique(key, rows + [r]) then Done(rows + [r]) else DuplicateKey
  {
    InsertsRow(d.cols, d.newRow, |d.cols|);
    assert NamesBefore(d.cols, |d.cols|) == NameSet(d.cols);
    var names, vals := LiveNames(d.cols, |d.cols|), Values(LiveLits(d.cols, d.newRow, |d.cols|));
    var r' := Inserted(NameSet(d.cols), names, vals);
    forall i | 0 <= i < |d.cols| && d.cols[i].Live?
      ensures Field(r', d.cols[i].name) == Value(d.cols[i], d.newRow[i], map[])
    {
      assert Field(r', d.cols[i].name) == LitValue(LitOf(d.cols[i], d.newRow[i]));
    }
    RowUnique(d.cols, d.newRow, map[], r, r');
  }

  // ---- With a key --------------------------------------------------------------------------------------------

  lemma {:induction false} SameKeyKept(cols: seq<Column>, key: seq<string>, row: seq<Cell>, rows: seq<TableRow>, j: nat,
                                       r: TableRow)
    requires HasKey(cols, key, row) && KeyUnique(key, rows) && j < |rows|
    requires KeyIs(cols, key, row, rows[j]) && KeyIs(cols, key, row, r)
    ensures KeyUnique(key, rows[j := r])
  {
    SameKeyIff(cols, key, row, rows[j], r);
    var rows' := rows[j := r];
    forall a, b | 0 <= a < b < |rows'| ensures !SameKey(key, rows'[a], rows'[b]) {
      assert !SameKey(key, rows[a], rows[b]);
      if SameKey(key, rows'[a], rows'[b]) {
        assert forall k | k in key :: Field(rows'[a], k) == Field(rows'[b], k);
        assert SameKey(key, rows[a], rows[b]);
      }
    }
  }

  lemma {:induction false} RowHasKey(cols: seq<Column>, key: seq<string>, row: seq<Cell>, was: TableRow, r: TableRow)
    requires HasKey(cols, key, row) && IsRow(cols, row, was, r)
    ensures KeyIs(cols, key, row, r)
  {
    forall i | 0 <= i < |cols| && Identifies(cols[i], key) ensures CellHolds(cols[i], row[i], r) {
      assert Field(r, cols[i].name) == Value(cols[i], row[i], was);
    }
  }

  lemma {:induction false} KeyedRow(cols: seq<Column>, key: seq<string>, row: seq<Cell>)
    requires HasKey(cols, key, row)
    ensures |row| > 0
  {
    assert key[0] in NameSet(cols);
  }

  /** The effect of the next lemma's statement, in terms of its parts. */
  lemma {:induction false} KeyUnchangedEffect(cols: seq<Column>, key: seq<string>, row: seq<Cell>, rows: seq<TableRow>,
                                              j: nat, r: TableRow)
    requires Distinct(cols) && TableOf(cols, rows) && KeyUnique(key, rows) && j < |rows|
    requires HasKey(cols, key, row) && NoToast(cols, row)
    requires KeyIs(cols, key, row, rows[j]) && IsRow(cols, row, rows[j], r)
    ensures
      var sets, wheres := Bindings(SetsOf(cols, key, row)), Bindings(WheresOf(cols, key, row));
      && NamedOnce(ColumnNames(sets), NameSet(cols)) && (forall b | b in wheres :: b.0 in NameSet(cols))
      && Updated(sets, wheres, rows) == rows[j := r] && KeyUnique(key, rows[j := r])
  {
    var sets, wheres := SetsOf(cols, key, row), WheresOf(cols, key, row);
    FindsOne(cols, key, row, rows, j);
    forall i | 0 <= i < |cols| && cols[i].Live? && cols[i].name in key
      ensures CellHolds(cols[i], row[i], rows[j])
    {
      assert Identifies(cols[i], key);
    }
    SetsOutsideKey(cols, key, row, rows[j]);
    RowUnique(cols, row, rows[j], r, Assign(Bindings(sets), rows[j]));
    UpdatesOne(Bindings(sets), Bindings(wheres), rows, j, r);
    ColumnsKnown(cols, row, OutsideKey(cols, key));
    ColumnsKnown(cols, row, Identifying(cols, key));
    RowHasKey(cols, key, row, rows[j], r);
    SameKeyKept(cols, key, row, rows, j, r);
  }

  /** An update that leaves the key alone: the row with that key becomes the new row, all others stay. */
  lemma {:induction false} KeyUnchangedUpdate(d: Decoded, rows: seq<TableRow>, j: nat, r: TableRow)
    requires GoodTable(d, rows) && j < |rows| && d.kind == 'U' && d.oldRow == []
    requires HasKey(d.cols, d.keys, d.newRow) && NoToast(d.cols, d.newRow)
    requires KeyIs(d.cols, d.keys, d.newRow, rows[j]) && IsRow(d.cols, d.newRow, rows[j], r)
    ensures OutputOf(d).Statement?
    ensures Exec(MeaningOf(OutputOf(d).stmt), SchemaOf(d), rows) == Done(rows[j := r])
  {
    KeyedRow(d.cols, d.keys, d.newRow);
    KeyUnchangedEffect(d.cols, d.keys, d.newRow, rows, j, r);
  }

  /** An update that changes the key: the row with the old key becomes the new row, all others stay, unless
      another row has the new key already. */
  lemma {:induction false} KeyChangedUpdate(d: Decoded, rows: seq<TableRow>, j: nat, r: TableRow)
    requires GoodTable(d, rows) && j < |rows| && d.kind == 'U' && d.oldRow != [] && |d.newRow| == |d.cols|
    requires HasKey(d.cols, d.keys, d.oldRow) && NoToast(d.cols, d.newRow)
    requires KeyIs(d.cols, d.keys, d.oldRow, rows[j]) && IsRow(d.cols, d.newRow, rows[j], r)
    ensures OutputOf(d).Statement?
    ensures Exec(MeaningOf(OutputOf(d).stmt), SchemaOf(d), rows)
         == if KeyUnique(d.keys, rows[j := r]) then Done(rows[j := r]) else DuplicateKey
  {
    hide Updated;
    hide Bindings;
    hide IsRow;
    KeyChangedRows(d, rows, j, r);
    ColumnsKnown(d.cols, d.newRow, OutsideKey(d.cols, []));
    ColumnsKnown(d.cols, d.oldRow, Identifying(d.cols, d.keys));
  }

  lemma {:induction false} KeyChangedRows(d: Decoded, rows: seq<TableRow>, j: nat, r: TableRow)
    requires GoodTable(d, rows) && j < |rows| && |d.oldRow| == |d.cols| && |d.newRow| == |d.cols|
    requires HasKey(d.cols, d.keys, d.oldRow) && NoToast(d.cols, d.newRow)
    requires KeyIs(d.cols, d.keys, d.oldRow, rows[j]) && IsRow(d.cols, d.newRow, rows[j], r)
    ensures Updated(Bindings(SetsOf(d.cols, [], d.newRow)), Bindings(WheresOf(d.cols, d.keys, d.oldRow)), rows) == rows[j := r]
  {
    var sets, wheres := SetsOf(d.cols, [], d.newRow), WheresOf(d.cols, d.keys, d.oldRow);
    FindsOne(d.cols, d.keys, d.oldRow, rows, j);
    SetsOutsideKey(d.cols, [], d.newRow, rows[j]);
    RowUnique(d.cols, d.newRow, rows[j], r, Assign(Bindings(sets), rows[j]));
    UpdatesOne(Bindings(sets), Bindings(wheres), rows, j, r);
  }

  /** A delete takes out the row with the key, and no other. */
  lemma {:induction false} KeyedDelete(d: Decoded, rows: seq<TableRow>, j: nat)
    requires GoodTable(d, rows) && j < |rows| && d.kind == 'D' && d.hasOld
    requires HasKey(d.cols, d.keys, d.oldRow) && KeyIs(d.cols, d.keys, d.oldRow, rows[j])
    ensures OutputOf(d).Statement?
    ensures Exec(MeaningOf(OutputOf(d).stmt), SchemaOf(d), rows) == Done(rows[..j] + rows[j + 1..])
  {
    KeyedRow(d.cols, d.keys, d.oldRow);
    FindsOne(d.cols, d.keys, d.oldRow, rows, j);
    RemovesOne(Bindings(WheresOf(d.cols, d.keys, d.oldRow)), rows, j);
    ColumnsKnown(d.cols, d.oldRow, Identifying(d.cols, d.keys));
  }

  /** When no row has the key, the three statements change nothing. */
  lemma {:induction false} MissingKey(d: Decoded, rows: seq<TableRow>)
    requires GoodTable(d, rows) && (d.kind == 'U' || (d.kind == 'D' && d.hasOld && d.oldRow != []))
    requires d.kind == 'U' ==> |d.newRow| == |d.cols|
    requires
      var row := if d.kind == 'U' && d.oldRow == [] then d.newRow else d.oldRow;
      HasKey(d.cols, d.keys, row) && forall k | 0 <= k < |rows| :: !KeyIs(d.cols, d.keys, row, rows[k])
    ensures OutputOf(d).Statement?
    ensures Exec(MeaningOf(OutputOf(d).stmt), SchemaOf(d), rows) == Done(rows)
  {
    var row := if d.kind == 'U' && d.oldRow == [] then d.newRow else d.oldRow;
    var wheres := Bindings(WheresOf(d.cols, d.keys, row));
    KeyedRow(d.cols, d.keys, row);
    forall k | 0 <= k < |rows| ensures Condition(wheres, rows[k]) != True {
      SelectsKey(d.cols, d.keys, row, rows[k]);
    }
    ColumnsKnown(d.cols, row, Identifying(d.cols, d.keys));
    if d.kind == 'U' {
      var key := if d.oldRow == [] then d.keys else [];
      ColumnsKnown(d.cols, d.newRow, OutsideKey(d.cols, key));
      assert Updated(Bindings(SetsOf(d.cols, key, d.newRow)), wheres, rows) == rows;
    } else {
      RemovesNone(wheres, rows);
    }
  }

  // ---- The columns of a statement ------------------------------------------------------------------------------

  function ColumnsIn(bs: seq<Binding>): set<string> { set b | b in bs :: b.0 }

  lemma {:induction false} ColumnsPicked(cols: seq<Column>, row: seq<Cell>, pick: seq<bool>, n: nat)
    requires |row| == |cols| && OnLive(cols, pick) && n <= |cols|
    ensures ColumnsIn(Bindings(Items(cols, row, pick, n))) == set i | 0 <= i < n && pick[i] :: cols[i].name
  {
    if n > 0 {
      ColumnsPicked(cols, row, pick, n - 1);
      BindingsStep(cols, row, pick, n - 1);
      var before := Bindings(Items(cols, row, pick, n - 1));
      if pick[n - 1] {
        var b := (cols[n - 1].name, LitValue(LitOf(cols[n - 1], row[n - 1])));
        assert ColumnsIn(before + [b]) == ColumnsIn(before) + {b.0};
      } else {
        assert before + [] == before;
      }
    }
  }

  /** Which columns UPDATE and DELETE name.  In WHERE those of the key, or all without one; in SET those outside the key,
      or all when the old key was sent, or without a key those whose value has changed. */
  lemma {:induction false} StatementColumns(d: Decoded)
    requires Matching(d) && (d.kind == 'U' || d.kind == 'D') && OutputOf(d).Statement?
    ensures
      var (q, live) := (MeaningOf(OutputOf(d).stmt), set i | 0 <= i < |d.cols| && d.cols[i].Live? :: d.cols[i].name);
      && !q.InsertQ? && ColumnsIn(q.wheres) == (if d.keys == [] then live else set x | x in live && x in d.keys)
      && (d.kind == 'U' && d.keys != [] && d.oldRow == [] ==> q.UpdateQ? && ColumnsIn(q.sets) == set x | x in live && x !in d.keys)
      && (d.kind == 'U' && d.keys != [] && d.oldRow != [] ==> q.UpdateQ? && ColumnsIn(q.sets) == live)
    ensures d.kind == 'U' && d.keys == [] ==> |d.cols| == |d.oldRow| == |d.newRow| && MeaningOf(OutputOf(d).stmt).UpdateQ?
    ensures d.kind == 'U' && d.keys == [] ==>
      (ColumnsIn(MeaningOf(OutputOf(d).stmt).sets) ==
       set i | 0 <= i < |d.cols| && d.cols[i].Live? && !d.newRow[i].Toast? &&
               (if d.newRow[i].Null? then !d.oldRow[i].Null? else !d.oldRow[i].Toast? && d.oldRow[i] != d.newRow[i]) :: d.cols[i].name)
  {
    hide Items;
    hide Bindings;
    hide ColumnsIn;
    var n := |d.cols|;
    var found := if d.kind == 'U' && d.keys != [] && d.oldRow == [] then d.newRow else d.oldRow;
    ColumnsPicked(d.cols, found, Identifying(d.cols, d.keys), n);
    if d.kind == 'U' {
      var pick := if d.keys == [] then Diff(d.cols, d.oldRow, d.newRow)
                  else OutsideKey(d.cols, if d.oldRow == [] then d.keys else []);
      ColumnsPicked(d.cols, d.newRow, pick, n);
    }
  }

  // ---- Without a key -----------------------------------------------------------------------------------------

  /** No live column is null in the tuple. */
  predicate NoNull(cols: seq<Column>, row: seq<Cell>) {
    |row| == |cols| && forall i | 0 <= i < |cols| && cols[i].Live? :: row[i].Text?
  }

  /** All the old values as conditions find exactly the rows equal to the old one; with a null among them they
      find nothing. */
  lemma {:induction false} SelectsEqual(cols: seq<Column>, was: seq<Cell>, row: TableRow, r: TableRow)
    requires |was| == |cols| && NoToast(cols, was) && IsRow(cols, was, row, row) && r.Keys == NameSet(cols)
    ensures Condition(Bindings(WheresOf(cols, [], was)), r) == True <==> NoNull(cols, was) && r == row
  {
    SelectsKey(cols, [], was, r);
    if KeyIs(cols, [], was, r) {
      forall i | 0 <= i < |cols| && cols[i].Live?
        ensures was[i].Text? && Field(r, cols[i].name) == Value(cols[i], was[i], row)
      {
        assert Identifies(cols[i], []) && CellHolds(cols[i], was[i], r);
      }
      RowUnique(cols, was, row, row, r);
    }
    if NoNull(cols, was) && r == row {
      forall i | 0 <= i < |cols| && Identifies(cols[i], []) ensures CellHolds(cols[i], was[i], r) {
        assert Field(row, cols[i].name) == Value(cols[i], was[i], row);
      }
    }
  }

  /** Every row equal to `was` becomes `r`. */
  function Replaced(rows: seq<TableRow>, was: TableRow, r: TableRow): (r': seq<TableRow>)
    ensures |r'| == |rows| && forall k | 0 <= k < |rows| :: r'[k] == if rows[k] == was then r else rows[k]
  {
    seq(|rows|, k requires 0 <= k < |rows| => if rows[k] == was then r else rows[k])
  }

  predicate OnlyAt(rows: seq<TableRow>, j: nat)
    requires j < |rows|
  {
    forall k | 0 <= k < |rows| && k != j :: rows[k] != rows[j]
  }

  /** A full-row update turns every row equal to the old one into the new one, an unchanged-toast value meaning
      the old value, and leaves all others alone; with a null in the old row it changes nothing.  So it does
      what the source did to one row exactly when the old row has no null and is there once. */
  lemma {:induction false} FullRowUpdate(d: Decoded, rows: seq<TableRow>, j: nat, r: TableRow)
    requires GoodTable(d, rows) && j < |rows| && d.kind == 'U' && d.keys == [] && d.hasOld
    requires |d.newRow| == |d.cols| == |d.oldRow| > 0 && NoToast(d.cols, d.oldRow)
    requires IsRow(d.cols, d.oldRow, rows[j], rows[j]) && IsRow(d.cols, d.newRow, rows[j], r)
    ensures OutputOf(d).Statement?
    ensures Exec(MeaningOf(OutputOf(d).stmt), SchemaOf(d), rows)
         == Done(if NoNull(d.cols, d.oldRow) then Replaced(rows, rows[j], r) else rows)
    ensures r != rows[j] ==>
      (Exec(MeaningOf(OutputOf(d).stmt), SchemaOf(d), rows) == Done(rows[j := r])
       <==> NoNull(d.cols, d.oldRow) && OnlyAt(rows, j))
  {
    hide NoNull;
    hide Updated;
    hide Bindings;
    FullRowRows(d, rows, j, r);
    ColumnsKnown(d.cols, d.newRow, Diff(d.cols, d.oldRow, d.newRow));
    ColumnsKnown(d.cols, d.oldRow, Identifying(d.cols, []));
    ReplacedOnce(rows, j, r);
    assert rows[j := r][j] == r;
  }

  /** What the statement does to the rows. */
  lemma {:induction false} FullRowRows(d: Decoded, rows: seq<TableRow>, j: nat, r: TableRow)
    requires GoodTable(d, rows) && j < |rows| && |d.newRow| == |d.cols| == |d.oldRow| && NoToast(d.cols, d.oldRow)
    requires IsRow(d.cols, d.oldRow, rows[j], rows[j]) && IsRow(d.cols, d.newRow, rows[j], r)
    ensures Updated(Bindings(ChangesOf(d.cols, d.oldRow, d.newRow)), Bindings(WheresOf(d.cols, [], d.oldRow)), rows)
         == if NoNull(d.cols, d.oldRow) then Replaced(rows, rows[j], r) else rows
  {
    var was := rows[j];
    var sets, wheres := Bindings(ChangesOf(d.cols, d.oldRow, d.newRow)), Bindings(WheresOf(d.cols, [], d.oldRow));
    SetsDifferences(d.cols, d.oldRow, d.newRow, was);
    RowUnique(d.cols, d.newRow, was, r, Assign(sets, was));
    forall k | 0 <= k < |rows|
      ensures Condition(wheres, rows[k]) == True <==> NoNull(d.cols, d.oldRow) && rows[k] == was
    {
      SelectsEqual(d.cols, d.oldRow, was, rows[k]);
    }
  }

  lemma {:induction false} ReplacedOnce(rows: seq<TableRow>, j: nat, r: TableRow)
    requires j < |rows|
    ensures r != rows[j] ==> (Replaced(rows, rows[j], r) == rows[j := r] <==> OnlyAt(rows, j))
  {
    if OnlyAt(rows, j) {
      assert Replaced(rows, rows[j], r) == rows[j := r];
    }
    if r != rows[j] && Replaced(rows, rows[j], r) == rows[j := r] {
      forall k | 0 <= k < |rows| && k != j ensures rows[k] != rows[j] {
        assert rows[j := r][k] == rows[k];
      }
    }
  }

  /** The rows that are not equal to `was`. */
  function Without(rows: seq<TableRow>, was: TableRow): seq<TableRow> {
    if rows == [] then [] else (if rows[0] == was then [] else [rows[0]]) + Without(rows[1..], was)
  }

  lemma {:induction false} WithoutLength(rows: seq<TableRow>, was: TableRow)
    ensures |Without(rows, was)| <= |rows|
    ensures was in rows ==> |Without(rows, was)| < |rows|
  {
    if rows != [] {
      WithoutLength(rows[1..], was);
      assert rows == [rows[0]] + rows[1..];
    }
  }

  /** One row goes exactly when it is there once. */
  lemma {:induction false} WithoutOne(rows: seq<TableRow>, j: nat)
    requires j < |rows|
    ensures Without(rows, rows[j]) == rows[..j] + rows[j + 1..] <==> OnlyAt(rows, j)
  {
    var was, tail := rows[j], rows[1..];
    assert forall k | 0 <= k < |tail| :: tail[k] == rows[k + 1];
    WithoutLength(tail, was);
    if j == 0 {
      if was in tail {
        var k :| 0 <= k < |tail| && tail[k] == was;
        assert rows[k + 1] == was;
      } else {
        WithoutAbsent(tail, was);
        assert rows[..0] + rows[1..] == tail;
      }
    } else {
      WithoutOne(tail, j - 1);
      assert rows[..j] + rows[j + 1..] == [rows[0]] + (tail[..j - 1] + tail[j..]);
      if rows[0] != was {
        assert ([rows[0]] + Without(tail, was))[1..] == Without(tail, was);
        assert (rows[..j] + rows[j + 1..])[1..] == tail[..j - 1] + tail[j..];
        if OnlyAt(tail, j - 1) {
          forall k | 0 <= k < |rows| && k != j ensures rows[k] != rows[j] {
            if k > 0 {
              assert tail[k - 1] != tail[j - 1];
            }
          }
        }
        if OnlyAt(rows, j) {
          forall k | 0 <= k < |tail| && k != j - 1 ensures tail[k] != tail[j - 1] {
            assert rows[k + 1] != rows[j];
          }
        }
      } else {
        assert tail[j - 1] in tail;
      }
    }
  }

  lemma {:induction false} WithoutAbsent(rows: seq<TableRow>, was: TableRow)
    requires was !in rows
    ensures Without(rows, was) == rows
  {
    if rows != [] {
      WithoutAbsent(rows[1..], was);
    }
  }

  lemma {:induction false} RemainingIsWithout(wheres: seq<Binding>, rows: seq<TableRow>, was: TableRow)
    requires forall k | 0 <= k < |rows| :: Condition(wheres, rows[k]) == True <==> rows[k] == was
    ensures Remaining(wheres, rows) == Without(rows, was)
  {
    if rows != [] {
      assert forall k | 0 <= k < |rows[1..]| :: rows[1..][k] == rows[k + 1];
      RemainingIsWithout(wheres, rows[1..], was);
    }
  }

  /** A full-row delete takes out every row equal to the old one, or none at all when it has a null; it takes
      out one row, as the source did, exactly when the old row has no null and is there once. */
  lemma {:induction false} FullRowDelete(d: Decoded, rows: seq<TableRow>, j: nat)
    requires GoodTable(d, rows) && j < |rows| && d.kind == 'D' && d.keys == [] && d.hasOld
    requires |d.oldRow| == |d.cols| > 0 && NoToast(d.cols, d.oldRow) && IsRow(d.cols, d.oldRow, rows[j], rows[j])
    ensures OutputOf(d).Statement?
    ensures Exec(MeaningOf(OutputOf(d).stmt), SchemaOf(d), rows)
         == Done(if NoNull(d.cols, d.oldRow) then Without(rows, rows[j]) else rows)
    ensures Exec(MeaningOf(OutputOf(d).stmt), SchemaOf(d), rows) == Done(rows[..j] + rows[j + 1..])
       <==> NoNull(d.cols, d.oldRow) && OnlyAt(rows, j)
  {
    var was := rows[j];
    var wheres := Bindings(WheresOf(d.cols, [], d.oldRow));
    forall k | 0 <= k < |rows|
      ensures Condition(wheres, rows[k]) == True <==> NoNull(d.cols, d.oldRow) && rows[k] == was
    {
      SelectsEqual(d.cols, d.oldRow, was, rows[k]);
    }
    ColumnsKnown(d.cols, d.oldRow, Identifying(d.cols, []));
    if NoNull(d.cols, d.oldRow) {
      RemainingIsWithout(wheres, rows, was);
      WithoutOne(rows, j);
    } else {
      RemovesNone(wheres, rows);
      assert |rows[..j] + rows[j + 1..]| == |rows| - 1;
    }
  }
}
