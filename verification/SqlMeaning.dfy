/** What statements do to a table, and that a change's statement does what the change did. */
module SqlMeaning {
  import opened OptionType
  import opened SqlText
  import opened Wire
  import opened SqlGen

  // ---- Tables ------------------------------------------------------------------------------------------------

  /** From column name to value; None is null. */
  type TableRow = map<string, Option<string>>

  /** The column names of a table and the columns of its key, if it has one. */
  datatype Schema = Schema(names: set<string>, key: seq<string>)

  datatype Truth = True | False | Unknown

  /** SQL equality: unknown as soon as one side is null. */
  function Equal(a: Option<string>, b: Option<string>): Truth {
    if a.None? || b.None? then Unknown else if a == b then True else False
  }

  function Conjunction(a: Truth, b: Truth): Truth {
    if a == False || b == False then False else if a == Unknown || b == Unknown then Unknown else True
  }

  function Field(r: TableRow, col: string): Option<string> { if col in r then r[col] else None }

  /** The truth of a list of conditions. */
  function Condition(wheres: seq<Binding>, r: TableRow): Truth {
    if wheres == [] then True
    else Conjunction(Condition(wheres[..|wheres| - 1], r), Equal(Field(r, wheres[|wheres| - 1].0), wheres[|wheres| - 1].1))
  }

  function Assign(sets: seq<Binding>, r: TableRow): TableRow {
    if sets == [] then r
    else Assign(sets[..|sets| - 1], r)[sets[|sets| - 1].0 := sets[|sets| - 1].1]
  }

  function Updated(sets: seq<Binding>, wheres: seq<Binding>, rows: seq<TableRow>): (r: seq<TableRow>)
    ensures |r| == |rows|
    ensures forall k | 0 <= k < |rows| ::
      r[k] == if Condition(wheres, rows[k]) == True then Assign(sets, rows[k]) else rows[k]
  {
    seq(|rows|, k requires 0 <= k < |rows| =>
      if Condition(wheres, rows[k]) == True then Assign(sets, rows[k]) else rows[k])
  }

  function Remaining(wheres: seq<Binding>, rows: seq<TableRow>): seq<TableRow> {
    if rows == [] then []
    else (if Condition(wheres, rows[0]) == True then [] else [rows[0]]) + Remaining(wheres, rows[1..])
  }

  predicate SameKey(key: seq<string>, a: TableRow, b: TableRow) {
    forall k | k in key :: Field(a, k) == Field(b, k)
  }

  /** At most one row per key. */
  predicate KeyUnique(key: seq<string>, rows: seq<TableRow>) {
    key != [] ==> forall i, j | 0 <= i < j < |rows| :: !SameKey(key, rows[i], rows[j])
  }

  /** The names are among those that exist, and none comes twice. */
  predicate NamedOnce(names: seq<string>, among: set<string>) {
    (forall i | 0 <= i < |names| :: names[i] in among) && (forall i, j | 0 <= i < j < |names| :: names[i] != names[j])
  }

  function ColumnNames(bs: seq<Binding>): (r: seq<string>)
    ensures |r| == |bs| && forall i | 0 <= i < |bs| :: r[i] == bs[i].0
  {
    seq(|bs|, i requires 0 <= i < |bs| => bs[i].0)
  }

  /** The row of an INSERT: null where no value is given. */
  function Inserted(names: set<string>, cols: seq<string>, vals: seq<Option<string>>): TableRow
    requires |cols| == |vals|
  {
    if cols == [] then map n | n in names :: None
    else Inserted(names, cols[..|cols| - 1], vals[..|cols| - 1])[cols[|cols| - 1] := vals[|cols| - 1]]
  }

  datatype Outcome = Done(rows: seq<TableRow>) | DuplicateKey | Invalid

  function Checked(s: Schema, rows: seq<TableRow>): Outcome {
    if KeyUnique(s.key, rows) then Done(rows) else DuplicateKey
  }

  /** A statement on a table.  It is refused when it names a column that is not there or names one twice where
      that is not allowed, and when two rows would get the same key. */
  function Exec(q: Query, s: Schema, rows: seq<TableRow>): Outcome {
    match q
    case InsertQ(_, _, cols, vals) =>
      if NamedOnce(cols, s.names) && |cols| == |vals| then Checked(s, rows + [Inserted(s.names, cols, vals)]) else Invalid
    case UpdateQ(_, _, sets, wheres) =>
      if NamedOnce(ColumnNames(sets), s.names) && forall b | b in wheres :: b.0 in s.names
      then Checked(s, Updated(sets, wheres, rows)) else Invalid
    case DeleteQ(_, _, wheres) =>
      if forall b | b in wheres :: b.0 in s.names then Done(Remaining(wheres, rows)) else Invalid
  }

  // ---- Rows and tuples ---------------------------------------------------------------------------------------

  /** Live columns have different names. */
  predicate Distinct(cols: seq<Column>) {
    forall i, j | 0 <= i < j < |cols| && cols[i].Live? && cols[j].Live? :: cols[i].name != cols[j].name
  }

  function NameSet(cols: seq<Column>): set<string> {
    set i | 0 <= i < |cols| && cols[i].Live? :: cols[i].name
  }

  /** The value a cell stands for; an unchanged-toast value is what the row had before. */
  function Value(c: Column, v: Cell, was: TableRow): Option<string>
    requires c.Live?
  {
    match v
    case Null => None
    case Text(x) => Some(x)
    case Toast => Field(was, c.name)
  }

  /** `r` is the row that the tuple describes. */
  predicate IsRow(cols: seq<Column>, row: seq<Cell>, was: TableRow, r: TableRow)
    requires |row| == |cols|
  {
    r.Keys == NameSet(cols) && forall i | 0 <= i < |cols| && cols[i].Live? :: Field(r, cols[i].name) == Value(cols[i], row[i], was)
  }

  lemma {:induction false} RowUnique(cols: seq<Column>, row: seq<Cell>, was: TableRow, r: TableRow, r': TableRow)
    requires |row| == |cols| && IsRow(cols, row, was, r) && IsRow(cols, row, was, r')
    ensures r == r'
  {
    forall n | n in r ensures r[n] == r'[n] {
      var i :| 0 <= i < |cols| && cols[i].Live? && cols[i].name == n;
      assert Field(r, cols[i].name) == Field(r', cols[i].name);
    }
  }

  // ---- WHERE -------------------------------------------------------------------------------------------------

  lemma {:induction false} ConditionTrue(wheres: seq<Binding>, r: TableRow)
    ensures Condition(wheres, r) == True <==> forall k | 0 <= k < |wheres| :: Equal(Field(r, wheres[k].0), wheres[k].1) == True
  {
    if wheres != [] {
      var init := wheres[..|wheres| - 1];
      ConditionTrue(init, r);
      assert forall k | 0 <= k < |init| :: init[k] == wheres[k];
    }
  }

  /** The cell is not null and the row has its value. */
  predicate CellHolds(c: Column, v: Cell, r: TableRow)
    requires c.Live?
  {
    v.Text? && Field(r, c.name) == Some(v.value)
  }

  predicate PickedHold(cols: seq<Column>, row: seq<Cell>, pick: seq<bool>, n: nat, r: TableRow)
    requires |row| == |cols| && OnLive(cols, pick) && n <= |cols|
  {
    forall i | 0 <= i < n && pick[i] :: CellHolds(cols[i], row[i], r)
  }

  lemma {:induction false} ConditionSnoc(wheres: seq<Binding>, b: Binding, r: TableRow)
    ensures Condition(wheres + [b], r) == Conjunction(Condition(wheres, r), Equal(Field(r, b.0), b.1))
  {
    assert (wheres + [b])[..|wheres|] == wheres;
  }

  /** The bindings of the first `i` columns and of one more. */
  lemma {:induction false} BindingsStep(cols: seq<Column>, row: seq<Cell>, pick: seq<bool>, i: nat)
    requires |row| == |cols| && OnLive(cols, pick) && i < |cols|
    ensures Bindings(Items(cols, row, pick, i + 1))
         == Bindings(Items(cols, row, pick, i)) + if pick[i] then [(cols[i].name, LitValue(LitOf(cols[i], row[i])))] else []
  {
    ItemsStep(cols, row, pick, i);
    var items := Items(cols, row, pick, i);
    if pick[i] {
      assert Bindings(items + [ItemOf(cols[i], row[i])]) == Bindings(items) + [Meant(ItemOf(cols[i], row[i]))];
    } else {
      assert Bindings(items) + [] == Bindings(items);
    }
  }

  /** One column more, in the conditions. */
  lemma {:induction false} ConditionStep(cols: seq<Column>, row: seq<Cell>, pick: seq<bool>, i: nat, r: TableRow)
    requires |row| == |cols| && OnLive(cols, pick) && i < |cols|
    ensures Condition(Bindings(Items(cols, row, pick, i + 1)), r) == True
       <==> Condition(Bindings(Items(cols, row, pick, i)), r) == True && (pick[i] ==> CellHolds(cols[i], row[i], r))
  {
    hide Condition;
    hide Items;
    BindingsStep(cols, row, pick, i);
    var before := Bindings(Items(cols, row, pick, i));
    if pick[i] {
      ConditionSnoc(before, (cols[i].name, LitValue(LitOf(cols[i], row[i]))), r);
    } else {
      assert before + [] == before;
    }
  }

  lemma {:induction false} NoConditions(cols: seq<Column>, row: seq<Cell>, pick: seq<bool>, r: TableRow)
    requires |row| == |cols| && OnLive(cols, pick)
    ensures Condition(Bindings(Items(cols, row, pick, 0)), r) == True
  {
    assert Items(cols, row, pick, 0) == [];
  }

  lemma {:induction false} ItemsHold(cols: seq<Column>, row: seq<Cell>, pick: seq<bool>, n: nat, r: TableRow)
    requires |row| == |cols| && OnLive(cols, pick) && n <= |cols|
    ensures Condition(Bindings(Items(cols, row, pick, n)), r) == True <==> PickedHold(cols, row, pick, n, r)
  {
    hide Condition;
    hide Items;
    hide Bindings;
    if n > 0 {
      ItemsHold(cols, row, pick, n - 1, r);
      ConditionStep(cols, row, pick, n - 1, r);
      HoldStep(cols, row, pick, n - 1, r);
    } else {
      NoConditions(cols, row, pick, r);
    }
  }

  lemma {:induction false} HoldStep(cols: seq<Column>, row: seq<Cell>, pick: seq<bool>, i: nat, r: TableRow)
    requires |row| == |cols| && OnLive(cols, pick) && i < |cols|
    ensures PickedHold(cols, row, pick, i + 1, r)
       <==> PickedHold(cols, row, pick, i, r) && (pick[i] ==> CellHolds(cols[i], row[i], r))
  {
  }

  // ---- SET ---------------------------------------------------------------------------------------------------

  /** `r` with the picked columns of the tuple. */
  predicate IsSet(cols: seq<Column>, row: seq<Cell>, pick: seq<bool>, n: nat, was: TableRow, r: TableRow)
    requires |row| == |cols| && OnLive(cols, pick) && n <= |cols|
  {
    && r.Keys == was.Keys
    && forall i | 0 <= i < |cols| && cols[i].Live? ::
      Field(r, cols[i].name) == if i < n && pick[i] then LitValue(LitOf(cols[i], row[i])) else Field(was, cols[i].name)
  }

  lemma {:induction false} AssignSnoc(sets: seq<Binding>, b: Binding, r: TableRow)
    ensures Assign(sets + [b], r) == Assign(sets, r)[b.0 := b.1]
  {
    assert (sets + [b])[..|sets|] == sets;
  }

  lemma {:induction false} SetStep(cols: seq<Column>, row: seq<Cell>, pick: seq<bool>, i: nat, was: TableRow, r: TableRow)
    requires |row| == |cols| && OnLive(cols, pick) && i < |cols|
    requires Distinct(cols) && was.Keys == NameSet(cols) && IsSet(cols, row, pick, i, was, r)
    ensures !pick[i] ==> IsSet(cols, row, pick, i + 1, was, r)
    ensures pick[i] ==> IsSet(cols, row, pick, i + 1, was, r[cols[i].name := LitValue(LitOf(cols[i], row[i]))])
  {
    if pick[i] {
      assert cols[i].name in NameSet(cols);
    }
  }

  lemma {:induction false} ItemsSet(cols: seq<Column>, row: seq<Cell>, pick: seq<bool>, n: nat, was: TableRow)
    requires |row| == |cols| && OnLive(cols, pick) && n <= |cols|
    requires Distinct(cols) && was.Keys == NameSet(cols)
    ensures IsSet(cols, row, pick, n, was, Assign(Bindings(Items(cols, row, pick, n)), was))
  {
    if n > 0 {
      var i := n - 1;
      ItemsSet(cols, row, pick, i, was);
      BindingsStep(cols, row, pick, i);
      var before := Bindings(Items(cols, row, pick, i));
      SetStep(cols, row, pick, i, was, Assign(before, was));
      if pick[i] {
        AssignSnoc(before, (cols[i].name, LitValue(LitOf(cols[i], row[i]))), was);
      } else {
        assert before + [] == before;
      }
    }
  }

  // ---- Columns named -----------------------------------------------------------------------------------------

  function NamesBefore(cols: seq<Column>, n: nat): set<string>
    requires n <= |cols|
  {
    set i | 0 <= i < n && cols[i].Live? :: cols[i].name
  }

  lemma {:induction false} NamedSnoc(names: seq<string>, among: set<string>, x: string)
    requires NamedOnce(names, among) && x !in among
    ensures NamedOnce(names + [x], among + {x})
  {
  }

  lemma {:induction false} NamesGrow(cols: seq<Column>, i: nat)
    requires i < |cols| && Distinct(cols)
    ensures NamesBefore(cols, i + 1) == NamesBefore(cols, i) + if cols[i].Live? then {cols[i].name} else {}
    ensures cols[i].Live? ==> cols[i].name !in NamesBefore(cols, i)
  {
  }

  lemma {:induction false} ItemsNamed(cols: seq<Column>, row: seq<Cell>, pick: seq<bool>, n: nat)
    requires |row| == |cols| && OnLive(cols, pick) && n <= |cols| && Distinct(cols)
    ensures NamedOnce(ColumnNames(Bindings(Items(cols, row, pick, n))), NamesBefore(cols, n))
  {
    if n > 0 {
      var i := n - 1;
      ItemsNamed(cols, row, pick, i);
      BindingsStep(cols, row, pick, i);
      NamesGrow(cols, i);
      var before := Bindings(Items(cols, row, pick, i));
      if pick[i] {
        var b := (cols[i].name, LitValue(LitOf(cols[i], row[i])));
        assert ColumnNames(before + [b]) == ColumnNames(before) + [b.0];
        NamedSnoc(ColumnNames(before), NamesBefore(cols, i), b.0);
      } else {
        assert before + [] == before;
      }
    }
  }

  lemma {:induction false} ColumnsKnown(cols: seq<Column>, row: seq<Cell>, pick: seq<bool>)
    requires |row| == |cols| && OnLive(cols, pick) && Distinct(cols)
    ensures
      var bs := Bindings(Items(cols, row, pick, |cols|));
      NamedOnce(ColumnNames(bs), NameSet(cols)) && forall b | b in bs :: b.0 in NameSet(cols)
  {
    ItemsNamed(cols, row, pick, |cols|);
    var bs := Bindings(Items(cols, row, pick, |cols|));
    assert NamesBefore(cols, |cols|) == NameSet(cols);
    forall b | b in bs ensures b.0 in NameSet(cols) {
      var k :| 0 <= k < |bs| && bs[k] == b;
      assert ColumnNames(bs)[k] == b.0;
    }
  }

  // ---- Updates of one row ------------------------------------------------------------------------------------

  /** A table of the relation. */
  predicate TableOf(cols: seq<Column>, rows: seq<TableRow>) {
    forall k | 0 <= k < |rows| :: rows[k].Keys == NameSet(cols)
  }

  /** An update that selects row `j` alone and makes it `r`. */
  lemma {:induction false} UpdatesOne(sets: seq<Binding>, wheres: seq<Binding>, rows: seq<TableRow>, j: nat, r: TableRow)
    requires j < |rows| && Assign(sets, rows[j]) == r
    requires forall k | 0 <= k < |rows| :: Condition(wheres, rows[k]) == True <==> k == j
    ensures Updated(sets, wheres, rows) == rows[j := r]
  {
  }

  lemma {:induction false} RemovesNone(wheres: seq<Binding>, rows: seq<TableRow>)
    requires forall k | 0 <= k < |rows| :: Condition(wheres, rows[k]) != True
    ensures Remaining(wheres, rows) == rows
  {
    if rows != [] {
      assert forall k | 0 <= k < |rows[1..]| :: rows[1..][k] == rows[k + 1];
      RemovesNone(wheres, rows[1..]);
    }
  }

  lemma {:induction false} RemovesOne(wheres: seq<Binding>, rows: seq<TableRow>, j: nat)
    requires j < |rows|
    requires forall k | 0 <= k < |rows| :: Condition(wheres, rows[k]) == True <==> k == j
    ensures Remaining(wheres, rows) == rows[..j] + rows[j + 1..]
  {
    assert forall k | 0 <= k < |rows[1..]| :: rows[1..][k] == rows[k + 1];
    if j == 0 {
      RemovesNone(wheres, rows[1..]);
    } else {
      RemovesOne(wheres, rows[1..], j - 1);
      assert rows[..j] + rows[j + 1..] == [rows[0]] + (rows[1..][..j - 1] + rows[1..][j..]);
    }
  }

  // ---- Rows found by their key -------------------------------------------------------------------------------

  /** The relation has a key of live columns, and the tuple has a value for each of them. */
  predicate HasKey(cols: seq<Column>, key: seq<string>, row: seq<Cell>) {
    && |row| == |cols| && key != [] && (forall k | k in key :: k in NameSet(cols))
    && forall i | 0 <= i < |cols| && Identifies(cols[i], key) :: row[i].Text?
  }

  /** Row `r` has the key of the tuple. */
  predicate KeyIs(cols: seq<Column>, key: seq<string>, row: seq<Cell>, r: TableRow)
    requires |row| == |cols|
  {
    forall i | 0 <= i < |cols| && Identifies(cols[i], key) :: CellHolds(cols[i], row[i], r)
  }

  lemma {:induction false} SelectsKey(cols: seq<Column>, key: seq<string>, row: seq<Cell>, r: TableRow)
    requires |row| == |cols|
    ensures Condition(Bindings(WheresOf(cols, key, row)), r) == True <==> KeyIs(cols, key, row, r)
  {
    var pick := Identifying(cols, key);
    ItemsHold(cols, row, pick, |cols|, r);
    if PickedHold(cols, row, pick, |cols|, r) {
      forall i | 0 <= i < |cols| && Identifies(cols[i], key) ensures CellHolds(cols[i], row[i], r) {
        assert pick[i];
      }
    }
  }

  lemma {:induction false} SameKeyIff(cols: seq<Column>, key: seq<string>, row: seq<Cell>, a: TableRow, b: TableRow)
    requires HasKey(cols, key, row) && KeyIs(cols, key, row, a)
    ensures KeyIs(cols, key, row, b) <==> SameKey(key, a, b)
  {
    if KeyIs(cols, key, row, b) {
      forall k | k in key ensures Field(a, k) == Field(b, k) {
        var i :| 0 <= i < |cols| && cols[i].Live? && cols[i].name == k;
        assert CellHolds(cols[i], row[i], a) && CellHolds(cols[i], row[i], b);
      }
    }
    if SameKey(key, a, b) {
      forall i | 0 <= i < |cols| && Identifies(cols[i], key) ensures CellHolds(cols[i], row[i], b) {
        assert CellHolds(cols[i], row[i], a);
      }
    }
  }

  /** With one row per key the conditions find row `j` alone. */
  lemma {:induction false} FindsOne(cols: seq<Column>, key: seq<string>, row: seq<Cell>, rows: seq<TableRow>, j: nat)
    requires HasKey(cols, key, row) && KeyUnique(key, rows) && j < |rows| && KeyIs(cols, key, row, rows[j])
    ensures forall k | 0 <= k < |rows| ::
      Condition(Bindings(WheresOf(cols, key, row)), rows[k]) == True <==> k == j
  {
    forall k | 0 <= k < |rows|
      ensures Condition(Bindings(WheresOf(cols, key, row)), rows[k]) == True <==> k == j
    {
      SelectsKey(cols, key, row, rows[k]);
      SameKeyIff(cols, key, row, rows[j], rows[k]);
      if k != j && KeyIs(cols, key, row, rows[k]) {
        assert SameKey(key, rows[j], rows[k]) && SameKey(key, rows[k], rows[j]);
      }
    }
  }

  // ---- INSERT ------------------------------------------------------------------------------------------------

  lemma {:induction false} InsertedSnoc(names: set<string>, cols: seq<string>, vals: seq<Option<string>>, c: string,
                                        v: Option<string>)
    requires |cols| == |vals|
    ensures Inserted(names, cols + [c], vals + [v]) == Inserted(names, cols, vals)[c := v]
  {
    assert (cols + [c])[..|cols|] == cols && (vals + [v])[..|vals|] == vals;
  }

  /** The names and the values of the first `i` columns and of one more. */
  lemma {:induction false} InsertStep(cols: seq<Column>, row: seq<Cell>, i: nat)
    requires |row| == |cols| && i < |cols|
    ensures LiveNames(cols, i + 1) == LiveNames(cols, i) + if cols[i].Live? then [cols[i].name] else []
    ensures Values(LiveLits(cols, row, i + 1))
         == Values(LiveLits(cols, row, i)) + if cols[i].Live? then [LitValue(LitOf(cols[i], row[i]))] else []
  {
    var lits := LiveLits(cols, row, i);
    if cols[i].Live? {
      assert Values(lits + [LitOf(cols[i], row[i])]) == Values(lits) + [LitValue(LitOf(cols[i], row[i]))];
    } else {
      assert lits + [] == lits && Values(lits) + [] == Values(lits);
    }
  }

  lemma {:induction false} ListsMatch(cols: seq<Column>, row: seq<Cell>, n: nat)
    requires |row| == |cols| && n <= |cols|
    ensures |LiveNames(cols, n)| == |LiveLits(cols, row, n)|
  {
    if n > 0 {
      ListsMatch(cols, row, n - 1);
    }
  }

  /** The first `n` columns of an inserted row have their values, the others are null. */
  predicate IsInserted(cols: seq<Column>, row: seq<Cell>, n: nat, r: TableRow)
    requires |row| == |cols| && n <= |cols|
  {
    && r.Keys == NameSet(cols)
    && forall i | 0 <= i < n && cols[i].Live? :: Field(r, cols[i].name) == LitValue(LitOf(cols[i], row[i]))
  }

  lemma {:induction false} InsertsRow(cols: seq<Column>, row: seq<Cell>, n: nat)
    requires |row| == |cols| && n <= |cols| && Distinct(cols)
    ensures |LiveNames(cols, n)| == |LiveLits(cols, row, n)|
    ensures NamedOnce(LiveNames(cols, n), NamesBefore(cols, n))
    ensures IsInserted(cols, row, n, Inserted(NameSet(cols), LiveNames(cols, n), Values(LiveLits(cols, row, n))))
  {
    ListsMatch(cols, row, n);
    if n > 0 {
      var i := n - 1;
      InsertsRow(cols, row, i);
      InsertStep(cols, row, i);
      NamesGrow(cols, i);
      var names, vals := LiveNames(cols, i), Values(LiveLits(cols, row, i));
      if cols[i].Live? {
        InsertedSnoc(NameSet(cols), names, vals, cols[i].name, LitValue(LitOf(cols[i], row[i])));
        NamedSnoc(names, NamesBefore(cols, i), cols[i].name);
        assert cols[i].name in NameSet(cols);
      } else {
        assert names + [] == names && vals + [] == vals;
      }
    }
  }
}
