/** Tables with a key are maps, and the statements of decoded changes are the operations of `Replay` on them. */
module KeyedTables {
  import opened OptionType
  import opened SqlText
  import opened Wire
  import opened SqlGen
  import opened SqlMeaning
  import opened ChangeMeaning
  import Replay

  type Key = map<string, Option<string>>

  type Operation = Replay.Op<Key, TableRow>

  function KeyOf(key: seq<string>, r: TableRow): Key { map k | k in key :: Field(r, k) }

  ghost predicate HasRow(key: seq<string>, rows: seq<TableRow>, k: Key) {
    exists i :: 0 <= i < |rows| && KeyOf(key, rows[i]) == k
  }

  /** The map holds the rows of the table under their keys, and nothing else. */
  ghost predicate Represents(key: seq<string>, m: map<Key, TableRow>, rows: seq<TableRow>) {
    && (forall i | 0 <= i < |rows| :: KeyOf(key, rows[i]) in m && m[KeyOf(key, rows[i])] == rows[i])
    && (forall k | k in m :: HasRow(key, rows, k))
  }

  lemma {:induction false} SameKeyIsEqual(key: seq<string>, a: TableRow, b: TableRow)
    ensures SameKey(key, a, b) <==> KeyOf(key, a) == KeyOf(key, b)
  {
    if KeyOf(key, a) == KeyOf(key, b) {
      forall k | k in key ensures Field(a, k) == Field(b, k) {
        assert KeyOf(key, a)[k] == KeyOf(key, b)[k];
      }
    }
  }

  lemma {:induction false} DifferentKeys(key: seq<string>, rows: seq<TableRow>, i: nat, j: nat)
    requires key != [] && KeyUnique(key, rows) && i < |rows| && j < |rows| && i != j
    ensures KeyOf(key, rows[i]) != KeyOf(key, rows[j])
  {
    SameKeyIsEqual(key, rows[i], rows[j]);
    SameKeyIsEqual(key, rows[j], rows[i]);
  }

  // ---- What each outcome does to the map ---------------------------------------------------------------------

  lemma {:induction false} AddedRow(key: seq<string>, m: map<Key, TableRow>, rows: seq<TableRow>, r: TableRow)
    requires key != [] && Represents(key, m, rows) && KeyUnique(key, rows)
    ensures KeyUnique(key, rows + [r]) <==> KeyOf(key, r) !in m
    ensures KeyUnique(key, rows + [r]) ==> Represents(key, m[KeyOf(key, r) := r], rows + [r])
  {
    var k, rows' := KeyOf(key, r), rows + [r];
    if k in m {
      assert HasRow(key, rows, k);
      var i :| 0 <= i < |rows| && KeyOf(key, rows[i]) == k;
      SameKeyIsEqual(key, rows[i], r);
      assert rows'[i] == rows[i] && rows'[|rows|] == r;
    } else {
      forall a, b | 0 <= a < b < |rows'| ensures !SameKey(key, rows'[a], rows'[b]) {
        if b == |rows| {
          SameKeyIsEqual(key, rows[a], r);
        }
      }
      forall x: Key | x in m[k := r] ensures HasRow(key, rows', x) {
        if x == k {
          assert KeyOf(key, rows'[|rows|]) == x;
        } else {
          assert HasRow(key, rows, x);
          var i :| 0 <= i < |rows| && KeyOf(key, rows[i]) == x;
          assert KeyOf(key, rows'[i]) == x;
        }
      }
    }
  }

  lemma {:induction false} RemovedUnique(key: seq<string>, rows: seq<TableRow>, j: nat)
    requires KeyUnique(key, rows) && j < |rows|
    ensures KeyUnique(key, rows[..j] + rows[j + 1..])
  {
    var rows' := rows[..j] + rows[j + 1..];
    if key != [] {
      forall a, b | 0 <= a < b < |rows'| ensures !SameKey(key, rows'[a], rows'[b]) {
        var a', b' := if a < j then a else a + 1, if b < j then b else b + 1;
        assert !SameKey(key, rows[a'], rows[b']);
      }
    }
  }

  lemma {:induction false} RemovedAt(rows: seq<TableRow>, j: nat, i: nat)
    requires j < |rows| && i < |rows| - 1
    ensures (rows[..j] + rows[j + 1..])[i] == rows[if i < j then i else i + 1]
  {
  }

  lemma {:induction false} RemovedRow(key: seq<string>, m: map<Key, TableRow>, rows: seq<TableRow>, j: nat)
    requires key != [] && Represents(key, m, rows) && KeyUnique(key, rows) && j < |rows|
    ensures Represents(key, m - {KeyOf(key, rows[j])}, rows[..j] + rows[j + 1..])
  {
    var k, rows' := KeyOf(key, rows[j]), rows[..j] + rows[j + 1..];
    var m' := m - {k};
    forall i | 0 <= i < |rows'| ensures KeyOf(key, rows'[i]) in m' && m'[KeyOf(key, rows'[i])] == rows'[i] {
      RemovedAt(rows, j, i);
      DifferentKeys(key, rows, if i < j then i else i + 1, j);
    }
    forall x: Key | x in m' ensures HasRow(key, rows', x) {
      var i := FindRow(key, m, rows, x);
      var i' := if i < j then i else i - 1;
      RemovedAt(rows, j, i');
      assert KeyOf(key, rows'[i']) == x;
    }
  }

  lemma {:induction false} ReplacedUnique(key: seq<string>, m: map<Key, TableRow>, rows: seq<TableRow>, j: nat, r: TableRow)
    requires key != [] && Represents(key, m, rows) && KeyUnique(key, rows) && j < |rows|
    ensures KeyUnique(key, rows[j := r]) <==> KeyOf(key, r) == KeyOf(key, rows[j]) || KeyOf(key, r) !in m
  {
    var k, k', rows' := KeyOf(key, rows[j]), KeyOf(key, r), rows[j := r];
    if k' != k && k' in m {
      assert HasRow(key, rows, k');
      var i :| 0 <= i < |rows| && KeyOf(key, rows[i]) == k';
      SameKeyIsEqual(key, rows[i], r);
      SameKeyIsEqual(key, r, rows[i]);
      assert i != j && rows'[i] == rows[i] && rows'[j] == r;
    } else {
      forall a, b | 0 <= a < b < |rows'| ensures !SameKey(key, rows'[a], rows'[b]) {
        DifferentKeys(key, rows, a, b);
        SameKeyIsEqual(key, rows'[a], rows'[b]);
      }
    }
  }

  /** Replacing row `j` takes its key out and puts the new row's key in. */
  lemma {:induction false} ReplacedRow(key: seq<string>, m: map<Key, TableRow>, rows: seq<TableRow>, j: nat, r: TableRow)
    requires key != [] && Represents(key, m, rows) && KeyUnique(key, rows) && j < |rows|
    requires KeyOf(key, r) == KeyOf(key, rows[j]) || KeyOf(key, r) !in m
    ensures Represents(key, (m - {KeyOf(key, rows[j])})[KeyOf(key, r) := r], rows[j := r])
  {
    var k, k', rows' := KeyOf(key, rows[j]), KeyOf(key, r), rows[j := r];
    var m' := (m - {k})[k' := r];
    forall i | 0 <= i < |rows'| ensures KeyOf(key, rows'[i]) in m' && m'[KeyOf(key, rows'[i])] == rows'[i] {
      if i != j {
        DifferentKeys(key, rows, i, j);
      }
    }
    forall x: Key | x in m' ensures HasRow(key, rows', x) {
      if x == k' {
        assert rows'[j] == r;
      } else {
        assert HasRow(key, rows, x);
        var i :| 0 <= i < |rows| && KeyOf(key, rows[i]) == x;
        assert rows'[i] == rows[i];
      }
    }
  }

  // ---- A decoded change as an operation ----------------------------------------------------------------------

  /** The change is that operation: its new tuple is the row, its key that of the row or of the old tuple. */
  ghost predicate Says(d: Decoded, key: seq<string>, op: Operation) {
    && d.ChangeD? && Distinct(d.cols) && |d.cols| > 0 && Matching(d)
    && match op
       case Insert(k, v) =>
         d.kind == 'I' && |d.newRow| == |d.cols| && IsRow(d.cols, d.newRow, map[], v) && k == KeyOf(key, v)
       case Update(k, v) =>
         && d.kind == 'U' && d.keys == key && d.oldRow == [] && HasKey(d.cols, key, d.newRow)
         && NoToast(d.cols, d.newRow) && IsRow(d.cols, d.newRow, map[], v) && k == KeyOf(key, v)
       case Rekey(k, k', v) =>
         && d.kind == 'U' && d.keys == key && HasKey(d.cols, key, d.oldRow) && |d.newRow| == |d.cols|
         && NoToast(d.cols, d.newRow) && IsRow(d.cols, d.newRow, map[], v) && k' == KeyOf(key, v)
         && IsKey(d.cols, key, d.oldRow, k)
       case Delete(k) =>
         d.kind == 'D' && d.keys == key && d.hasOld && HasKey(d.cols, key, d.oldRow) && IsKey(d.cols, key, d.oldRow, k)
  }

  /** `k` is the key in the tuple. */
  ghost predicate IsKey(cols: seq<Column>, key: seq<string>, row: seq<Cell>, k: Key)
    requires |row| == |cols|
  {
    exists w :: KeyIs(cols, key, row, w) && k == KeyOf(key, w)
  }

  /** The outcome on the table is the outcome on the map. */
  ghost predicate Agrees(cols: seq<Column>, key: seq<string>, out: Outcome, out': Replay.Outcome<Key, TableRow>) {
    match out
    case Done(rows) => out'.Done? && Represents(key, out'.db, rows) && KeyUnique(key, rows) && TableOf(cols, rows)
    case DuplicateKey => out'.DuplicateKey?
    case Invalid => false
  }

  /** A table of the relation, with its map. */
  ghost predicate Holds(cols: seq<Column>, key: seq<string>, m: map<Key, TableRow>, rows: seq<TableRow>) {
    key != [] && TableOf(cols, rows) && KeyUnique(key, rows) && Represents(key, m, rows)
  }

  /** Where the key is in the table, if it is. */
  lemma {:induction false} Lookup(cols: seq<Column>, key: seq<string>, m: map<Key, TableRow>, rows: seq<TableRow>,
                                  row: seq<Cell>, w: TableRow)
    requires Holds(cols, key, m, rows) && HasKey(cols, key, row) && KeyIs(cols, key, row, w)
    ensures forall i | 0 <= i < |rows| :: KeyIs(cols, key, row, rows[i]) <==> KeyOf(key, rows[i]) == KeyOf(key, w)
    ensures KeyOf(key, w) !in m ==> forall i | 0 <= i < |rows| :: !KeyIs(cols, key, row, rows[i])
  {
    forall i | 0 <= i < |rows| ensures KeyIs(cols, key, row, rows[i]) <==> KeyOf(key, rows[i]) == KeyOf(key, w) {
      SameKeyIff(cols, key, row, w, rows[i]);
      SameKeyIsEqual(key, w, rows[i]);
    }
  }

  /** Without unchanged-toast values a tuple is the same row whatever was there before. */
  lemma {:induction false} AnyBefore(cols: seq<Column>, row: seq<Cell>, was: TableRow, was': TableRow, r: TableRow)
    requires NoToast(cols, row) && IsRow(cols, row, was, r)
    ensures IsRow(cols, row, was', r)
  {
    forall i | 0 <= i < |cols| && cols[i].Live? ensures Field(r, cols[i].name) == Value(cols[i], row[i], was') {
      assert Field(r, cols[i].name) == Value(cols[i], row[i], was);
    }
  }

  lemma {:induction false} InsertIsOp(d: Decoded, key: seq<string>, op: Operation, m: map<Key, TableRow>, rows: seq<TableRow>)
    requires op.Insert? && Says(d, key, op) && Holds(d.cols, key, m, rows)
    ensures OutputOf(d).Statement?
    ensures Agrees(d.cols, key, Exec(MeaningOf(OutputOf(d).stmt), Schema(NameSet(d.cols), key), rows), Replay.Exec(op, m))
  {
    InsertAddsRow(d, key, rows, op.row);
    AddedRow(key, m, rows, op.row);
  }

  /** Replacing a row of the table, or the refusal to, on the map. */
  lemma {:induction false} ReplacingAgrees(cols: seq<Column>, key: seq<string>, m: map<Key, TableRow>, rows: seq<TableRow>,
                                           j: nat, r: TableRow)
    requires Holds(cols, key, m, rows) && j < |rows| && r.Keys == NameSet(cols)
    ensures
      var k, k' := KeyOf(key, rows[j]), KeyOf(key, r);
      Agrees(cols, key, if KeyUnique(key, rows[j := r]) then Done(rows[j := r]) else DuplicateKey,
             Replay.Exec(Replay.Rekey(k, k', r), m))
  {
    ReplacedUnique(key, m, rows, j, r);
    if KeyUnique(key, rows[j := r]) {
      ReplacedRow(key, m, rows, j, r);
    }
  }

  lemma {:induction false} RekeySame<K, V>(m: map<K, V>, k: K, v: V)
    ensures k in m ==> Replay.Exec(Replay.Rekey(k, k, v), m) == Replay.Exec(Replay.Update(k, v), m)
  {
    assert k in m ==> (m - {k})[k := v] == m[k := v];
  }

  lemma {:induction false} RemoveAbsent<K, V>(m: map<K, V>, k: K)
    requires k !in m
    ensures Replay.Exec(Replay.Delete(k), m) == Replay.Done(m)
  {
    assert m - {k} == m;
  }

  lemma {:induction false} FindRow(key: seq<string>, m: map<Key, TableRow>, rows: seq<TableRow>, k: Key) returns (j: nat)
    requires Represents(key, m, rows) && k in m
    ensures j < |rows| && KeyOf(key, rows[j]) == k
  {
    assert HasRow(key, rows, k);
    j :| 0 <= j < |rows| && KeyOf(key, rows[j]) == k;
  }

  lemma {:induction false} UpdateIsOp(d: Decoded, key: seq<string>, op: Operation, m: map<Key, TableRow>, rows: seq<TableRow>)
    requires op.Update? && Says(d, key, op) && Holds(d.cols, key, m, rows)
    ensures OutputOf(d).Statement?
    ensures Agrees(d.cols, key, Exec(MeaningOf(OutputOf(d).stmt), Schema(NameSet(d.cols), key), rows), Replay.Exec(op, m))
  {
    var r := op.row;
    RowHasKey(d.cols, key, d.newRow, map[], r);
    Lookup(d.cols, key, m, rows, d.newRow, r);
    if op.key in m {
      var j := FindRow(key, m, rows, op.key);
      AnyBefore(d.cols, d.newRow, map[], rows[j], r);
      KeyUnchangedUpdate(d, rows, j, r);
      ReplacedUnique(key, m, rows, j, r);
      ReplacingAgrees(d.cols, key, m, rows, j, r);
      RekeySame(m, op.key, r);
    } else {
      MissingKey(d, rows);
    }
  }

  lemma {:induction false} RekeyIsOp(d: Decoded, key: seq<string>, op: Operation, m: map<Key, TableRow>, rows: seq<TableRow>)
    requires op.Rekey? && Says(d, key, op) && Holds(d.cols, key, m, rows)
    ensures OutputOf(d).Statement?
    ensures Agrees(d.cols, key, Exec(MeaningOf(OutputOf(d).stmt), Schema(NameSet(d.cols), key), rows), Replay.Exec(op, m))
  {
    var r := op.row;
    var w :| KeyIs(d.cols, key, d.oldRow, w) && op.key == KeyOf(key, w);
    KeyedRow(d.cols, key, d.oldRow);
    Lookup(d.cols, key, m, rows, d.oldRow, w);
    if op.key in m {
      var j := FindRow(key, m, rows, op.key);
      AnyBefore(d.cols, d.newRow, map[], rows[j], r);
      KeyChangedUpdate(d, rows, j, r);
      ReplacingAgrees(d.cols, key, m, rows, j, r);
    } else {
      MissingKey(d, rows);
    }
  }

  lemma {:induction false} DeleteIsOp(d: Decoded, key: seq<string>, op: Operation, m: map<Key, TableRow>, rows: seq<TableRow>)
    requires op.Delete? && Says(d, key, op) && Holds(d.cols, key, m, rows)
    ensures OutputOf(d).Statement?
    ensures Agrees(d.cols, key, Exec(MeaningOf(OutputOf(d).stmt), Schema(NameSet(d.cols), key), rows), Replay.Exec(op, m))
  {
    var w :| KeyIs(d.cols, key, d.oldRow, w) && op.key == KeyOf(key, w);
    KeyedRow(d.cols, key, d.oldRow);
    Lookup(d.cols, key, m, rows, d.oldRow, w);
    if op.key in m {
      var j := FindRow(key, m, rows, op.key);
      KeyedDelete(d, rows, j);
      RemovedRow(key, m, rows, j);
      RemovedUnique(key, rows, j);
    } else {
      MissingKey(d, rows);
      RemoveAbsent(m, op.key);
    }
  }

  /** On any table, not only on a copy of the source's: the statement of a change is its operation. */
  lemma {:induction false} StatementIsOp(d: Decoded, key: seq<string>, op: Operation, m: map<Key, TableRow>, rows: seq<TableRow>)
    requires Says(d, key, op) && Holds(d.cols, key, m, rows)
    ensures OutputOf(d).Statement?
    ensures Agrees(d.cols, key, Exec(MeaningOf(OutputOf(d).stmt), Schema(NameSet(d.cols), key), rows), Replay.Exec(op, m))
  {
    match op
    case Insert(_, _) => InsertIsOp(d, key, op, m, rows);
    case Update(_, _) => UpdateIsOp(d, key, op, m, rows);
    case Rekey(_, _, _) => RekeyIsOp(d, key, op, m, rows);
    case Delete(_) => DeleteIsOp(d, key, op, m, rows);
  }
}
