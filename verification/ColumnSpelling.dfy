/** Column names are sent in the spelling of PostgreSQL's quote_identifier, the names of the identity's columns as
    they are.  A spelling denotes its column; a column of the identity is found exactly when it needs no quotes. */
module ColumnSpelling {
  import opened OptionType
  import opened CStrings
  import opened SqlText
  import opened Wire
  import opened SqlGen
  import opened SqlMeaning
  import opened ChangeMeaning
  import opened EndToEnd

  // ---- Spelling ----------------------------------------------------------------------------------------------

  predicate SmallLetter(c: char) { 'a' <= c <= 'z' || c == '_' }

  predicate SmallWord(s: string) { s != "" && SmallLetter(s[0]) && forall i | 0 <= i < |s| :: SmallLetter(s[i]) || '0' <= s[i] <= '9' }

  /** The key words of PostgreSQL that can name a column but no function or type; they are quoted all the same. */
  predicate ColumnWord(w: string) {
    w in {"between", "bigint", "bit", "boolean", "char", "character", "coalesce", "dec", "decimal", "exists", "extract",
          "float", "greatest", "inout", "int", "integer", "interval", "least", "national", "nchar", "none", "nullif",
          "numeric", "out", "overlay", "position", "precision", "real", "row", "setof", "smallint", "substring", "time",
          "timestamp", "treat", "trim", "values", "varchar", "xmlattributes", "xmlconcat", "xmlelement", "xmlexists",
          "xmlforest", "xmlparse", "xmlpi", "xmlroot", "xmlserialize"}
  }

  predicate Safe(s: string) { SmallWord(s) && !KeptWord(s) && !ColumnWord(s) }

  function QuotesDoubled(s: string): string {
    if s == "" then "" else (if s[0] == '"' then ['"', '"'] else [s[0]]) + QuotesDoubled(s[1..])
  }

  function QuoteIdentifier(s: string): string {
    if Safe(s) then s else ['"'] + QuotesDoubled(s) + ['"']
  }

  lemma {:induction false} SmallWordIs(s: string)
    requires SmallWord(s)
    ensures PlainName(s)
  {
    SmallSkipped(s[1..]);
    assert Lowered(s) == s;
  }

  lemma {:induction false} SmallSkipped(s: string)
    requires forall i | 0 <= i < |s| :: SmallLetter(s[i]) || '0' <= s[i] <= '9'
    ensures SkipWord(s) == ""
  {
    if s != "" {
      SmallSkipped(s[1..]);
    }
  }

  lemma {:induction false} DoubledBack(s: string)
    ensures SkipDelimited(QuotesDoubled(s) + ['"']) == Some("")
    ensures Undoubled(QuotesDoubled(s)) == s
  {
    if s != "" {
      DoubledBack(s[1..]);
      var t := QuotesDoubled(s[1..]);
      if s[0] == '"' {
        assert (['"', '"'] + t + ['"'])[2..] == t + ['"'] && (['"', '"'] + t)[2..] == t;
      } else {
        assert ([s[0]] + t + ['"'])[1..] == t + ['"'] && ([s[0]] + t)[1..] == t;
      }
    }
  }

  /** What quote_identifier writes is one name, and it denotes what was given. */
  lemma {:induction false} SpellingDenotes(s: string)
    ensures Spelling(QuoteIdentifier(s)) && Denoted(QuoteIdentifier(s)) == s
  {
    if Safe(s) {
      SmallWordIs(s);
    } else {
      var t := QuotesDoubled(s);
      var q := ['"'] + t + ['"'];
      DoubledBack(s);
      assert q[1..] == t + ['"'] && q[1..|q| - 1] == t;
      QuotedIsNoWord(q);
    }
  }

  lemma {:induction false} QuotedIsNoWord(q: string)
    requires q != "" && q[0] == '"'
    ensures !Reserved(q) && !Safe(q)
  {
    assert Lowered(q)[0] == '"';
  }

  // ---- The identity ------------------------------------------------------------------------------------------

  /** The columns as they are sent; dropped ones have no name. */
  predicate Sent(names: seq<Option<string>>, cols: seq<Column>) {
    && |names| == |cols|
    && forall i | 0 <= i < |cols| ::
      (cols[i].Live? <==> names[i].Some?) && (cols[i].Live? ==> cols[i].name == QuoteIdentifier(names[i].value))
  }

  /** The identifying columns of a statement are those of the identity. */
  predicate IdentityFound(names: seq<Option<string>>, cols: seq<Column>, keys: seq<string>)
    requires |names| == |cols|
  {
    forall i | 0 <= i < |cols| :: Identifies(cols[i], keys) <==> names[i].Some? && names[i].value in keys
  }

  lemma {:induction false} QuotedGrows(s: string)
    requires QuoteIdentifier(s) != s
    ensures |QuoteIdentifier(s)| > |s| && QuoteIdentifier(QuoteIdentifier(s)) != QuoteIdentifier(s)
  {
    QuotedIsNoWord(QuoteIdentifier(s));
    DoubledGrows(s);
    DoubledGrows(QuoteIdentifier(s));
  }

  lemma {:induction false} DoubledGrows(s: string)
    ensures |QuotesDoubled(s)| >= |s|
  {
    if s != "" {
      DoubledGrows(s[1..]);
    }
  }

  function Longest(keys: seq<string>): (n: nat)
    ensures forall k | k in keys :: |k| <= n
  {
    if keys == [] then 0
    else
      assert forall k | k in keys :: k == keys[0] || k in keys[1..];
      var n := Longest(keys[1..]);
      if |keys[0]| > n then |keys[0]| else n
  }

  /** A name that needs quotes would need its spelling among the names, and that one needs quotes too. */
  lemma {:induction false} NoneGrows(keys: seq<string>, k: string)
    requires k in keys && forall x | x in keys :: QuoteIdentifier(x) in keys
    ensures QuoteIdentifier(k) == k
    decreases Longest(keys) - |k|
  {
    if QuoteIdentifier(k) != k {
      QuotedGrows(k);
      NoneGrows(keys, QuoteIdentifier(k));
    }
  }

  /** Exactly when UPDATE and DELETE find their row by the columns of the identity: when none of these needs quotes. */
  lemma {:induction false} IdentityFoundIff(names: seq<Option<string>>, cols: seq<Column>, keys: seq<string>)
    requires Sent(names, cols) && keys != [] && forall k | k in keys :: Some(k) in names
    ensures IdentityFound(names, cols, keys) <==> forall k | k in keys :: QuoteIdentifier(k) == k
  {
    if IdentityFound(names, cols, keys) {
      forall x | x in keys ensures QuoteIdentifier(x) in keys {
        var i :| 0 <= i < |names| && names[i] == Some(x);
        assert Identifies(cols[i], keys);
      }
      forall k | k in keys ensures QuoteIdentifier(k) == k {
        NoneGrows(keys, k);
      }
    }
    if forall k | k in keys :: QuoteIdentifier(k) == k {
      forall i | 0 <= i < |cols| ensures Identifies(cols[i], keys) <==> names[i].Some? && names[i].value in keys {
        if cols[i].Live? && QuoteIdentifier(names[i].value) != names[i].value {
          QuotedGrows(names[i].value);
        }
      }
    }
  }

  // ---- What a DELETE does then ---------------------------------------------------------------------------------

  function Spelled(keys: seq<string>): (r: seq<string>)
    ensures |r| == |keys| && forall i | 0 <= i < |keys| :: r[i] == QuoteIdentifier(keys[i])
  {
    seq(|keys|, i requires 0 <= i < |keys| => QuoteIdentifier(keys[i]))
  }

  /** A DELETE as it arrives. */
  function DeleteD(cols: seq<Column>, keys: seq<string>, row: seq<Cell>): Decoded {
    ChangeD('D', "", "", cols, keys, true, row, [])
  }

  /** The text is a statement by which the row with the key of the tuple, and no other, goes. */
  predicate DeletesOne(cols: seq<Column>, keys: seq<string>, row: seq<Cell>, rows: seq<TableRow>, j: nat)
    requires |row| == |cols| > 0 && j < |rows|
  {
    var d := DeleteD(cols, keys, row);
    && Expressible(d)
    && Exec(MeaningOf(OutputOf(d).stmt), Schema(NameSet(cols), Spelled(keys)), rows) == Done(rows[..j] + rows[j + 1..])
  }

  /** On every table with that key every DELETE takes out its row. */
  ghost predicate DeletesWell(cols: seq<Column>, keys: seq<string>) {
    forall row, rows, j: nat |
      |row| == |cols| > 0 && TableOf(cols, rows) && KeyUnique(Spelled(keys), rows) && j < |rows|
      && HasKey(cols, Spelled(keys), row) && KeyIs(cols, Spelled(keys), row, rows[j]) ::
      DeletesOne(cols, keys, row, rows, j)
  }

  lemma {:induction false} AllGo(wheres: seq<Binding>, rows: seq<TableRow>)
    requires forall r | r in rows :: Condition(wheres, r) == True
    ensures Remaining(wheres, rows) == []
  {
    if rows != [] {
      assert rows == [rows[0]] + rows[1..];
      AllGo(wheres, rows[1..]);
    }
  }

  function Texts(n: nat): (r: seq<Cell>)
    ensures |r| == n && forall i | 0 <= i < n :: r[i] == Text("x")
  {
    seq(n, i => Text("x"))
  }

  function AllX(cols: seq<Column>): (r: TableRow)
    ensures r.Keys == NameSet(cols) && forall n | n in r :: r[n] == Some("x")
  {
    map n | n in NameSet(cols) :: Some("x")
  }

  /** A column of the identity under its spelling. */
  lemma {:induction false} SpelledIn(names: seq<Option<string>>, cols: seq<Column>, keys: seq<string>)
    requires Sent(names, cols) && forall x | x in keys :: Some(x) in names
    ensures forall x | x in Spelled(keys) :: x in NameSet(cols)
  {
    hide QuoteIdentifier;
    forall x | x in Spelled(keys) ensures x in NameSet(cols) {
      var n :| 0 <= n < |keys| && Spelled(keys)[n] == x;
      assert Some(keys[n]) in names;
      var i :| 0 <= i < |names| && names[i] == Some(keys[n]);
      assert cols[i].name in NameSet(cols);
    }
  }

  /** Another row that differs in the column `q` alone. */
  function AllXBut(cols: seq<Column>, q: string): TableRow { AllX(cols)[q := Some("y")] }

  lemma {:induction false} HoldX(cols: seq<Column>, key: seq<string>, r: TableRow, q: string)
    requires r == AllX(cols) || (r == AllXBut(cols, q) && q !in key && key != [])
    ensures KeyIs(cols, key, Texts(|cols|), r)
  {
    forall i | 0 <= i < |cols| && Identifies(cols[i], key) ensures CellHolds(cols[i], Texts(|cols|)[i], r) {
      assert cols[i].name in NameSet(cols);
    }
  }

  lemma {:induction false} RowsDiffer(cols: seq<Column>, key: seq<string>, q: string)
    requires q in key && q in NameSet(cols)
    ensures KeyUnique(key, [AllX(cols), AllXBut(cols, q)]) && TableOf(cols, [AllX(cols), AllXBut(cols, q)])
  {
    assert Field(AllX(cols), q) != Field(AllXBut(cols, q), q);
  }

  /** Two rows that differ in a column of the identity which the text does not name: both go. */
  lemma {:induction false} BothGo(cols: seq<Column>, keys: seq<string>, q: string)
    requires q !in keys && keys != [] && |cols| > 0
    ensures !DeletesOne(cols, keys, Texts(|cols|), [AllX(cols), AllXBut(cols, q)], 0)
  {
    hide AllX;
    hide AllXBut;
    hide TableOf;
    var row, rows := Texts(|cols|), [AllX(cols), AllXBut(cols, q)];
    HoldX(cols, keys, rows[0], q);
    HoldX(cols, keys, rows[1], q);
    SelectsKey(cols, keys, row, rows[0]);
    SelectsKey(cols, keys, row, rows[1]);
    AllGo(Bindings(WheresOf(cols, keys, row)), rows);
    assert |rows[..0] + rows[1..]| == 1;
  }

  lemma {:induction false} NotFoundFails(names: seq<Option<string>>, cols: seq<Column>, keys: seq<string>, k: string)
    requires Sent(names, cols) && k in keys && QuoteIdentifier(k) !in keys && forall x | x in keys :: Some(x) in names
    ensures !DeletesWell(cols, keys)
  {
    hide DeletesOne;
    hide QuoteIdentifier;
    hide KeyUnique;
    hide TableOf;
    hide KeyIs;
    hide AllX;
    hide AllXBut;
    var q := QuoteIdentifier(k);
    SpelledIn(names, cols, keys);
    assert Some(k) in names;
    var n :| 0 <= n < |keys| && keys[n] == k;
    assert Spelled(keys)[n] in Spelled(keys);
    HoldX(cols, Spelled(keys), AllX(cols), q);
    RowsDiffer(cols, Spelled(keys), q);
    BothGo(cols, keys, q);
  }

  lemma {:induction false} FoundDeletes(cols: seq<Column>, keys: seq<string>)
    requires Distinct(cols) && Spelled(keys) == keys
    ensures DeletesWell(cols, keys)
  {
    forall row, rows, j: nat |
      |row| == |cols| > 0 && TableOf(cols, rows) && KeyUnique(keys, rows) && j < |rows|
      && HasKey(cols, keys, row) && KeyIs(cols, keys, row, rows[j])
      ensures DeletesOne(cols, keys, row, rows, j)
    {
      KeyedDelete(DeleteD(cols, keys, row), rows, j);
      KeyPicks(cols, keys, row);
    }
  }

  /** Exactly when every DELETE of a relation with that identity does what it should on every table: when no name in
      the identity needs quotes. */
  lemma {:induction false} DeletesWellIff(names: seq<Option<string>>, cols: seq<Column>, keys: seq<string>)
    requires Sent(names, cols) && Distinct(cols) && keys != [] && forall k | k in keys :: Some(k) in names
    ensures DeletesWell(cols, keys) <==> forall k | k in keys :: QuoteIdentifier(k) == k
  {
    hide DeletesWell;
    hide QuoteIdentifier;
    if forall k | k in keys :: QuoteIdentifier(k) == k {
      assert Spelled(keys) == keys;
      FoundDeletes(cols, keys);
    } else if forall x | x in keys :: QuoteIdentifier(x) in keys {
      var k :| k in keys && QuoteIdentifier(k) != k;
      NoneGrows(keys, k);
    } else {
      var k :| k in keys && QuoteIdentifier(k) !in keys;
      NotFoundFails(names, cols, keys, k);
    }
  }
}
