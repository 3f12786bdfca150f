/** Reading printed statements back. */
module SqlRoundTrip {
  import opened OptionType
  import opened CStrings
  import opened Literals
  import opened SqlText

  // ---- Tokens ------------------------------------------------------------------------------------------------

  /** One identifier, plain or delimited, as the output plugin spells it. */
  predicate Identifier(s: string) { Label(s) && !Reserved(s) }

  predicate Label(s: string) { SkipName(s) == Some("") }

  predicate EndsName(rest: string) { rest == "" || !(WordChar(rest[0]) || rest[0] == '"') }

  lemma {:induction false} SkipWordAppend(s: string, rest: string)
    requires EndsName(rest) && SkipWord(s) == ""
    ensures SkipWord(s + rest) == rest
  {
    if s == "" {
      assert s + rest == rest;
    } else {
      assert (s + rest)[1..] == s[1..] + rest;
      SkipWordAppend(s[1..], rest);
    }
  }

  lemma {:induction false} SkipDelimitedAppend(s: string, rest: string)
    requires EndsName(rest) && SkipDelimited(s) == Some("")
    ensures SkipDelimited(s + rest) == Some(rest)
  {
    if s[0] != '"' {
      assert (s + rest)[1..] == s[1..] + rest;
      SkipDelimitedAppend(s[1..], rest);
    } else if |s| > 1 && s[1] == '"' {
      assert (s + rest)[2..] == s[2..] + rest;
      SkipDelimitedAppend(s[2..], rest);
    } else {
      assert (s + rest)[1..] == s[1..] + rest;
      assert s[1..] + rest == rest;
    }
  }

  lemma {:induction false} SkipNameAppend(s: string, rest: string)
    requires EndsName(rest) && SkipName(s) == Some("")
    ensures SkipName(s + rest) == Some(rest)
  {
    assert (s + rest)[1..] == s[1..] + rest;
    if WordStart(s[0]) {
      SkipWordAppend(s[1..], rest);
    } else {
      SkipDelimitedAppend(s[1..], rest);
    }
  }

  lemma {:induction false} NameBack(s: string, rest: string)
    requires EndsName(rest) && Identifier(s)
    ensures ParseName(s + rest) == Some((s, rest))
    ensures SkipSpaces(s + rest) == s + rest
  {
    SkipNameAppend(s, rest);
    assert (s + rest)[..|s|] == s;
  }

  lemma {:induction false} LabelBack(s: string, rest: string)
    requires EndsName(rest) && Label(s)
    ensures ParseLabel(s + rest) == Some((s, rest))
    ensures SkipSpaces(s + rest) == s + rest
  {
    SkipNameAppend(s, rest);
    assert (s + rest)[..|s|] == s;
  }

  lemma {:induction false} KeywordBack(w: string, v: string, rest: string)
    requires EndsName(rest) && Label(v) && Lowered(v) == w
    ensures Keyword(w, v + rest) == Some(rest)
    ensures Keyword(w, " " + v + rest) == Some(rest)
  {
    SkipNameAppend(v, rest);
    assert (v + rest)[..|v|] == v;
    assert (" " + v + rest)[1..] == v + rest;
  }

  lemma {:induction false} OtherKeyword(w: string, v: string, rest: string)
    requires EndsName(rest) && Label(v) && Lowered(v) != w
    ensures Keyword(w, v + rest) == None
    ensures Keyword(w, " " + v + rest) == None
  {
    SkipNameAppend(v, rest);
    assert (v + rest)[..|v|] == v;
    assert (" " + v + rest)[1..] == v + rest;
  }

  lemma {:induction false} WhereWord(rest: string)
    requires EndsName(rest)
    ensures Keyword("where", " " + "WHERE" + rest) == Some(rest)
    ensures ParseName("WHERE" + rest) == None
  {
    KeywordBack("where", "WHERE", rest);
    assert Lowered("WHERE") == "where";
    SkipNameAppend("WHERE", rest);
    assert ("WHERE" + rest)[..5] == "WHERE";
  }

  /** What can follow a value or a name in a list. */
  predicate Follows(r: string) { r != "" && (r[0] == ' ' || r[0] == ',' || r[0] == ')' || r[0] == ';') }

  /** The value can be put in a statement: a number is a numeral, a date holds no quote. */
  predicate Printable(l: Lit) {
    l.Typed? ==>
      match StyleOf(l.typ)
      case Bare => Numeral(l.v)
      case Between => QUOTE !in l.v
      case Escaped => true
  }

  lemma {:induction false} NullBack(rest: string)
    requires Follows(rest)
    ensures ParseValue("null" + rest) == Some((None, rest))
  {
    KeywordBack("null", "null", rest);
  }

  lemma {:induction false} NumeralStart(v: string, rest: string)
    requires Numeral(v)
    ensures v != "" && (v[0] == '-' || Digit(v[0]))
    ensures LexConstant(v + rest) == None
  {
  }

  lemma {:induction false} ValueBack(l: Lit, rest: string)
    requires Printable(l) && Follows(rest)
    ensures ParseValue(LitText(l) + rest) == Some((LitValue(l), rest))
  {
    if l.NullLit? {
      NullBack(rest);
    } else {
      match StyleOf(l.typ)
      case Bare =>
        NumeralStart(l.v, rest);
        NumberLexesBack(l.v, rest);
      case Between => BareLexesBack(l.v, rest);
      case Escaped => QuotedLexesBack(l.v, rest);
    }
  }

  lemma {:induction false} BareBack(v: string, rest: string)
    requires Follows(rest) && ParseValue(v + rest) == Some((Some(v), rest))
    ensures Numeral(v)
  {
    hide Keyword;
    NumberLexesBack(v, rest);
    var s := v + rest;
    if s[0] == QUOTE && LexString(false, s[1..]).Some? {
      LexStringLength(false, s[1..]);
    } else if |s| > 1 && LexString(true, s[2..]).Some? {
      LexStringLength(true, s[2..]);
    }
  }

  /** Exactly the printable values read back as the values they are. */
  lemma {:induction false} ValueBackIff(l: Lit, rest: string)
    requires Follows(rest)
    ensures ParseValue(LitText(l) + rest) == Some((LitValue(l), rest)) <==> Printable(l)
  {
    if Printable(l) {
      ValueBack(l, rest);
    } else if StyleOf(l.typ) == Bare {
      if ParseValue(LitText(l) + rest) == Some((LitValue(l), rest)) {
        BareBack(l.v, rest);
      }
    } else {
      BareLexesBack(l.v, rest);
      assert ([QUOTE] + l.v + [QUOTE] + rest)[0] == QUOTE;
    }
  }

  // ---- Which types print how ---------------------------------------------------------------------------------

  /** A value of a number type is printed as it is; integers read back, and what is no number does not. */
  lemma {:induction false} NumberTypes(typ: string, v: string, rest: string)
    requires typ in {"smallint", "integer", "bigint", "oid", "real", "double precision", "numeric"}
    requires Follows(rest)
    ensures LitText(Typed(typ, v)) == v
    ensures (v != "" && forall i | 0 <= i < |v| :: '0' <= v[i] <= '9') ==>
      ParseValue(LitText(Typed(typ, v)) + rest) == Some((Some(v), rest)) &&
      ParseValue(LitText(Typed(typ, "-" + v)) + rest) == Some((Some("-" + v), rest))
    ensures v in {"NaN", "Infinity", "-Infinity"} ==>
      ParseValue(LitText(Typed(typ, v)) + rest) != Some((Some(v), rest))
  {
    hide ParseValue;
    hide Numeral;
    ValueBackIff(Typed(typ, v), rest);
    ValueBackIff(Typed(typ, "-" + v), rest);
    IntegersAre("0");
    if v != "" && forall i | 0 <= i < |v| :: '0' <= v[i] <= '9' {
      IntegersAre(v);
    }
  }

  /** A value of a date type or of money reads back exactly when it holds no quote. */
  lemma {:induction false} DateTypes(typ: string, v: string, rest: string)
    requires typ in {"timestamp without time zone", "timestamp with time zone", "time without time zone",
                     "time with time zone", "money", "date", "interval"}
    requires Follows(rest)
    ensures LitText(Typed(typ, v)) == "'" + v + "'"
    ensures ParseValue(LitText(Typed(typ, v)) + rest) == Some((Some(v), rest)) <==> '\'' !in v
  {
    ValueBackIff(Typed(typ, v), rest);
    assert [QUOTE] + v + [QUOTE] == "'" + v + "'";
  }

  /** A value of any other type reads back, whatever it holds. */
  lemma {:induction false} OtherTypes(typ: string, v: string, rest: string)
    requires typ !in {"smallint", "integer", "bigint", "oid", "real", "double precision", "numeric"}
    requires typ !in {"timestamp without time zone", "timestamp with time zone", "time without time zone",
                      "time with time zone", "money", "date", "interval"}
    requires Follows(rest)
    ensures ParseValue(LitText(Typed(typ, v)) + rest) == Some((Some(v), rest))
  {
    ValueBackIff(Typed(typ, v), rest);
  }

  predicate GoodItem(x: Item) { Identifier(x.col) && Printable(x.lit) }

  lemma {:induction false} ItemBack(x: Item, rest: string)
    requires GoodItem(x) && Follows(rest)
    ensures ParseBinding(ItemText(x) + rest) == Some((Meant(x), rest))
    ensures SkipSpaces(ItemText(x) + rest) == ItemText(x) + rest
  {
    hide LitText;
    hide ParseValue;
    var value := LitText(x.lit) + rest;
    assert ItemText(x) + rest == x.col + ("=" + value);
    NameBack(x.col, "=" + value);
    assert ("=" + value)[1..] == value;
    ValueBack(x.lit, rest);
  }

  // ---- Lists -------------------------------------------------------------------------------------------------

  /** The pieces read back one by one whatever follows, and a separator in front of one is recognised. */
  ghost predicate PiecesBack<T>(one: string -> Parsed<T>, sep: string -> Option<string>, pieces: seq<string>,
                                values: seq<T>, sepText: string)
  {
    && |pieces| == |values|
    && (forall k, r | 0 <= k < |pieces| && Follows(r) :: one(pieces[k] + r) == Some((values[k], r)))
    && (forall k, r | 0 <= k < |pieces| && Follows(r) :: sep(sepText + (pieces[k] + r)) == Some(pieces[k] + r))
  }

  lemma {:induction false} HeadOf(pieces: seq<string>, sep: string, rest: string)
    requires pieces != []
    ensures Joined(pieces, sep) + rest == pieces[0] + if |pieces| == 1 then rest else sep + (Joined(pieces[1..], sep) + rest)
  {
    if |pieces| > 1 {
      var tail := Joined(pieces[1..], sep);
      assert pieces[0] + sep + tail + rest == pieces[0] + (sep + (tail + rest));
    }
  }

  lemma {:induction false} ListStep<T>(one: string -> Parsed<T>, sep: string -> Option<string>, s: string, s1: string, s2: string,
                                       rest: string, values: seq<T>)
    requires values != [] && one(s) == Some((values[0], s1)) && sep(s1) == Some(s2) && |s2| < |s|
    requires ParseList(one, sep, s2) == Some((values[1..], rest))
    ensures ParseList(one, sep, s) == Some((values, rest))
  {
    assert values == [values[0]] + values[1..];
  }

  lemma {:induction false} ListBack<T>(one: string -> Parsed<T>, sep: string -> Option<string>, pieces: seq<string>,
                                       values: seq<T>, sepText: string, rest: string)
    requires PiecesBack(one, sep, pieces, values, sepText) && pieces != []
    requires Follows(sepText) && Follows(rest) && sep(rest) == None
    ensures ParseList(one, sep, Joined(pieces, sepText) + rest) == Some((values, rest))
    decreases |pieces|
  {
    HeadOf(pieces, sepText, rest);
    if |pieces| == 1 {
      assert values == [values[0]];
    } else {
      hide ParseList;
      var tail := Joined(pieces[1..], sepText) + rest;
      var follow := sepText + tail;
      assert Follows(follow);
      ListBack(one, sep, pieces[1..], values[1..], sepText, rest);
      HeadOf(pieces[1..], sepText, rest);
      var after := if |pieces| == 2 then rest else sepText + (Joined(pieces[1..][1..], sepText) + rest);
      assert tail == pieces[1] + after && Follows(after);
      ListStep(one, sep, pieces[0] + follow, follow, tail, rest, values);
    }
  }

  // ---- Parts of statements -----------------------------------------------------------------------------------

  predicate Starts(tail: string) { tail != "" && tail[0] != ' ' }

  lemma {:induction false} OneSpace(tail: string)
    requires Starts(tail)
    ensures SkipSpaces(tail) == tail && SkipSpaces(" " + tail) == tail
  {
    assert (" " + tail)[1..] == tail;
  }

  lemma {:induction false} CommaBack(sepText: string, tail: string)
    requires sepText == "," || sepText == ", " || sepText == " , "
    requires Starts(tail)
    ensures Comma(sepText + tail) == Some(tail)
  {
    OneSpace(tail);
    var gap := if sepText == "," then tail else " " + tail;
    var comma := "," + gap;
    OneSpace(comma);
    assert comma[1..] == gap;
    assert sepText + tail == if sepText == " , " then " " + comma else comma;
  }

  lemma {:induction false} AndBack(tail: string)
    requires Starts(tail)
    ensures And(" AND " + tail) == Some(tail)
  {
    assert " AND " + tail == " " + "AND" + (" " + tail);
    KeywordBack("and", "AND", " " + tail);
    OneSpace(tail);
  }

  predicate GoodItems(items: seq<Item>) { forall k | 0 <= k < |items| :: GoodItem(items[k]) }

  lemma {:induction false} ItemStart(x: Item, r: string)
    requires GoodItem(x)
    ensures Starts(ItemText(x) + r)
  {
  }

  lemma {:induction false} SetsBack(items: seq<Item>, rest: string)
    requires GoodItems(items) && items != [] && Follows(rest) && Comma(rest) == None
    ensures ParseList(ParseBinding, Comma, Joined(ItemTexts(items), " , ") + rest) == Some((Bindings(items), rest))
  {
    var pieces := ItemTexts(items);
    forall k, r | 0 <= k < |pieces| && Follows(r)
      ensures ParseBinding(pieces[k] + r) == Some((Bindings(items)[k], r))
      ensures Comma(" , " + (pieces[k] + r)) == Some(pieces[k] + r)
    {
      ItemBack(items[k], r);
      ItemStart(items[k], r);
      CommaBack(" , ", pieces[k] + r);
    }
    ListBack(ParseBinding, Comma, pieces, Bindings(items), " , ", rest);
  }

  lemma {:induction false} ConditionsBack(items: seq<Item>, rest: string)
    requires GoodItems(items) && items != [] && Follows(rest) && And(rest) == None
    ensures ParseList(ParseBinding, And, Joined(ItemTexts(items), " AND ") + rest) == Some((Bindings(items), rest))
  {
    var pieces := ItemTexts(items);
    forall k, r | 0 <= k < |pieces| && Follows(r)
      ensures ParseBinding(pieces[k] + r) == Some((Bindings(items)[k], r))
      ensures And(" AND " + (pieces[k] + r)) == Some(pieces[k] + r)
    {
      ItemBack(items[k], r);
      ItemStart(items[k], r);
      AndBack(pieces[k] + r);
    }
    ListBack(ParseBinding, And, pieces, Bindings(items), " AND ", rest);
  }

  predicate GoodNames(names: seq<string>) { forall k | 0 <= k < |names| :: Identifier(names[k]) }

  predicate GoodLits(lits: seq<Lit>) { forall k | 0 <= k < |lits| :: Printable(lits[k]) }

  lemma {:induction false} NamesBack(names: seq<string>, rest: string)
    requires GoodNames(names) && names != [] && Follows(rest) && Comma(rest) == None
    ensures ParseList(ParseName, Comma, Joined(names, ",") + rest) == Some((names, rest))
  {
    forall k, r | 0 <= k < |names| && Follows(r)
      ensures ParseName(names[k] + r) == Some((names[k], r))
      ensures Comma("," + (names[k] + r)) == Some(names[k] + r)
    {
      NameBack(names[k], r);
      CommaBack(",", names[k] + r);
    }
    ListBack(ParseName, Comma, names, names, ",", rest);
  }

  lemma {:induction false} ValueStart(l: Lit, r: string)
    requires Printable(l)
    ensures Starts(LitText(l) + r)
  {
    if l.Typed? && StyleOf(l.typ) == Bare {
      NumeralStart(l.v, r);
    }
  }

  lemma {:induction false} ValuesBack(lits: seq<Lit>, rest: string)
    requires GoodLits(lits) && lits != [] && Follows(rest) && Comma(rest) == None
    ensures ParseList(ParseValue, Comma, Joined(LitTexts(lits), ", ") + rest) == Some((Values(lits), rest))
  {
    var pieces := LitTexts(lits);
    forall k, r | 0 <= k < |pieces| && Follows(r)
      ensures ParseValue(pieces[k] + r) == Some((Values(lits)[k], r))
      ensures Comma(", " + (pieces[k] + r)) == Some(pieces[k] + r)
    {
      ValueBack(lits[k], r);
      ValueStart(lits[k], r);
      CommaBack(", ", pieces[k] + r);
    }
    ListBack(ParseValue, Comma, pieces, Values(lits), ", ", rest);
  }

  lemma {:induction false} TableParts(schema: string, rel: string, rest: string)
    ensures " " + schema + "." + rel + rest == " " + (schema + ("." + (rel + rest)))
  {
  }

  lemma {:induction false} TableBack(schema: string, rel: string, rest: string)
    requires Identifier(schema) && Label(rel) && EndsName(rest)
    ensures ParseTable(" " + schema + "." + rel + rest) == Some(((schema, rel), rest))
  {
    hide ParseName;
    hide ParseLabel;
    hide SkipSpaces;
    var s2 := rel + rest;
    var s1 := "." + s2;
    var s0 := schema + s1;
    TableParts(schema, rel, rest);
    NameBack(schema, s1);
    OneSpace(s0);
    assert s1[1..] == s2;
    OneSpace(s1);
    LabelBack(rel, rest);
  }

  lemma {:induction false} JoinedStarts(pieces: seq<string>, sep: string, rest: string)
    requires pieces != [] && Starts(pieces[0] + "")
    ensures Starts(Joined(pieces, sep) + rest)
  {
    assert pieces[0] + "" == pieces[0];
    HeadOf(pieces, sep, rest);
  }

  lemma {:induction false} WhereParts(list: string)
    ensures " " + ("WHERE " + list + ";") == " " + "WHERE" + (" " + (list + ";"))
  {
  }

  lemma {:induction false} WhereBack(wheres: seq<Item>)
    requires GoodItems(wheres) && wheres != []
    ensures ParseWhere(" " + WhereText(wheres)) == Some(Bindings(wheres))
  {
    hide ParseList;
    var list := Joined(ItemTexts(wheres), " AND ") + ";";
    WhereParts(Joined(ItemTexts(wheres), " AND "));
    WhereWord(" " + list);
    ItemStart(wheres[0], "");
    JoinedStarts(ItemTexts(wheres), " AND ", ";");
    OneSpace(list);
    ConditionsBack(wheres, ";");
  }

  // ---- What does not parse -----------------------------------------------------------------------------------

  /** A separator with nothing readable behind it. */
  lemma {:induction false} DanglingList<T>(one: string -> Parsed<T>, sep: string -> Option<string>, pieces: seq<string>,
                                           values: seq<T>, sepText: string, rest: string)
    requires PiecesBack(one, sep, pieces, values, sepText) && pieces != []
    requires Follows(sepText) && sep(sepText + rest) == Some(rest) && one(rest) == None
    ensures ParseList(one, sep, Joined(pieces, sepText) + (sepText + rest)) == None
    decreases |pieces|
  {
    var end := sepText + rest;
    HeadOf(pieces, sepText, end);
    assert Follows(end);
    if |pieces| > 1 {
      var tail := Joined(pieces[1..], sepText) + end;
      var follow := sepText + tail;
      assert Follows(follow);
      assert PiecesBack(one, sep, pieces[1..], values[1..], sepText);
      DanglingList(one, sep, pieces[1..], values[1..], sepText, rest);
      assert one(pieces[0] + follow) == Some((values[0], follow));
      HeadOf(pieces[1..], sepText, end);
      var after := if |pieces| == 2 then end else sepText + (Joined(pieces[2..], sepText) + end);
      assert pieces[1..][1..] == pieces[2..];
      assert tail == pieces[1] + after && Follows(after);
      assert sep(sepText + (pieces[1] + after)) == Some(pieces[1] + after);
    }
  }

  lemma {:induction false} DanglingNames(names: seq<string>, rest: string)
    requires GoodNames(names) && names != [] && Starts(rest) && ParseName(rest) == None
    ensures ParseList(ParseName, Comma, Joined(names, ",") + ("," + rest)) == None
  {
    forall k, r | 0 <= k < |names| && Follows(r)
      ensures ParseName(names[k] + r) == Some((names[k], r))
      ensures Comma("," + (names[k] + r)) == Some(names[k] + r)
    {
      NameBack(names[k], r);
      CommaBack(",", names[k] + r);
    }
    CommaBack(",", rest);
    DanglingList(ParseName, Comma, names, names, ",", rest);
  }

  lemma {:induction false} NoConditions()
    ensures ParseWhere(" " + WhereText([])) == None
  {
    assert Joined(ItemTexts([]), " AND ") == "";
    assert " " + WhereText([]) == " " + "WHERE" + (" " + ";");
    WhereWord(" " + ";");
    OneSpace(";");
  }

  lemma {:induction false} NoSets(tail: string)
    requires EndsName(tail)
    ensures ParseList(ParseBinding, Comma, "WHERE" + tail) == None
  {
    hide ParseName;
    WhereWord(tail);
  }

  // ---- Statements --------------------------------------------------------------------------------------------

  predicate GoodStmt(st: Stmt) {
    && Identifier(st.schema) && Label(st.rel)
    && match st
       case InsertS(_, _, cols, _, lits) => GoodNames(cols) && GoodLits(lits) && |cols| == |lits|
       case UpdateS(_, _, sets, wheres) => GoodItems(sets) && GoodItems(wheres)
       case DeleteS(_, _, wheres) => GoodItems(wheres)
  }

  predicate Readable(st: Stmt) {
    match st
    case InsertS(_, _, cols, comma, _) => cols != [] && !comma
    case UpdateS(_, _, sets, wheres) => sets != [] && wheres != []
    case DeleteS(_, _, wheres) => wheres != []
  }

  lemma {:induction false} WhereReads(wheres: seq<Item>)
    requires GoodItems(wheres)
    ensures ParseWhere(" " + WhereText(wheres)) == if wheres != [] then Some(Bindings(wheres)) else None
    ensures EndsName(" " + WhereText(wheres)) && Follows(" " + WhereText(wheres))
    ensures Comma(" " + WhereText(wheres)) == None
  {
    if wheres == [] {
      NoConditions();
    } else {
      WhereBack(wheres);
    }
    OneSpace(WhereText(wheres));
  }

  lemma {:induction false} DeleteSplits(schema: string, rel: string, w: string)
    ensures "DELETE FROM " + schema + "." + rel + " " + w
         == "DELETE" + (" " + "FROM" + (" " + schema + "." + rel + (" " + w)))
  {
  }

  lemma {:induction false} DeleteKeywords(table: string)
    requires EndsName(table)
    ensures ParseQuery("DELETE" + (" " + "FROM" + table)) == ParseDelete(table)
  {
    var from := " " + "FROM" + table;
    OtherKeyword("insert", "DELETE", from);
    OtherKeyword("update", "DELETE", from);
    KeywordBack("delete", "DELETE", from);
    KeywordBack("from", "FROM", table);
  }

  lemma {:induction false} DeleteBack(schema: string, rel: string, wheres: seq<Item>)
    requires GoodStmt(DeleteS(schema, rel, wheres))
    ensures ParseQuery(Render(DeleteS(schema, rel, wheres)))
         == if wheres != [] then Some(DeleteQ(schema, rel, Bindings(wheres))) else None
  {
    var w := WhereText(wheres);
    DeleteSplits(schema, rel, w);
    DeleteKeywords(" " + schema + "." + rel + (" " + w));
    WhereReads(wheres);
    TableBack(schema, rel, " " + w);
  }

  lemma {:induction false} SetSplits(list: string, whereText: string)
    ensures " " + (" SET " + list) + whereText == " " + (" " + "SET" + (" " + (list + whereText)))
  {
  }

  lemma {:induction false} SpacedKeyword(w: string, v: string, rest: string)
    requires EndsName(rest) && Label(v) && Lowered(v) == w
    ensures Keyword(w, " " + (" " + v + rest)) == Some(rest)
  {
    OneSpaceMore(" " + v + rest);
    KeywordBack(w, v, rest);
  }

  lemma {:induction false} SetKeyword(sets: seq<Item>, whereText: string)
    ensures Keyword("set", " " + SetText(sets) + whereText) == Some(" " + (Joined(ItemTexts(sets), " , ") + whereText))
  {
    var list := Joined(ItemTexts(sets), " , ");
    SetSplits(list, whereText);
    SpacedKeyword("set", "SET", " " + (list + whereText));
  }

  lemma {:induction false} EmptySet(wheres: seq<Item>)
    ensures ParseList(ParseBinding, Comma, SkipSpaces(" " + ("" + (" " + WhereText(wheres))))) == None
  {
    var conditions := " " + (Joined(ItemTexts(wheres), " AND ") + ";");
    assert WhereText(wheres) == "WHERE" + conditions;
    var list := " " + WhereText(wheres);
    assert "" + list == list;
    OneSpaceMore(list);
    OneSpace(WhereText(wheres));
    NoSets(conditions);
  }

  lemma {:induction false} SetReads(sets: seq<Item>, wheres: seq<Item>)
    requires GoodItems(sets) && GoodItems(wheres)
    ensures
      var whereText := " " + WhereText(wheres);
      ParseList(ParseBinding, Comma, SkipSpaces(" " + (Joined(ItemTexts(sets), " , ") + whereText)))
      == if sets != [] then Some((Bindings(sets), whereText)) else None
  {
    var whereText := " " + WhereText(wheres);
    if sets == [] {
      EmptySet(wheres);
    } else {
      WhereReads(wheres);
      ItemStart(sets[0], "");
      JoinedStarts(ItemTexts(sets), " , ", whereText);
      OneSpace(Joined(ItemTexts(sets), " , ") + whereText);
      SetsBack(sets, whereText);
    }
  }

  lemma {:induction false} OneSpaceMore(s: string)
    ensures SkipSpaces(" " + s) == SkipSpaces(s)
  {
    assert (" " + s)[1..] == s;
  }

  lemma {:induction false} UpdateSplits(schema: string, rel: string, setText: string, w: string)
    ensures "UPDATE " + schema + "." + rel + " " + setText + " " + w
         == "UPDATE" + (" " + schema + "." + rel + (" " + setText + (" " + w)))
  {
  }

  lemma {:induction false} UpdateKeyword(table: string)
    requires EndsName(table)
    ensures ParseQuery("UPDATE" + table) == ParseUpdate(table)
  {
    OtherKeyword("insert", "UPDATE", table);
    KeywordBack("update", "UPDATE", table);
  }

  lemma {:induction false} UpdateBack(schema: string, rel: string, sets: seq<Item>, wheres: seq<Item>)
    requires GoodStmt(UpdateS(schema, rel, sets, wheres))
    ensures ParseQuery(Render(UpdateS(schema, rel, sets, wheres)))
         == if sets != [] && wheres != [] then Some(UpdateQ(schema, rel, Bindings(sets), Bindings(wheres))) else None
  {
    var w := WhereText(wheres);
    var rest := " " + SetText(sets) + (" " + w);
    UpdateSplits(schema, rel, SetText(sets), w);
    UpdateKeyword(" " + schema + "." + rel + rest);
    TableBack(schema, rel, rest);
    SetKeyword(sets, " " + w);
    SetReads(sets, wheres);
    WhereReads(wheres);
  }

  lemma {:induction false} InsertSplits(schema: string, rel: string, c: string, v: string)
    ensures "INSERT INTO " + schema + "." + rel + " " + c + v
         == "INSERT" + (" " + "INTO" + (" " + schema + "." + rel + (" " + (c + v))))
  {
  }

  lemma {:induction false} InsertKeywords(table: string)
    requires EndsName(table)
    ensures ParseQuery("INSERT" + (" " + "INTO" + table)) == ParseInsert(table)
  {
    var into := " " + "INTO" + table;
    KeywordBack("insert", "INSERT", into);
    KeywordBack("into", "INTO", table);
  }

  lemma {:induction false} GroupBack<T>(one: string -> Parsed<T>, list: string, values: Option<seq<T>>, rest: string)
    requires ParseList(one, Comma, list + (")" + rest)) == if values.Some? then Some((values.value, ")" + rest)) else None
    ensures ParseGroup(one, "(" + (list + (")" + rest))) == if values.Some? then Some((values.value, rest)) else None
    ensures ParseGroup(one, " " + ("(" + (list + (")" + rest)))) == if values.Some? then Some((values.value, rest)) else None
  {
    var inner := list + (")" + rest);
    assert ("(" + inner)[1..] == inner;
    OneSpace("(" + inner);
    assert (")" + rest)[1..] == rest;
    OneSpace(")" + rest);
  }

  /** The column list reads back unless it is empty or ends in a comma. */
  lemma {:induction false} ColumnsBack(cols: seq<string>, comma: bool, rest: string)
    requires GoodNames(cols)
    ensures ParseGroup(ParseName, " " + (ColumnsText(cols, comma) + rest))
         == if cols != [] && !comma then Some((cols, " " + rest)) else None
  {
    var end := ")" + (" " + rest);
    var list := Joined(cols, ",") + if comma then "," else "";
    assert ColumnsText(cols, comma) + rest == "(" + (list + end);
    if cols == [] {
      if comma {
        assert list == ",";
      }
      GroupBack<string>(ParseName, list, None, " " + rest);
    } else if comma {
      assert list + end == Joined(cols, ",") + ("," + end);
      DanglingNames(cols, end);
      GroupBack<string>(ParseName, list, None, " " + rest);
    } else {
      assert list == Joined(cols, ",");
      OneSpace(end);
      NamesBack(cols, end);
      GroupBack(ParseName, list, Some(cols), " " + rest);
    }
  }

  lemma {:induction false} ValuesParts(list: string)
    ensures " " + ("VALUES(" + list + ");") == " " + "VALUES" + ("(" + (list + (")" + ";")))
  {
  }

  lemma {:induction false} ValuesReads(lits: seq<Lit>)
    requires GoodLits(lits) && lits != []
    ensures Keyword("values", " " + ValuesText(lits)) == Some("(" + (Joined(LitTexts(lits), ", ") + (")" + ";")))
    ensures ParseGroup(ParseValue, "(" + (Joined(LitTexts(lits), ", ") + (")" + ";"))) == Some((Values(lits), ";"))
  {
    hide ParseList;
    var end := ")" + ";";
    var group := "(" + (Joined(LitTexts(lits), ", ") + end);
    ValuesParts(Joined(LitTexts(lits), ", "));
    KeywordBack("values", "VALUES", group);
    OneSpace(end);
    ValuesBack(lits, end);
    GroupBack(ParseValue, Joined(LitTexts(lits), ", "), Some(Values(lits)), ";");
  }

  lemma {:induction false} InsertBack(schema: string, rel: string, cols: seq<string>, comma: bool, lits: seq<Lit>)
    requires GoodStmt(InsertS(schema, rel, cols, comma, lits))
    ensures ParseQuery(Render(InsertS(schema, rel, cols, comma, lits)))
         == if cols != [] && !comma then Some(InsertQ(schema, rel, cols, Values(lits))) else None
  {
    var c, v := ColumnsText(cols, comma), ValuesText(lits);
    InsertSplits(schema, rel, c, v);
    InsertKeywords(" " + schema + "." + rel + (" " + (c + v)));
    TableBack(schema, rel, " " + (c + v));
    ColumnsBack(cols, comma, v);
    if cols != [] && !comma {
      ValuesReads(lits);
      OneSpace(";");
    }
  }

  /** The text of a statement reads back as what was meant, whatever the values hold; an empty SET, an
      empty WHERE, an empty or a dangling column list makes it unreadable, and nothing else does. */
  lemma {:induction false} TextRoundTrip(st: Stmt)
    requires GoodStmt(st)
    ensures ParseQuery(Render(st)) == if Readable(st) then Some(MeaningOf(st)) else None
  {
    match st
    case InsertS(schema, rel, cols, comma, lits) => InsertBack(schema, rel, cols, comma, lits);
    case UpdateS(schema, rel, sets, wheres) => UpdateBack(schema, rel, sets, wheres);
    case DeleteS(schema, rel, wheres) => DeleteBack(schema, rel, wheres);
  }

  /** No statement on a row is mistaken for the start or the end of a transaction. */
  lemma {:induction false} NotABracket(st: Stmt)
    ensures Render(st) != "begin;" && Render(st) != "commit;" && Render(st) != ""
    ensures Render(st) != "BEGIN" && Render(st) != "END"
  {
    match st
    case InsertS(schema, rel, cols, comma, lits) =>
      InsertSplits(schema, rel, ColumnsText(cols, comma), ValuesText(lits));
      assert Render(st)[0] == 'I';
    case UpdateS(schema, rel, sets, wheres) =>
      UpdateSplits(schema, rel, SetText(sets), WhereText(wheres));
      assert Render(st)[0] == 'U';
    case DeleteS(schema, rel, wheres) =>
      DeleteSplits(schema, rel, WhereText(wheres));
      assert Render(st)[0] == 'D';
  }
}
