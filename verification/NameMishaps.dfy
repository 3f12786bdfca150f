/** Runs in which a name goes wrong: a table whose name holds capital letters, and an identity column that needs
    quotes. */
module NameMishaps {
  import opened OptionType
  import opened CStrings
  import opened SqlText
  import opened SqlRoundTrip
  import opened Wire
  import opened SqlGen
  import opened SqlMeaning
  import opened ChangeMeaning
  import opened EndToEnd
  import opened ColumnSpelling
  import opened Databases
  import opened TextThread
  import opened ApplyThread

  // ---- The table in small letters ----------------------------------------------------------------------------

  /** When there is no table with the name in small letters the thread ends at the change. */
  lemma {:induction false} NoSuchTableStops(cat: Catalog, d: Decoded, th: Thread, s: TextSession, row: TextRow)
    requires ButForTable(d) && Matching(d) && (d.kind == 'I' || d.kind == 'U' || d.kind == 'D')
    requires OutputOf(d).Statement? && Expressible(d)
    requires Identifier(d.schema) && Label(d.name) && d.schema[0] != '"' && d.name[0] != '"'
    requires (Lowered(d.schema), Lowered(d.name)) !in cat && row.sql == MessageText(d)
    ensures ApplyText(cat, th, s, row).TextExit?
  {
    hide ExecText;
    FoldedRuns(cat, d, if s.tx.TextOpen? then s.tx.work else s.db);
    NotABracket(OutputOf(d).stmt);
  }

  const ORDERS := Relation("public", "Orders", [Live("id", "integer"), Live("v", "text")], Some(["id"]))

  const BOTH: Catalog :=
    map[("public", "Orders") := Schema({"id", "v"}, ["id"]), ("public", "orders") := Schema({"id", "v"}, ["id"])]

  const GONE: Change := Delete(Some([Text("1"), Null]))

  function RowOne(v: string): TableRow { map["id" := Some("1"), "v" := Some(v)] }

  lemma {:induction false} NotKept()
    ensures !KeptWord("public") && !KeptWord("id") && !KeptWord("v") && !KeptWord("k") && !ColumnWord("k")
  {
  }

  lemma {:induction false} PlainIs(s: string)
    requires SmallWord(s) && !KeptWord(s)
    ensures Identifier(s) && Lowered(s) == s && Spelling(s)
  {
    hide KeptWord;
    SmallWordIs(s);
    PlainDenotes(s);
  }

  lemma {:induction false} OrdersNames()
    ensures Label("Orders") && Lowered("Orders") == "orders"
    ensures SmallWord("public") && SmallWord("id") && SmallWord("v")
  {
    assert Lowered("Orders") == "orders";
  }

  lemma {:induction false} OrdersColumns()
    ensures NamedWell(ORDERS.cols) && NameSet(ORDERS.cols) == {"id", "v"} && Distinct(ORDERS.cols)
  {
    hide KeptWord;
    hide Spelling;
    hide SmallWord;
    NotKept();
    OrdersNames();
    PlainIs("id");
    PlainIs("v");
    assert ORDERS.cols[0].name in NameSet(ORDERS.cols) && ORDERS.cols[1].name in NameSet(ORDERS.cols);
  }

  /** What `GONE` is when it has arrived. */
  function GoneD(): Decoded { ChangeD('D', "public", "Orders", ORDERS.cols, ["id"], true, [Text("1"), Null], []) }

  lemma {:induction false} OrdersDelete()
    ensures ButForTable(GoneD()) && Matching(GoneD()) && OutputOf(GoneD()).Statement? && Expressible(GoneD())
    ensures Exec(MeaningOf(OutputOf(GoneD()).stmt), Schema({"id", "v"}, ["id"]), [RowOne("b")]) == Done([])
  {
    hide KeptWord;
    hide Spelling;
    hide Exec;
    hide MeaningOf;
    OrdersColumns();
    KeyedDelete(GoneD(), [RowOne("b")], 0);
    assert [RowOne("b")][..0] + [RowOne("b")][1..] == [];
    assert Identifying(GoneD().cols, GoneD().keys)[0];
  }

  function Before(): Database { map[("public", "Orders") := [RowOne("a")], ("public", "orders") := [RowOne("b")]] }

  lemma {:induction false} OrdersExec()
    requires ButForTable(GoneD()) && Matching(GoneD()) && OutputOf(GoneD()).Statement? && Expressible(GoneD())
    requires Exec(MeaningOf(OutputOf(GoneD()).stmt), Schema({"id", "v"}, ["id"]), [RowOne("b")]) == Done([])
    ensures ExecText(BOTH, MessageText(GoneD()), Before()) == Ok(Before()[("public", "orders") := []])
  {
    hide KeptWord;
    hide ButForTable;
    hide OutputOf;
    hide MessageText;
    hide Expressible;
    hide Exec;
    hide MeaningOf;
    hide ExecText;
    hide Label;
    NotKept();
    OrdersNames();
    PlainIs("public");
    FoldedRuns(BOTH, GoneD(), Before());
  }

  lemma {:induction false} GoneArrives(o: Options)
    requires AllSent(o)
    ensures Parse(Encode(o, ChangeMsg(ORDERS, GONE))) == Some((GoneD(), ""))
  {
    hide Parse;
    hide Encode;
    assert Arrived(ORDERS.cols, [Text("1"), Null]) == [Text("1"), Null];
    WireRoundTrip(o, ChangeMsg(ORDERS, GONE));
  }

  /** The source deletes a row of `Orders`; the target loses a row of `orders` and keeps that of `Orders`. */
  lemma {:induction false} OrdersRun(o: Options)
    requires AllSent(o)
    ensures KeyIs(ORDERS.cols, ["id"], GONE.oldRow.value, RowOne("a"))
    ensures Parse(Encode(o, ChangeMsg(ORDERS, GONE))) == Some((GoneD(), "")) && Matching(GoneD())
    ensures ExecText(BOTH, MessageText(GoneD()), Before()) == Ok(Before()[("public", "orders") := []])
  {
    hide ButForTable;
    hide OutputOf;
    hide Exec;
    hide MeaningOf;
    hide ExecText;
    hide MessageText;
    hide Parse;
    hide Encode;
    GoneArrives(o);
    OrdersDelete();
    OrdersExec();
  }

  // ---- The key in quotes -------------------------------------------------------------------------------------

  const MIXED := Relation("public", "t", [Live("\"Id\"", "integer"), Live("k", "integer")], Some(["Id", "k"]))

  const ONE_GONE: Change := Delete(Some([Text("1"), Text("7")]))

  function OneGoneD(): Decoded {
    ChangeD('D', "public", "t", MIXED.cols, ["Id", "k"], true, [Text("1"), Text("7")], [])
  }

  function RowOf(id: string): TableRow { map["\"Id\"" := Some(id), "k" := Some("7")] }

  lemma {:induction false} IdQuoted()
    ensures QuoteIdentifier("Id") == "\"Id\""
  {
    hide KeptWord;
    hide ColumnWord;
    assert "Id"[1..] == "d" && "d"[1..] == "";
    assert QuotesDoubled("d") == "d";
  }

  lemma {:induction false} MixedSent()
    ensures Sent([Some("Id"), Some("k")], MIXED.cols)
    ensures Spelling("\"Id\"") && Spelling("k") && PlainSchema("public") && PlainName("t")
  {
    hide KeptWord;
    hide ColumnWord;
    hide Spelling;
    NotKept();
    OrdersNames();
    PlainIs("public");
    PlainIs("k");
    SmallWordIs("public");
    SmallWordIs("t");
    IdQuoted();
    SpellingDenotes("Id");
  }

  /** The text looks at `k` alone. */
  lemma {:induction false} LooksAtK(r: TableRow)
    requires r == RowOf("1") || r == RowOf("2")
    ensures Condition(Bindings(WheresOf(MIXED.cols, ["Id", "k"], [Text("1"), Text("7")])), r) == True
  {
    SelectsKey(MIXED.cols, ["Id", "k"], [Text("1"), Text("7")], r);
  }

  lemma {:induction false} OneGoneExec()
    ensures OutputOf(OneGoneD()).Statement? && Expressible(OneGoneD())
    ensures Exec(MeaningOf(OutputOf(OneGoneD()).stmt), Schema(NameSet(MIXED.cols), ["\"Id\"", "k"]), [RowOf("1"), RowOf("2")]) == Done([])
  {
    var d := OneGoneD();
    var wheres := Bindings(WheresOf(d.cols, d.keys, d.oldRow));
    LooksAtK(RowOf("1"));
    LooksAtK(RowOf("2"));
    AllGo(wheres, [RowOf("1"), RowOf("2")]);
    ColumnsKnown(d.cols, d.oldRow, Identifying(d.cols, d.keys));
    assert Identifying(d.cols, d.keys)[1];
  }

  lemma {:induction false} OneGoneWritable()
    ensures Writable(OneGoneD())
  {
    hide KeptWord;
    hide Spelling;
    hide PlainName;
    hide PlainSchema;
    MixedSent();
  }

  lemma {:induction false} OneGoneArrives(o: Options)
    requires AllSent(o)
    ensures Parse(Encode(o, ChangeMsg(MIXED, ONE_GONE))) == Some((OneGoneD(), ""))
  {
    hide Parse;
    hide Encode;
    assert Arrived(MIXED.cols, [Text("1"), Text("7")]) == [Text("1"), Text("7")];
    WireRoundTrip(o, ChangeMsg(MIXED, ONE_GONE));
  }

  /** The source deletes one of two rows; the target loses both. */
  lemma {:induction false} RawKeyRun(o: Options)
    requires AllSent(o)
    ensures Parse(Encode(o, ChangeMsg(MIXED, ONE_GONE))) == Some((OneGoneD(), "")) && Matching(OneGoneD())
    ensures Sent([Some("Id"), Some("k")], MIXED.cols) && KeyUnique(["\"Id\"", "k"], [RowOf("1"), RowOf("2")])
    ensures
      var q := ParseQuery(MessageText(OneGoneD()));
      q.Some? && TargetOf(q.value) == ("public", "t") &&
      Exec(q.value, Schema(NameSet(MIXED.cols), ["\"Id\"", "k"]), [RowOf("1"), RowOf("2")]) == Done([])
  {
    hide Parse;
    hide Encode;
    hide ParseQuery;
    hide MessageText;
    hide Exec;
    hide MeaningOf;
    hide OutputOf;
    hide Writable;
    hide Sent;
    hide Spelling;
    MixedSent();
    OneGoneArrives(o);
    OneGoneWritable();
    OneGoneExec();
    StatementReads(OneGoneD());
    assert Field(RowOf("1"), "\"Id\"") != Field(RowOf("2"), "\"Id\"");
    assert "\"Id\"" in ["\"Id\"", "k"];
  }
}
