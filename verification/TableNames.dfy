/** Schema and relation names are sent and printed without quotes.  The text of a change is about its own table
    exactly when both names denote themselves that way. */
module TableNames {
  import opened OptionType
  import opened CStrings
  import opened SqlText
  import opened SqlRoundTrip
  import opened SqlTextExact

  /** The name at the start of `s`, as it is spelled. */
  function NameIn(s: string): string
    requires SkipName(s).Some?
  {
    s[..|s| - |SkipName(s).value|]
  }

  // ---- Behind a name -----------------------------------------------------------------------------------------

  /** After `n` blanks comes something that is neither a blank nor a quote, and that ends a word if there are none. */
  predicate Stops(after: string, n: nat) {
    && n < |after| && (forall i | 0 <= i < n :: after[i] == ' ')
    && after[n] != ' ' && after[n] != '"' && (n == 0 ==> !WordChar(after[0]))
  }

  lemma {:induction false} SkipsBlanks(v: string, after: string)
    ensures var u := SkipSpaces(v); Trims(v, u) && (u == "" || u[0] != ' ')
    ensures var u := SkipSpaces(v); SkipSpaces(v + after) == if u == "" then SkipSpaces(after) else u + after
  {
    if v != "" && v[0] == ' ' {
      SkipsBlanks(v[1..], after);
      assert (v + after)[1..] == v[1..] + after;
      assert forall i | 0 < i < |v| :: v[i] == v[1..][i - 1];
    } else if v == "" {
      assert v + after == after;
    }
  }

  lemma {:induction false} SkipsGap(after: string, n: nat)
    requires Stops(after, n)
    ensures SkipSpaces(after) == after[n..]
  {
    if n > 0 {
      GapSkipped(after, n);
    }
  }

  lemma {:induction false} GapSkipped(after: string, n: nat)
    requires n < |after| && (forall i | 0 <= i < n :: after[i] == ' ') && after[n] != ' '
    ensures SkipSpaces(after) == after[n..]
  {
    if n > 0 {
      GapSkipped(after[1..], n - 1);
    }
  }

  // ---- Words -------------------------------------------------------------------------------------------------

  /** A word does not go past a character that ends words, and reaches it only over word characters. */
  lemma {:induction false} WordStops(u: string, after: string)
    requires after != "" && !WordChar(after[0])
    ensures |SkipWord(u + after)| >= |after|
    ensures |SkipWord(u + after)| == |after| ==> SkipWord(u) == ""
  {
    if u == "" {
      assert u + after == after;
    } else {
      assert (u + after)[1..] == u[1..] + after;
      WordStops(u[1..], after);
    }
  }

  /** An unquoted name that denotes `v`. */
  lemma {:induction false} PlainWord(v: string, u: string, after: string)
    requires Trims(v, u) && u != "" && WordStart(u[0]) && after != "" && EndsName(after)
    requires SkipName(u + after).Some? && Denoted(NameIn(u + after)) == v
    ensures PlainName(v) && u == v && SkipName(u + after) == Some(after)
  {
    var s := u + after;
    assert s[1..] == u[1..] + after;
    WordStops(u[1..], after);
    var r := SkipWord(s[1..]);
    assert |v| == |s| - |r| <= |u|;
    assert u == v;
    assert s[..|v|] == v;
    SkipWordAppend(u[1..], after);
  }

  // ---- Quoted names ------------------------------------------------------------------------------------------

  lemma {:induction false} DelimitedEnds(s: string)
    requires SkipDelimited(s).Some?
    ensures var r := SkipDelimited(s).value; r == s[|s| - |r|..] && s[|s| - |r| - 1] == '"'
  {
    if s[0] != '"' {
      DelimitedEnds(s[1..]);
    } else if |s| > 1 && s[1] == '"' {
      DelimitedEnds(s[2..]);
    }
  }

  lemma {:induction false} UndoubledCount(s: string, c: char)
    ensures |Undoubled(s)| <= |s|
    ensures c != '"' ==> multiset(Undoubled(s))[c] == multiset(s)[c]
  {
    if s != "" {
      assert s == [s[0]] + s[1..];
      CountBehind(s[0], s[1..], c);
      if s[0] == '"' && |s| > 1 && s[1] == '"' {
        UndoubledCount(s[2..], c);
        CountBehind('"', Undoubled(s[2..]), c);
        assert s[1..] == [s[1]] + s[2..];
        CountBehind(s[1], s[2..], c);
      } else {
        UndoubledCount(s[1..], c);
        CountBehind(s[0], Undoubled(s[1..]), c);
      }
    }
  }

  /** A quoted name that begins in `u` is too short for `v`, or it holds what comes behind once more than `v`. */
  lemma {:induction false} NotQuoted(v: string, u: string, after: string, n: nat)
    requires Trims(v, u) && u != "" && u[0] == '"' && Stops(after, n) && SkipName(u + after).Some?
    ensures Denoted(NameIn(u + after)) != v
  {
    hide Undoubled;
    hide SkipDelimited;
    var s := u + after;
    assert s[0] == '"';
    var k := |s| - |SkipName(s).value|;
    var c := after[n];
    DelimitedEnds(s[1..]);
    assert s[k - 1] == s[1..][k - 2] == '"';
    UndoubledCount(s[..k][1..k - 1], c);
    if k > |u| {
      LastIn(u, after, k, n);
      MoreOften(s, u, k, n, c);
      TrimmedCount(v, u, c);
    }
  }

  /** A quote behind `u` comes after what stops it. */
  lemma {:induction false} LastIn(u: string, after: string, k: nat, n: nat)
    requires Stops(after, n) && |u| < k <= |u + after| && (u + after)[k - 1] == '"'
    ensures |u| + n < k - 1 && (u + after)[|u| + n] == after[n]
  {
  }

  lemma {:induction false} MoreOften(s: string, u: string, k: nat, n: nat, c: char)
    requires |u| + n < k - 1 && k <= |s| && u != "" && s[..|u|] == u && s[|u| + n] == c && s[0] != c
    ensures multiset(s[..k][1..k - 1])[c] > multiset(u)[c]
  {
    var inner := s[..k][1..k - 1];
    assert inner == u[1..] + s[|u|..|u| + n] + [c] + s[|u| + n + 1..k - 1];
    assert u == [u[0]] + u[1..];
  }

  // ---- One name ----------------------------------------------------------------------------------------------

  lemma {:induction false} NameStarts(s: string)
    requires SkipName(s).Some?
    ensures s != "" && (WordStart(s[0]) || s[0] == '"')
  {
  }

  /** The name read at the start of `v` and what follows denotes `v` only if `v` denotes itself. */
  lemma {:induction false} OnlyPlain(v: string, after: string, n: nat)
    requires Stops(after, n)
    requires SkipName(SkipSpaces(v + after)).Some? && Denoted(NameIn(SkipSpaces(v + after))) == v
    ensures PlainName(v) && SkipSpaces(v + after) == v + after && SkipName(v + after) == Some(after)
  {
    hide SkipName;
    hide Denoted;
    hide PlainName;
    hide NameIn;
    var u := SkipSpaces(v);
    SkipsBlanks(v, after);
    NameStarts(SkipSpaces(v + after));
    if u == "" {
      NothingDenoted(v, after, n);
    } else if WordStart(u[0]) {
      PlainWord(v, u, after);
    } else {
      assert (u + after)[0] == u[0];
      NotQuoted(v, u, after, n);
    }
  }

  /** Blanks alone are not denoted by what follows them. */
  lemma {:induction false} NothingDenoted(v: string, after: string, n: nat)
    requires Stops(after, n) && Trims(v, "") && SkipName(SkipSpaces(after)).Some?
    ensures Denoted(NameIn(SkipSpaces(after))) != v
  {
    SkipsGap(after, n);
    var s := after[n..];
    var w := s[..|s| - |SkipName(s).value|];
    assert w[0] == s[0] && Denoted(w) == Lowered(w);
  }

  // ---- The table ---------------------------------------------------------------------------------------------

  lemma {:induction false} TableHasNames(t: string)
    requires ParseTable(t).Some?
    ensures
      var s := SkipSpaces(t);
      && SkipName(s).Some? && !Reserved(NameIn(s)) && ParseTable(t).value.0.0 == NameIn(s)
      && Symbol('.', SkipName(s).value).Some?
      && var s2 := SkipSpaces(Symbol('.', SkipName(s).value).value);
      SkipName(s2).Some? && ParseTable(t).value.0.1 == NameIn(s2)
  {
    hide SkipName;
    hide SkipSpaces;
    hide Reserved;
    hide Symbol;
  }

  /** The table that is read is the one that is printed only if both names denote themselves. */
  lemma {:induction false} OnlyPlainTable(schema: string, rel: string, rest: string, n: nat)
    requires Stops(rest, n) && n > 0
    requires
      var t := ParseTable(" " + schema + "." + rel + rest);
      t.Some? && (Denoted(t.value.0.0), Denoted(t.value.0.1)) == (schema, rel)
    ensures PlainSchema(schema) && PlainName(rel)
  {
    hide SkipName;
    hide PlainName;
    hide KeptWord;
    hide ParseTable;
    hide Denoted;
    var s2 := rel + rest;
    var s1 := "." + s2;
    TableParts(schema, rel, rest);
    TableHasNames(" " + (schema + s1));
    OneSpaceMore(schema + s1);
    OnlyPlain(schema, s1, 0);
    assert (schema + s1)[..|schema|] == schema;
    assert s1[1..] == s2;
    OnlyPlain(rel, rest, n);
  }

  /** The query that is read, if any, is about the table that is read. */
  ghost predicate AboutTable(q: Option<Query>, t: Parsed<(string, string)>) {
    q.Some? ==> t.Some? && t.value.0 == (q.value.schema, q.value.rel)
  }

  lemma {:induction false} AboutIts(table: string)
    ensures AboutTable(ParseInsert(table), ParseTable(table))
    ensures AboutTable(ParseUpdate(table), ParseTable(table))
    ensures AboutTable(ParseDelete(table), ParseTable(table))
  {
    hide ParseTable;
    hide ParseWhere;
    hide ParseList;
    hide ParseGroup;
    hide Keyword;
    hide SkipSpaces;
  }

  /** What is printed behind the names. */
  function BehindTable(st: Stmt): string {
    match st
    case InsertS(_, _, cols, comma, lits) => " " + (ColumnsText(cols, comma) + ValuesText(lits))
    case UpdateS(_, _, sets, wheres) => " " + SetText(sets) + (" " + WhereText(wheres))
    case DeleteS(_, _, wheres) => " " + WhereText(wheres)
  }

  lemma {:induction false} BehindStops(st: Stmt)
    ensures Stops(BehindTable(st), if st.UpdateS? then 2 else 1)
  {
  }

  lemma {:induction false} ReadsTable(st: Stmt)
    ensures AboutTable(ParseQuery(Render(st)), ParseTable(" " + st.schema + "." + st.rel + BehindTable(st)))
  {
    hide ParseQuery;
    hide ParseTable;
    hide AboutTable;
    hide ColumnsText;
    hide ValuesText;
    hide SetText;
    hide WhereText;
    var table := " " + st.schema + "." + st.rel + BehindTable(st);
    AboutIts(table);
    match st
    case InsertS(schema, rel, cols, comma, lits) =>
      InsertSplits(schema, rel, ColumnsText(cols, comma), ValuesText(lits));
      InsertKeywords(table);
    case UpdateS(schema, rel, sets, wheres) =>
      UpdateSplits(schema, rel, SetText(sets), WhereText(wheres));
      UpdateKeyword(table);
    case DeleteS(schema, rel, wheres) =>
      DeleteSplits(schema, rel, WhereText(wheres));
      DeleteKeywords(table);
  }
}
