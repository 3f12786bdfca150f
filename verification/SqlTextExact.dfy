/** Exactly which statements read back: the readable ones whose values are all printable.  A value that is not, like
    NaN in a numeric column, makes the text unreadable or makes it say something else. */
module SqlTextExact {
  import opened OptionType
  import opened Literals
  import opened SqlText
  import opened SqlRoundTrip

  /** Reading `s` fails or gives another value. */
  predicate Misread<T(==)>(one: string -> Parsed<T>, s: string, value: T) {
    one(s).None? || one(s).value.0 != value
  }

  // ---- Values ------------------------------------------------------------------------------------------------

  predicate Plain(c: char) { c != QUOTE && c != BACKSLASH }

  lemma {:induction false} CountBehind(x: char, v: string, c: char)
    ensures multiset([x] + v)[c] == multiset(v)[c] + if x == c then 1 else 0
  {
  }

  lemma {:induction false} CountSplit(s: string, n: nat, m: nat, c: char)
    requires n <= m <= |s|
    ensures multiset(s[..m])[c] == multiset(s[..n])[c] + multiset(s[n..][..m - n])[c]
    ensures n == 1 ==> multiset(s[..n])[c] == if s[0] == c then 1 else 0
    ensures n == 2 ==> multiset(s[..n])[c] == (if s[0] == c then 1 else 0) + if s[1] == c then 1 else 0
  {
    assert s[..m] == s[..n] + s[n..][..m - n];
    assert n == 1 ==> s[..1] == [s[0]];
    assert n == 2 ==> s[..2] == [s[0], s[1]];
  }

  /** How many characters the lexer takes for the next one of the value; none when the constant ends. */
  function Taken(escapes: bool, s: string): nat
    requires s != ""
  {
    if s[0] == QUOTE then if |s| > 1 && s[1] == QUOTE then 2 else 0
    else if escapes && s[0] == BACKSLASH then 2
    else 1
  }

  lemma {:induction false} LexTakes(escapes: bool, s: string)
    requires LexString(escapes, s).Some?
    ensures s != "" && Taken(escapes, s) <= |s|
    ensures Taken(escapes, s) == 0 ==> LexString(escapes, s) == Some(("", s[1..]))
    ensures var n := Taken(escapes, s); n > 0 ==> LexString(escapes, s) == Behind(s[n - 1], LexString(escapes, s[n..]))
    ensures Taken(escapes, s) == 2 ==> !Plain(s[0]) && !Plain(s[1])
  {
  }

  /** A string constant holds a plain character as often as its text does. */
  lemma {:induction false} LexCount(escapes: bool, s: string, c: char)
    requires LexString(escapes, s).Some? && Plain(c)
    ensures
      var (w, rest) := LexString(escapes, s).value;
      |rest| <= |s| && multiset(w)[c] == multiset(s[..|s| - |rest|])[c]
  {
    hide LexString;
    LexTakes(escapes, s);
    var n := Taken(escapes, s);
    if n > 0 {
      LexCount(escapes, s[n..], c);
      var (v, rest) := LexString(escapes, s[n..]).value;
      CountBehind(s[n - 1], v, c);
      CountSplit(s, n, |s| - |rest|, c);
    } else {
      assert s[..1] == [s[0]];
    }
  }

  lemma {:induction false} CountIn(s: string, c: char, n: nat, m: nat)
    requires n < m <= |s| && s[n] == c
    ensures multiset(s[..m])[c] > multiset(s[..n])[c]
  {
    assert s[..m] == s[..n] + [c] + s[n + 1..m];
  }

  /** No constant that begins in the text of a value and goes past its end is that value. */
  lemma {:induction false} NotThatConstant(escapes: bool, u: string, r: string, v: string)
    requires r != "" && Plain(r[0]) && |u| <= |v| && multiset(u)[r[0]] == multiset(v)[r[0]]
    requires LexString(escapes, u + r).Some?
    ensures LexString(escapes, u + r).value.0 != v
  {
    var s := u + r;
    var taken := |s| - |LexString(escapes, s).value.1|;
    LexStringLength(escapes, s);
    LexCount(escapes, s, r[0]);
    if |u| < taken {
      CountIn(s, r[0], |u|, taken);
      assert s[..|u|] == u;
    }
  }

  /** The text of a bare value, perhaps without blanks at its start. */
  predicate Trims(v: string, u: string) { |u| <= |v| && u == v[|v| - |u|..] && forall i | 0 <= i < |v| - |u| :: v[i] == ' ' }

  lemma {:induction false} TrimmedCount(v: string, u: string, c: char)
    requires Trims(v, u) && (|u| < |v| ==> c != ' ')
    ensures multiset(u)[c] == multiset(v)[c]
  {
    assert v == v[..|v| - |u|] + u;
  }

  lemma {:induction false} TailCount(u: string, n: nat, c: char)
    requires n <= |u| && forall i | 0 <= i < n :: u[i] != c
    ensures multiset(u[n..])[c] == multiset(u)[c]
  {
    assert u == u[..n] + u[n..];
  }

  /** The constant that begins behind the first `n` characters is not that value. */
  lemma {:induction false} NotFrom(escapes: bool, v: string, u: string, r: string, n: nat)
    requires Follows(r) && n <= |u| <= |v| && multiset(u)[r[0]] == multiset(v)[r[0]] && forall i | 0 <= i < n :: u[i] != r[0]
    ensures (u + r)[n..] == u[n..] + r
    ensures LexString(escapes, (u + r)[n..]).Some? ==> LexString(escapes, (u + r)[n..]).value.0 != v
  {
    hide LexString;
    assert (u + r)[n..] == u[n..] + r;
    TailCount(u, n, r[0]);
    if LexString(escapes, u[n..] + r).Some? {
      NotThatConstant(escapes, u[n..], r, v);
    }
  }

  lemma {:induction false} BareMisread(v: string, u: string, r: string)
    requires Follows(r) && Trims(v, u) && (|u| < |v| ==> r[0] != ' ' && (u == "" || u[0] != ' ')) && !Numeral(v)
    ensures Misread(ParseValue, u + r, Some(v))
  {
    hide LexString;
    hide LexNumber;
    hide Numeral;
    hide Keyword;
    var s, c := u + r, r[0];
    TrimmedCount(v, u, c);
    if s[0] == QUOTE {
      NotFrom(false, v, u, r, 1);
    } else if |s| > 1 && s[0] == 'E' && s[1] == QUOTE {
      NotFrom(true, v, u, r, 2);
    }
    if LexNumber(s).Some? {
      NotThatNumber(v, u, r);
    }
  }

  lemma {:induction false} NotThatNumber(v: string, u: string, r: string)
    requires Follows(r) && Trims(v, u) && (|u| < |v| ==> r[0] != ' ' && (u == "" || u[0] != ' ')) && !Numeral(v)
    requires LexNumber(u + r).Some?
    ensures LexNumber(u + r).value.0 != v
  {
    var s := u + r;
    var w := LexNumber(s).value.0;
    if |u| < |v| {
      assert v[0] == ' ' && s[0] != ' ' && (w != "" ==> w[0] == s[0]);
    } else {
      assert u == v;
      SkipNumberAppend(v, r);
    }
  }

  /** A value that is not printable is not read back as what it is, whatever follows it. */
  lemma {:induction false} ValueMisread(l: Lit, r: string)
    requires Follows(r) && !Printable(l)
    ensures Misread(ParseValue, LitText(l) + r, LitValue(l))
  {
    if StyleOf(l.typ) == Bare {
      BareMisread(l.v, l.v, r);
    } else {
      BetweenMisread(l.v, r);
    }
  }

  lemma {:induction false} BetweenConstant(v: string, r: string)
    requires Follows(r) && QUOTE in v && LexString(false, v + [QUOTE] + r).Some?
    ensures LexString(false, v + [QUOTE] + r).value.0 != v
  {
    var t := v + [QUOTE] + r;
    var taken := |t| - |LexString(false, t).value.1|;
    LexStringLength(false, t);
    LexCount(false, t, r[0]);
    if |v| + 1 < taken {
      CountIn(t, r[0], |v| + 1, taken);
      assert t[..|v| + 1] == v + [QUOTE];
    }
  }

  lemma {:induction false} BetweenMisread(v: string, r: string)
    requires Follows(r) && QUOTE in v
    ensures Misread(ParseValue, [QUOTE] + v + [QUOTE] + r, Some(v))
  {
    var s := [QUOTE] + v + [QUOTE] + r;
    var t := v + [QUOTE] + r;
    assert s[1..] == t;
    if LexString(false, t).Some? {
      BetweenConstant(v, r);
    }
  }

  /** Nor is it behind a comma, whose blanks are skipped. */
  lemma {:induction false} SkippedMisread(l: Lit, r: string)
    requires Follows(r) && r[0] != ' ' && !Printable(l)
    ensures Misread(ParseValue, SkipSpaces(LitText(l) + r), LitValue(l))
  {
    if StyleOf(l.typ) == Bare {
      var u := SkipSpaces(l.v);
      SkipsTo(l.v, r);
      BareMisread(l.v, u, r);
    } else {
      ValueMisread(l, r);
    }
  }

  lemma {:induction false} SkipsTo(v: string, r: string)
    requires r != "" && r[0] != ' '
    ensures var u := SkipSpaces(v); Trims(v, u) && (u == "" || u[0] != ' ') && SkipSpaces(v + r) == u + r
  {
    if v != "" && v[0] == ' ' {
      SkipsTo(v[1..], r);
      assert (v + r)[1..] == v[1..] + r;
      assert forall i | 0 < i < |v| :: v[i] == v[1..][i - 1];
    } else {
      assert v == "" ==> v + r == r;
    }
  }

  // ---- Lists -------------------------------------------------------------------------------------------------

  predicate FollowsIn(r: string, spaced: bool) { Follows(r) && (spaced || r[0] != ' ') }

  /** A piece that is misread, at the start of the list and behind a separator. */
  ghost predicate PieceMisread<T>(one: string -> Parsed<T>, sep: string -> Option<string>, piece: string, value: T,
                                  sepText: string, spaced: bool)
  {
    forall r | FollowsIn(r, spaced) ::
      && Misread(one, piece + r, value)
      && sep(sepText + (piece + r)).Some? && Misread(one, sep(sepText + (piece + r)).value, value)
  }

  ghost predicate ListMis<T>(one: string -> Parsed<T>, sep: string -> Option<string>, s: string, values: seq<T>) {
    ParseList(one, sep, s).None? || ParseList(one, sep, s).value.0 != values
  }

  lemma {:induction false} FirstMis<T>(one: string -> Parsed<T>, sep: string -> Option<string>, s: string, values: seq<T>)
    requires values != [] && Misread(one, s, values[0])
    ensures ListMis(one, sep, s, values)
  {
  }

  lemma {:induction false} RestMis<T>(one: string -> Parsed<T>, sep: string -> Option<string>, s: string, s1: string, s2: string,
                                      values: seq<T>)
    requires |values| > 1 && one(s) == Some((values[0], s1)) && sep(s1) == Some(s2) && ListMis(one, sep, s2, values[1..])
    ensures ListMis(one, sep, s, values)
  {
  }

  /** The pieces before `n` are read as their values. */
  ghost predicate PiecesRead<T>(one: string -> Parsed<T>, sep: string -> Option<string>, pieces: seq<string>, values: seq<T>,
                                sepText: string, n: nat)
  {
    && n <= |pieces| == |values|
    && forall k, r | 0 <= k < n && Follows(r) ::
      one(pieces[k] + r) == Some((values[k], r)) && sep(sepText + (pieces[k] + r)) == Some(pieces[k] + r)
  }

  /** The first piece is read, and so are the others. */
  lemma {:induction false} PieceRead<T>(one: string -> Parsed<T>, sep: string -> Option<string>, pieces: seq<string>, values: seq<T>,
                                        sepText: string, n: nat, r: string, spaced: bool)
    requires 0 < n <= |pieces| && PiecesRead(one, sep, pieces, values, sepText, n) && FollowsIn(r, spaced)
    ensures one(pieces[0] + r) == Some((values[0], r)) && sep(sepText + (pieces[0] + r)) == Some(pieces[0] + r)
    ensures PiecesRead(one, sep, pieces[1..], values[1..], sepText, n - 1)
  {
  }

  lemma {:induction false} StillFollows(sepText: string, tail: string, spaced: bool)
    requires FollowsIn(sepText, spaced)
    ensures FollowsIn(sepText + tail, spaced)
  {
  }

  /** A list whose piece `i` is misread is misread. */
  lemma {:induction false} ListMisread<T>(one: string -> Parsed<T>, sep: string -> Option<string>, pieces: seq<string>, values: seq<T>,
                                          sepText: string, rest: string, i: nat, spaced: bool)
    requires i < |pieces| && PiecesRead(one, sep, pieces, values, sepText, i)
    requires FollowsIn(sepText, spaced) && FollowsIn(rest, spaced)
    requires PieceMisread(one, sep, pieces[i], values[i], sepText, spaced)
    ensures ListMis(one, sep, Joined(pieces, sepText) + rest, values)
    decreases i
  {
    hide ParseList;
    hide Joined;
    hide Follows;
    hide FollowsIn;
    HeadOf(pieces, sepText, rest);
    var tail := Joined(pieces[1..], sepText) + rest;
    var follow := if |pieces| == 1 then rest else sepText + tail;
    StillFollows(sepText, tail, spaced);
    if i == 0 {
      FirstMis(one, sep, pieces[0] + follow, values);
    } else {
      PieceRead(one, sep, pieces, values, sepText, i, follow, spaced);
      HeadOf(pieces[1..], sepText, rest);
      var more := Joined(pieces[1..][1..], sepText) + rest;
      var after := if |pieces| == 2 then rest else sepText + more;
      StillFollows(sepText, more, spaced);
      assert tail == pieces[1] + after;
      if i == 1 {
        FirstMis(one, sep, sep(follow).value, values[1..]);
        RestMis(one, sep, pieces[0] + follow, follow, sep(follow).value, values);
      } else {
        PieceRead(one, sep, pieces[1..], values[1..], sepText, i - 1, after, spaced);
        ListMisread(one, sep, pieces[1..], values[1..], sepText, rest, i - 1, spaced);
        RestMis(one, sep, pieces[0] + follow, follow, tail, values);
      }
    }
  }

  // ---- Conditions and assignments ------------------------------------------------------------------------------

  predicate NamedItems(items: seq<Item>) { forall k | 0 <= k < |items| :: Identifier(items[k].col) }

  predicate PrintableItems(items: seq<Item>) { forall k | 0 <= k < |items| :: Printable(items[k].lit) }

  predicate PrintableLits(lits: seq<Lit>) { forall k | 0 <= k < |lits| :: Printable(lits[k]) }

  lemma {:induction false} NamedStarts(x: Item, r: string)
    requires Identifier(x.col)
    ensures Starts(ItemText(x) + r)
  {
  }

  lemma {:induction false} ItemMisread(x: Item, r: string)
    requires Identifier(x.col) && !Printable(x.lit) && Follows(r)
    ensures Misread(ParseBinding, ItemText(x) + r, Meant(x))
  {
    hide LitText;
    hide ParseValue;
    hide ParseName;
    var value := LitText(x.lit) + r;
    assert ItemText(x) + r == x.col + ("=" + value);
    NameBack(x.col, "=" + value);
    assert ("=" + value)[1..] == value;
    ValueMisread(x.lit, r);
  }

  /** The first that is not printable. */
  lemma {:induction false} FirstUnprintable(items: seq<Item>) returns (i: nat)
    requires NamedItems(items) && !PrintableItems(items)
    ensures i < |items| && !Printable(items[i].lit) && GoodItems(items[..i])
  {
    hide Printable;
    hide Identifier;
    i := 0;
    while Printable(items[i].lit)
      invariant i < |items| && GoodItems(items[..i]) && !PrintableItems(items)
      invariant forall k | 0 <= k < i :: Printable(items[k].lit)
      decreases |items| - i
    {
      i := i + 1;
    }
  }

  lemma {:induction false} ListOfItems(items: seq<Item>, sep: string -> Option<string>, sepText: string, rest: string)
    requires NamedItems(items) && !PrintableItems(items) && Follows(rest) && Follows(sepText)
    requires forall tail | Starts(tail) :: sep(sepText + tail) == Some(tail)
    ensures ListMis(ParseBinding, sep, Joined(ItemTexts(items), sepText) + rest, Bindings(items))
  {
    var i := FirstUnprintable(items);
    var pieces, values := ItemTexts(items), Bindings(items);
    forall k, r | 0 <= k < i && Follows(r)
      ensures ParseBinding(pieces[k] + r) == Some((values[k], r)) && sep(sepText + (pieces[k] + r)) == Some(pieces[k] + r)
    {
      assert items[..i][k] == items[k];
      ItemBack(items[k], r);
      NamedStarts(items[k], r);
    }
    forall r | FollowsIn(r, true)
      ensures Misread(ParseBinding, pieces[i] + r, values[i])
      ensures sep(sepText + (pieces[i] + r)) == Some(pieces[i] + r)
    {
      ItemMisread(items[i], r);
      NamedStarts(items[i], r);
    }
    ListMisread(ParseBinding, sep, pieces, values, sepText, rest, i, true);
  }

  lemma {:induction false} WhereMisread(wheres: seq<Item>)
    requires NamedItems(wheres) && !PrintableItems(wheres)
    ensures ParseWhere(" " + WhereText(wheres)) != Some(Bindings(wheres))
  {
    hide ParseList;
    var list := Joined(ItemTexts(wheres), " AND ") + ";";
    WhereParts(Joined(ItemTexts(wheres), " AND "));
    WhereWord(" " + list);
    NamedStarts(wheres[0], "");
    JoinedStarts(ItemTexts(wheres), " AND ", ";");
    OneSpace(list);
    forall tail | Starts(tail) ensures And(" AND " + tail) == Some(tail) {
      AndBack(tail);
    }
    ListOfItems(wheres, And, " AND ", ";");
  }

  /** Whatever the conditions are, a list in front of them ends there. */
  lemma {:induction false} WhereShape(wheres: seq<Item>)
    ensures var w := " " + WhereText(wheres); EndsName(w) && Follows(w) && Comma(w) == None
  {
    OneSpace(WhereText(wheres));
  }

  lemma {:induction false} SetsMisread(sets: seq<Item>, w: string)
    requires NamedItems(sets) && !PrintableItems(sets) && Follows(w)
    ensures ListMis(ParseBinding, Comma, SkipSpaces(" " + (Joined(ItemTexts(sets), " , ") + w)), Bindings(sets))
  {
    NamedStarts(sets[0], "");
    JoinedStarts(ItemTexts(sets), " , ", w);
    OneSpace(Joined(ItemTexts(sets), " , ") + w);
    forall tail | Starts(tail) ensures Comma(" , " + tail) == Some(tail) {
      CommaBack(" , ", tail);
    }
    ListOfItems(sets, Comma, " , ", w);
  }

  // ---- Statements ----------------------------------------------------------------------------------------------

  /** All names are identifiers. */
  predicate NamedStmt(st: Stmt) {
    && Identifier(st.schema) && Label(st.rel)
    && match st
       case InsertS(_, _, cols, _, lits) => GoodNames(cols) && |cols| == |lits|
       case UpdateS(_, _, sets, wheres) => NamedItems(sets) && NamedItems(wheres)
       case DeleteS(_, _, wheres) => NamedItems(wheres)
  }

  /** All values are printable. */
  predicate PrintableStmt(st: Stmt) {
    match st
    case InsertS(_, _, _, _, lits) => PrintableLits(lits)
    case UpdateS(_, _, sets, wheres) => PrintableItems(sets) && PrintableItems(wheres)
    case DeleteS(_, _, wheres) => PrintableItems(wheres)
  }

  lemma {:induction false} DeleteMisread(schema: string, rel: string, wheres: seq<Item>)
    requires NamedStmt(DeleteS(schema, rel, wheres)) && !PrintableItems(wheres)
    ensures ParseQuery(Render(DeleteS(schema, rel, wheres))) != Some(DeleteQ(schema, rel, Bindings(wheres)))
  {
    var w := WhereText(wheres);
    DeleteSplits(schema, rel, w);
    DeleteKeywords(" " + schema + "." + rel + (" " + w));
    WhereMisread(wheres);
    TableBack(schema, rel, " " + w);
  }

  lemma {:induction false} UpdateMisread(schema: string, rel: string, sets: seq<Item>, wheres: seq<Item>)
    requires NamedStmt(UpdateS(schema, rel, sets, wheres)) && !(PrintableItems(sets) && PrintableItems(wheres))
    ensures ParseQuery(Render(UpdateS(schema, rel, sets, wheres))) != Some(UpdateQ(schema, rel, Bindings(sets), Bindings(wheres)))
  {
    assert EndsName(" " + SetText(sets) + (" " + WhereText(wheres)));
    hide ParseTable;
    hide Keyword;
    hide Joined;
    hide WhereText;
    hide SetText;
    var w := WhereText(wheres);
    var list := Joined(ItemTexts(sets), " , ") + (" " + w);
    var rest := " " + SetText(sets) + (" " + w);
    UpdateSplits(schema, rel, SetText(sets), w);
    UpdateKeyword(" " + schema + "." + rel + rest);
    TableBack(schema, rel, rest);
    SetKeyword(sets, " " + w);
    WhereShape(wheres);
    hide ParseList;
    if !PrintableItems(sets) {
      SetsMisread(sets, " " + w);
    } else {
      SetsParsed(sets, wheres);
      WhereMisread(wheres);
    }
  }

  /** Printable assignments are read whatever the conditions behind them are. */
  lemma {:induction false} SetsParsed(sets: seq<Item>, wheres: seq<Item>)
    requires NamedItems(sets) && PrintableItems(sets)
    ensures
      var w := " " + WhereText(wheres);
      ParseList(ParseBinding, Comma, SkipSpaces(" " + (Joined(ItemTexts(sets), " , ") + w)))
      == if sets != [] then Some((Bindings(sets), w)) else None
  {
    var w := " " + WhereText(wheres);
    WhereShape(wheres);
    if sets == [] {
      EmptySet(wheres);
    } else {
      NamedStarts(sets[0], "");
      JoinedStarts(ItemTexts(sets), " , ", w);
      OneSpace(Joined(ItemTexts(sets), " , ") + w);
      SetsBack(sets, w);
    }
  }

  lemma {:induction false} FirstUnprintableLit(lits: seq<Lit>) returns (i: nat)
    requires !PrintableLits(lits)
    ensures i < |lits| && !Printable(lits[i]) && GoodLits(lits[..i])
  {
    hide Printable;
    i := 0;
    while Printable(lits[i])
      invariant i < |lits| && GoodLits(lits[..i]) && !PrintableLits(lits)
      invariant forall k | 0 <= k < i :: Printable(lits[k])
      decreases |lits| - i
    {
      i := i + 1;
    }
  }

  /** Behind a comma the blanks are skipped, and what comes then is misread too. */
  lemma {:induction false} LitMisread(l: Lit, r: string)
    requires FollowsIn(r, false) && !Printable(l)
    ensures Misread(ParseValue, LitText(l) + r, LitValue(l))
    ensures Comma(", " + (LitText(l) + r)).Some? && Misread(ParseValue, Comma(", " + (LitText(l) + r)).value, LitValue(l))
  {
    ValueMisread(l, r);
    SkippedMisread(l, r);
    var tail := LitText(l) + r;
    assert (", " + tail)[1..] == " " + tail && (" " + tail)[1..] == tail;
  }

  lemma {:induction false} ValuesMisread(lits: seq<Lit>, rest: string)
    requires !PrintableLits(lits) && FollowsIn(rest, false)
    ensures ListMis(ParseValue, Comma, Joined(LitTexts(lits), ", ") + rest, Values(lits))
  {
    var i := FirstUnprintableLit(lits);
    var pieces, values := LitTexts(lits), Values(lits);
    forall k, r | 0 <= k < i && Follows(r)
      ensures ParseValue(pieces[k] + r) == Some((values[k], r)) && Comma(", " + (pieces[k] + r)) == Some(pieces[k] + r)
    {
      assert lits[..i][k] == lits[k];
      ValueBack(lits[k], r);
      ValueStart(lits[k], r);
      CommaBack(", ", pieces[k] + r);
    }
    forall r | FollowsIn(r, false)
      ensures Misread(ParseValue, pieces[i] + r, values[i])
      ensures Comma(", " + (pieces[i] + r)).Some? && Misread(ParseValue, Comma(", " + (pieces[i] + r)).value, values[i])
    {
      LitMisread(lits[i], r);
    }
    ListMisread(ParseValue, Comma, pieces, values, ", ", rest, i, false);
  }

  lemma {:induction false} GroupMisread(lits: seq<Lit>)
    requires !PrintableLits(lits)
    ensures Keyword("values", " " + ValuesText(lits)) == Some("(" + (Joined(LitTexts(lits), ", ") + (")" + ";")))
    ensures Misread(s => ParseGroup(ParseValue, s), "(" + (Joined(LitTexts(lits), ", ") + (")" + ";")), Values(lits))
  {
    hide ParseList;
    var end := ")" + ";";
    var list := Joined(LitTexts(lits), ", ");
    var inner := list + end;
    ValuesParts(list);
    KeywordBack("values", "VALUES", "(" + inner);
    ValuesMisread(lits, end);
    assert ("(" + inner)[1..] == inner;
    OneSpace("(" + inner);
  }

  lemma {:induction false} InsertMisread(schema: string, rel: string, cols: seq<string>, comma: bool, lits: seq<Lit>)
    requires NamedStmt(InsertS(schema, rel, cols, comma, lits)) && !PrintableLits(lits)
    ensures ParseQuery(Render(InsertS(schema, rel, cols, comma, lits))) != Some(InsertQ(schema, rel, cols, Values(lits)))
  {
    var c, v := ColumnsText(cols, comma), ValuesText(lits);
    InsertSplits(schema, rel, c, v);
    InsertKeywords(" " + schema + "." + rel + (" " + (c + v)));
    TableBack(schema, rel, " " + (c + v));
    ColumnsBack(cols, comma, v);
    GroupMisread(lits);
  }

  /** Exactly when a statement with good names reads back as what was meant: when it has the parts that a statement
      needs and all of its values are printable. */
  lemma {:induction false} TextRoundTripIff(st: Stmt)
    requires NamedStmt(st)
    ensures ParseQuery(Render(st)) == Some(MeaningOf(st)) <==> Readable(st) && PrintableStmt(st)
  {
    if PrintableStmt(st) {
      assert GoodStmt(st);
      TextRoundTrip(st);
    } else {
      match st
      case InsertS(schema, rel, cols, comma, lits) => InsertMisread(schema, rel, cols, comma, lits);
      case UpdateS(schema, rel, sets, wheres) => UpdateMisread(schema, rel, sets, wheres);
      case DeleteS(schema, rel, wheres) => DeleteMisread(schema, rel, wheres);
    }
  }
}
