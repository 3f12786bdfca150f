/** INI files: the text is split in place into NUL-terminated section headers, keys and values, and looked up
    by walking over them. */
module Ini {
  import opened OptionType
  import opened CStrings

  // ---- Pieces of text ----------------------------------------------------------------------------------------

  predicate Blank(c: char) { c == ' ' || c == '\t' || c == '\r' }

  /** strcspn: how far it is to `c`, a newline, a NUL or the end. */
  function Cspn(c: char, s: string): (n: nat)
    ensures n <= |s|
    ensures forall i | 0 <= i < n :: s[i] != c && s[i] != '\n' && s[i] != NUL
    ensures n < |s| ==> s[n] == c || s[n] == '\n' || s[n] == NUL
  {
    if s == "" || s[0] == c || s[0] == '\n' || s[0] == NUL then 0 else 1 + Cspn(c, s[1..])
  }

  /** How far it is to the newline or the end. */
  function LineLength(s: string): (n: nat)
    ensures n <= |s|
    ensures forall i | 0 <= i < n :: s[i] != '\n'
    ensures n < |s| ==> s[n] == '\n'
  {
    if s == "" || s[0] == '\n' then 0 else 1 + LineLength(s[1..])
  }

  function BlankLength(s: string): (n: nat)
    ensures n <= |s|
    ensures forall i | 0 <= i < n :: Blank(s[i])
    ensures n < |s| ==> !Blank(s[n])
  {
    if s == "" || !Blank(s[0]) then 0 else 1 + BlankLength(s[1..])
  }

  function Zeros(n: nat): (s: string)
    ensures |s| == n && forall i | 0 <= i < n :: s[i] == NUL
  {
    seq(n, _ => NUL)
  }

  /** Blanks at the end become NULs. */
  function Trimmed(s: string): (r: string)
    ensures |r| == |s|
  {
    if s != "" && Blank(s[|s| - 1]) then Trimmed(s[..|s| - 1]) + [NUL] else s
  }

  function Escaped(c: char): char {
    if c == 'r' then '\r' else if c == 'n' then '\n' else if c == 't' then '\t' else c
  }

  /** What is between the quotes, behind the opening one; it ends at a quote, at the end of the line, or at a
      backslash in front of the end of the line. */
  function Unescaped(s: string): (r: string)
    ensures |r| <= |s|
  {
    if s == "" || s[0] == '"' || s[0] == '\r' || s[0] == '\n' then ""
    else if s[0] != '\\' then [s[0]] + Unescaped(s[1..])
    else if |s| == 1 || s[1] == '\r' || s[1] == '\n' || s[1] == NUL then ""
    else [Escaped(s[1])] + Unescaped(s[2..])
  }

  // ---- What splitting makes of a text ------------------------------------------------------------------------

  /** A quoted value stays on its line. */
  lemma {:induction false} UnescapedFits(s: string)
    ensures |Unescaped(s)| <= LineLength(s)
  {
    if s == "" || s[0] == '"' || s[0] == '\r' || s[0] == '\n' {
    } else if s[0] != '\\' {
      UnescapedFits(s[1..]);
    } else if |s| == 1 || s[1] == '\r' || s[1] == '\n' || s[1] == NUL {
    } else {
      UnescapedFits(s[2..]);
      assert s[1..][1..] == s[2..];
    }
  }

  lemma {:induction false} LineLengthFrom(s: string, k: nat)
    requires k <= LineLength(s)
    ensures LineLength(s[k..]) == LineLength(s) - k
  {
    if k > 0 {
      LineLengthFrom(s[1..], k - 1);
      assert s[1..][k - 1..] == s[k..];
    }
  }

  lemma {:induction false} QuotedFits(s: string, m: nat)
    requires m < |s| && s[m] == '"' && forall i | 0 <= i <= m :: s[i] != '\n'
    ensures m + |Unescaped(s[m + 1..])| <= LineLength(s)
  {
    LineLengthFrom(s, m + 1);
    UnescapedFits(s[m + 1..]);
  }

  /** Where the value starts when the `=` is at `n`. */
  function ValueAt(s: string, n: nat): (m: nat)
    requires n < |s|
    ensures n < m <= |s|
  {
    n + 1 + BlankLength(s[n + 1..])
  }

  /** The key, and NULs up to the value. */
  function Head(s: string, n: nat): (r: string)
    requires n < |s|
    ensures |r| == ValueAt(s, n)
  {
    Trimmed(s[..n]) + Zeros(ValueAt(s, n) - n)
  }

  /** The line `s` when `head` is made of what is in front of the value, at `m`; without a value it is wiped
      out. */
  function WithValue(s: string, m: nat, head: string): (r: string)
    requires m == |head| <= |s| && forall i | 0 <= i < m :: s[i] != '\n'
    ensures |r| <= |s|
    ensures 0 < m && s[0] != '\n' ==> |r| > 0
  {
    var wiped := Zeros(LineLength(s));
    if m == |s| || s[m] == '\n' || s[m] == NUL then wiped
    else if s[m] == '"' then
      var value := Unescaped(s[m + 1..]);
      QuotedFits(s, m);
      if value == "" then wiped else head + value + Zeros(LineLength(s) - m - |value|)
    else
      head + Trimmed(s[m..m + Cspn('\n', s[m..])])
  }

  lemma {:induction false} NoValue(s: string, head: string)
    requires |head| <= |s| && forall i | 0 <= i < |head| :: s[i] != '\n'
    ensures |head| == |s| || s[|head|] == '\n' || s[|head|] == NUL ==>
      WithValue(s, |head|, head) == Zeros(LineLength(s)) && |WithValue(s, |head|, head)| == LineLength(s)
  {
  }

  lemma {:induction false} QuotedValue(s: string, head: string, value: string)
    requires |head| < |s| && (forall i | 0 <= i < |head| :: s[i] != '\n') && s[|head|] == '"'
    requires value == Unescaped(s[|head| + 1..])
    ensures |head| + |value| <= LineLength(s)
    ensures WithValue(s, |head|, head)
         == if value == "" then Zeros(LineLength(s)) else head + value + Zeros(LineLength(s) - |head| - |value|)
    ensures |WithValue(s, |head|, head)| == LineLength(s)
  {
    hide Unescaped;
    hide LineLength;
    QuotedFits(s, |head|);
  }

  lemma {:induction false} PlainValue(s: string, head: string, n: nat)
    requires |head| < |s| && forall i | 0 <= i < |head| :: s[i] != '\n'
    requires s[|head|] != '"' && s[|head|] != '\n' && s[|head|] != NUL && n == Cspn('\n', s[|head|..])
    ensures WithValue(s, |head|, head) == head + Trimmed(s[|head|..|head| + n])
    ensures |WithValue(s, |head|, head)| == |head| + n
  {
  }

  lemma {:induction false} HeadOneLine(s: string, n: nat)
    requires n < |s| && s[n] != '\n' && forall i | 0 <= i < n :: s[i] != '\n'
    ensures forall i | 0 <= i < ValueAt(s, n) :: s[i] != '\n'
  {
    forall i | 0 <= i < ValueAt(s, n) ensures s[i] != '\n' {
      if i > n {
        assert Blank(s[n + 1..][i - n - 1]);
      }
    }
  }

  /** A line that starts a key, as far as it is processed in one turn.  A line without `=` is wiped out. */
  function SplitKey(s: string): (r: string)
    requires s != "" && !Blank(s[0]) && s[0] != '\n' && s[0] != NUL
    ensures 1 <= |r| <= |s|
  {
    var n := Cspn('=', s);
    if n == |s| || s[n] != '=' then Zeros(LineLength(s))
    else
      HeadOneLine(s, n);
      WithValue(s, ValueAt(s, n), Head(s, n))
  }

  function Split(s: string): (r: string)
    ensures |r| == |s|
    decreases |s|
  {
    if s == "" then ""
    else if Blank(s[0]) || s[0] == '\n' || s[0] == NUL then [NUL] + Split(s[1..])
    else if s[0] == '[' then
      var n := Cspn(']', s);
      if n == |s| then s else s[..n] + [NUL] + Split(s[n + 1..])
    else if s[0] == ';' then
      var n := LineLength(s);
      Zeros(n) + Split(s[n..])
    else
      var r := SplitKey(s);
      r + Split(s[|r|..])
  }

  // ---- What looking up finds ---------------------------------------------------------------------------------

  function SkipNuls(s: string): (r: string)
    ensures |r| <= |s|
  {
    if s != "" && s[0] == NUL then SkipNuls(s[1..]) else s
  }

  /** The next string. */
  function Next(s: string): (r: string)
    ensures |r| <= |s| && (s != "" && s[0] != NUL ==> |r| < |s|)
  {
    SkipNuls(s[|CString(s)|..])
  }

  predicate SameName(a: string, b: string) { Lowered(a) == Lowered(b) }

  function GetFrom(s: string, current: string, section: Option<string>, key: string): Option<string>
    decreases |s|
  {
    if s == "" then None
    else if s[0] == NUL then None
    else if s[0] == '[' then GetFrom(Next(s), CString(s[1..]), section, key)
    else
      var val := Next(s);
      if (section.None? || SameName(section.value, current)) && SameName(CString(s), key) then Some(CString(val))
      else GetFrom(Next(val), current, section, key)
  }

  function Get(s: string, section: Option<string>, key: string): Option<string> {
    GetFrom(if s != "" && s[0] == NUL then Next(s) else s, "", section, key)
  }

  // ---- Documents ---------------------------------------------------------------------------------------------

  /** What a line says. */
  datatype Line = Header(name: string) | Entry(key: string, value: string)

  /** A line as it is written: with blanks around its parts, a value in quotes or not, comments, empty lines, and lines
      that are no entries. */
  datatype Written =
    | HeaderLine(before: string, name: string, after: string)
    | EntryLine(before: string, key: string, left: string, right: string, quoted: bool, value: string, after: string)
    | CommentLine(before: string, text: string)
    | EmptyLine(before: string)
    | BareLine(before: string, text: string)

  function EscapeChar(c: char): string {
    if c == '"' then "\\\"" else if c == '\\' then "\\\\" else if c == '\n' then "\\n" else if c == '\r' then "\\r"
    else if c == '\t' then "\\t" else [c]
  }

  function Escape(s: string): (r: string)
    ensures |s| <= |r|
  {
    if s == "" then "" else EscapeChar(s[0]) + Escape(s[1..])
  }

  /** A value as it is written. */
  function ValueText(quoted: bool, value: string): string {
    if quoted then "\"" + Escape(value) + "\"" else value
  }

  /** A line from its first character that is no blank to the newline. */
  function Body(w: Written): string {
    match w
    case HeaderLine(_, name, after) => "[" + name + "]" + after
    case EntryLine(_, key, left, right, quoted, value, after) => key + left + "=" + right + ValueText(quoted, value) + after
    case CommentLine(_, text) => ";" + text
    case EmptyLine(_) => ""
    case BareLine(_, text) => text
  }

  function PrintLine(w: Written): string { w.before + (Body(w) + "\n") }

  function Print(ws: seq<Written>): string {
    if ws == [] then "" else PrintLine(ws[0]) + Print(ws[1..])
  }

  predicate Without(s: string, c: char) { forall i | 0 <= i < |s| :: s[i] != c && s[i] != '\n' && s[i] != NUL }

  predicate OneLine(s: string) { forall i | 0 <= i < |s| :: s[i] != '\n' }

  predicate GapChar(c: char) { c == ' ' || c == '\t' || c == '\r' }

  /** Any run of spaces, tabs and carriage returns. */
  predicate Gap(s: string) { forall i | 0 <= i < |s| :: GapChar(s[i]) }

  /** It neither starts nor ends with one of them. */
  predicate Tight(s: string) { s != "" && !GapChar(s[0]) && !GapChar(s[|s| - 1]) }

  /** Keys hold no equals sign and do not start like a header or a comment.  A value in quotes is anything, and what is
      behind it on the line does not matter; one without quotes is on one line and does not start with one. */
  predicate Sound(w: Written) {
    && Gap(w.before)
    && match w
       case HeaderLine(_, name, after) => Without(name, ']') && Gap(after)
       case EntryLine(_, key, left, right, quoted, value, after) =>
         && Tight(key) && Without(key, '=') && key[0] != '[' && key[0] != ';' && Gap(left) && Gap(right)
         && (if quoted then NulFree(value) && OneLine(after)
             else Gap(after) && Without(value, '\n') && if value == "" then after == "" else Tight(value) && value[0] != '"')
       case CommentLine(_, text) => OneLine(text)
       case EmptyLine(_) => true
       case BareLine(_, text) => text != "" && Without(text, '=') && !GapChar(text[0]) && text[0] != '[' && text[0] != ';'
  }

  predicate AllSound(ws: seq<Written>) { forall i | 0 <= i < |ws| :: Sound(ws[i]) }

  /** A header, or an entry unless its value is empty. */
  function Means(w: Written): seq<Line> {
    match w
    case HeaderLine(_, name, _) => [Header(name)]
    case EntryLine(_, key, _, _, _, value, _) => if value == "" then [] else [Entry(key, value)]
    case _ => []
  }

  function Document(ws: seq<Written>): seq<Line> { if ws == [] then [] else Means(ws[0]) + Document(ws[1..]) }

  /** The section that the lines behind `l` are in. */
  function Section(l: Line, current: string): string { if l.Header? then l.name else current }

  predicate Hit(l: Line, current: string, section: Option<string>, key: string) {
    l.Entry? && (section.None? || SameName(section.value, current)) && SameName(l.key, key)
  }

  /** The first entry whose section and key match, whatever their case. */
  function Lookup(lines: seq<Line>, current: string, section: Option<string>, key: string): Option<string> {
    if lines == [] then None
    else if Hit(lines[0], current, section, key) then Some(lines[0].value)
    else Lookup(lines[1..], Section(lines[0], current), section, key)
  }

  /** Names that differ in nothing but the case of the letters A to Z. */
  lemma {:induction false} SameNameIff(a: string, b: string)
    ensures SameName(a, b) <==> |a| == |b| && forall i | 0 <= i < |a| ::
      a[i] == b[i] || ('A' <= a[i] <= 'Z' && b[i] as int == a[i] as int + 32) || ('A' <= b[i] <= 'Z' && a[i] as int == b[i] as int + 32)
  {
    if SameName(a, b) {
      forall i | 0 <= i < |a| ensures Lower(a[i]) == Lower(b[i]) {
        assert Lowered(a)[i] == Lowered(b)[i];
      }
    } else if |a| == |b| {
      var i :| 0 <= i < |a| && Lowered(a)[i] != Lowered(b)[i];
      assert Lower(a[i]) != Lower(b[i]);
    }
  }

  // ---- Splitting a printed line ------------------------------------------------------------------------------

  lemma {:induction false} CspnIs(c: char, s: string, n: nat)
    requires n < |s| && Without(s[..n], c) && s[n] == c
    ensures Cspn(c, s) == n
  {
  }

  lemma {:induction false} LineLengthIs(s: string, n: nat)
    requires n < |s| && (forall i | 0 <= i < n :: s[i] != '\n') && s[n] == '\n'
    ensures LineLength(s) == n
  {
  }

  lemma {:induction false} EscapeOneLine(v: string)
    ensures forall i | 0 <= i < |Escape(v)| :: Escape(v)[i] != '\n'
  {
    if v != "" {
      EscapeOneLine(v[1..]);
    }
  }

  lemma {:induction false} UnescapeOne(c: char, tail: string)
    requires c != NUL
    ensures Unescaped(EscapeChar(c) + tail) == [c] + Unescaped(tail)
  {
    var s := EscapeChar(c) + tail;
    if |EscapeChar(c)| == 2 {
      assert s[2..] == tail;
    } else {
      assert s[1..] == tail;
    }
  }

  lemma {:induction false} UnescapeBack(v: string, rest: string)
    requires forall i | 0 <= i < |v| :: v[i] != NUL
    ensures Unescaped(Escape(v) + ("\"" + rest)) == v
  {
    if v != "" {
      var tail := Escape(v[1..]) + ("\"" + rest);
      assert Escape(v) + ("\"" + rest) == EscapeChar(v[0]) + tail;
      UnescapeOne(v[0], tail);
      UnescapeBack(v[1..], rest);
      assert [v[0]] + v[1..] == v;
    }
  }

  /** What the escapes in a quoted value stand for; any other character behind a backslash stands for itself. */
  lemma {:induction false} EscapesAre(c: char, rest: string)
    requires c != '\r' && c != '\n' && c != NUL
    ensures Unescaped("\\" + [c] + rest)
         == (if c == 'n' then "\n" else if c == 'r' then "\r" else if c == 't' then "\t" else [c]) + Unescaped(rest)
  {
    assert ("\\" + [c] + rest)[2..] == rest;
  }

  /** A value in quotes ends at a quote, at the end of its line, which a carriage return is too, or with the text. */
  lemma {:induction false} QuotedEndsAt(v: string, rest: string)
    requires forall i | 0 <= i < |v| :: v[i] != '"' && v[i] != '\\' && v[i] != '\r' && v[i] != '\n'
    requires rest == "" || rest[0] == '"' || rest[0] == '\r' || rest[0] == '\n'
    ensures Unescaped(v + rest) == v
  {
    if v == "" {
      assert v + rest == rest;
    } else {
      assert (v + rest)[1..] == v[1..] + rest;
      QuotedEndsAt(v[1..], rest);
    }
  }

  lemma {:induction false} GapSplits(g: string, rest: string)
    requires Gap(g)
    ensures Split(g + rest) == Zeros(|g|) + Split(rest)
  {
    if g == "" {
      assert g + rest == rest && Zeros(0) + Split(rest) == Split(rest);
    } else {
      assert (g + rest)[1..] == g[1..] + rest;
      GapSplits(g[1..], rest);
      assert [NUL] + (Zeros(|g| - 1) + Split(rest)) == Zeros(|g|) + Split(rest);
    }
  }

  lemma {:induction false} NewlineSplits(rest: string)
    ensures Split("\n" + rest) == [NUL] + Split(rest)
  {
    assert ("\n" + rest)[1..] == rest;
  }

  /** Blanks behind a text become NULs. */
  lemma {:induction false} TrimsGap(s: string, g: string)
    requires Gap(g) && (s == "" || !GapChar(s[|s| - 1]))
    ensures Trimmed(s + g) == s + Zeros(|g|)
  {
    if g == "" {
      assert s + g == s && s + Zeros(0) == s;
    } else {
      var n := |g| - 1;
      assert (s + g)[..|s| + n] == s + g[..n];
      TrimsGap(s, g[..n]);
      assert s + Zeros(n) + [NUL] == s + Zeros(|g|);
    }
  }

  lemma {:induction false} GapLength(g: string, rest: string)
    requires Gap(g) && rest != "" && !GapChar(rest[0])
    ensures BlankLength(g + rest) == |g|
  {
    if g == "" {
      assert g + rest == rest;
    } else {
      assert (g + rest)[1..] == g[1..] + rest;
      GapLength(g[1..], rest);
    }
  }

  /** What is made of the parts of a line. */
  function SplitLine(w: Written): string {
    match w
    case HeaderLine(before, name, after) => Zeros(|before|) + ("[" + name + Zeros(|after| + 2))
    case EntryLine(before, key, _, _, _, value, _) =>
      if value == "" then Zeros(|PrintLine(w)|) else Zeros(|before|) + (SplitEntry(w) + [NUL])
    case _ => Zeros(|PrintLine(w)|)
  }

  /** How many NULs there are behind the value, without the one of the newline. */
  function Behind(w: Written): nat
    requires w.EntryLine?
  {
    |w.after| + if w.quoted then |Escape(w.value)| + 2 - |w.value| else 0
  }

  function SplitEntry(w: Written): string
    requires w.EntryLine?
  {
    w.key + Zeros(|w.left| + 1 + |w.right|) + w.value + Zeros(Behind(w))
  }

  function SplitLines(ws: seq<Written>): string {
    if ws == [] then "" else SplitLine(ws[0]) + SplitLines(ws[1..])
  }

  lemma {:induction false} HeaderParts(name: string, behind: string)
    ensures
      var s, n := "[" + name + "]" + behind, |name| + 1;
      && s[0] == '[' && s[..n] == "[" + name && s[n] == ']' && s[n + 1..] == behind
  {
  }

  lemma {:induction false} HeaderSplits(w: Written, rest: string)
    requires w.HeaderLine? && Sound(w)
    ensures Split(Body(w) + ("\n" + rest)) == "[" + w.name + Zeros(|w.after| + 2) + Split(rest)
  {
    hide Split;
    var behind := w.after + ("\n" + rest);
    var s, n := "[" + w.name + "]" + behind, |w.name| + 1;
    assert Body(w) + ("\n" + rest) == s;
    HeaderParts(w.name, behind);
    CspnIs(']', s, n);
    HeaderCut(s, n);
    GapSplits(w.after, "\n" + rest);
    NewlineSplits(rest);
    HeaderJoins(w.name, |w.after|, Split(rest));
  }

  lemma {:induction false} HeaderCut(s: string, n: nat)
    requires s != "" && s[0] == '[' && n == Cspn(']', s) < |s|
    ensures Split(s) == s[..n] + [NUL] + Split(s[n + 1..])
  {
  }

  lemma {:induction false} HeaderJoins(name: string, k: nat, split: string)
    ensures ("[" + name) + [NUL] + (Zeros(k) + ([NUL] + split)) == "[" + name + Zeros(k + 2) + split
  {
    assert Zeros(k + 2) == [NUL] + Zeros(k) + [NUL];
  }

  lemma {:induction false} KeyLineSplits(s: string)
    requires s != "" && !Blank(s[0]) && s[0] != '\n' && s[0] != NUL && s[0] != '[' && s[0] != ';'
    ensures Split(s) == SplitKey(s) + Split(s[|SplitKey(s)|..])
  {
    hide SplitKey;
  }

  /** A line that is wiped out. */
  lemma {:induction false} WipedSplits(body: string, rest: string)
    requires OneLine(body)
    requires body == "" || body[0] == ';' ||
      (!Blank(body[0]) && body[0] != NUL && body[0] != '[' && SplitKey(body + ("\n" + rest)) == Zeros(|body|))
    ensures Split(body + ("\n" + rest)) == Zeros(|body| + 1) + Split(rest)
  {
    hide SplitKey;
    var s := body + ("\n" + rest);
    LineLengthIs(s, |body|);
    assert s[|body|..] == "\n" + rest;
    NewlineSplits(rest);
    assert Zeros(|body| + 1) == Zeros(|body|) + [NUL];
    if body == "" {
      assert s == "\n" + rest && Zeros(0) == "";
    } else if body[0] != ';' {
      KeyLineSplits(s);
    }
    assert Zeros(|body|) + ([NUL] + Split(rest)) == Zeros(|body| + 1) + Split(rest);
  }

  /** A line without an equals sign. */
  lemma {:induction false} BareWiped(text: string, rest: string)
    requires text != "" && Without(text, '=') && !Blank(text[0])
    ensures SplitKey(text + ("\n" + rest)) == Zeros(|text|)
  {
    var s := text + ("\n" + rest);
    CspnStops('=', s, |text|);
    LineLengthIs(s, |text|);
  }

  lemma {:induction false} CspnStops(c: char, s: string, n: nat)
    requires n < |s| && Without(s[..n], c) && s[n] == '\n'
    ensures Cspn(c, s) == n
  {
  }

  lemma {:induction false} SixParts(key: string, left: string, right: string, v: string, after: string, rest: string)
    ensures
      var s, n, behind := key + left + "=" + right + v + after + ("\n" + rest), |key| + |left|, v + (after + ("\n" + rest));
      && s[..n] == key + left && s[n] == '=' && s[n + 1..] == right + behind
      && s[n + 1 + |right|..] == behind && |s| == n + 1 + |right| + |behind|
  {
    var behind := v + (after + ("\n" + rest));
    assert key + left + "=" + right + v + after + ("\n" + rest) == key + left + "=" + right + behind;
  }

  /** An entry in its parts: the key with the blanks behind it, the equals sign, the blanks, and what is behind them. */
  lemma {:induction false} EntryParts(w: Written, rest: string)
    requires w.EntryLine?
    ensures
      var s, n := Body(w) + ("\n" + rest), |w.key| + |w.left|;
      var behind := ValueText(w.quoted, w.value) + (w.after + ("\n" + rest));
      && s[..n] == w.key + w.left && s[n] == '=' && s[n + 1..] == w.right + behind
      && s[n + 1 + |w.right|..] == behind && |s| == n + 1 + |w.right| + |behind|
  {
    hide ValueText;
    SixParts(w.key, w.left, w.right, ValueText(w.quoted, w.value), w.after, rest);
  }

  /** The first equals sign is behind the key and its blanks. */
  lemma {:induction false} KeyEndsAt(key: string, left: string, s: string)
    requires Without(key, '=') && Gap(left) && |key| + |left| < |s| && s[..|key| + |left|] == key + left && s[|key| + |left|] == '='
    ensures Cspn('=', s) == |key| + |left|
  {
    var n, k := |key| + |left|, key + left;
    forall i | 0 <= i < n ensures k[i] != '=' && k[i] != '\n' && k[i] != NUL {
      assert k[i] == if i < |key| then key[i] else left[i - |key|];
      assert i >= |key| ==> GapChar(left[i - |key|]);
    }
    CspnIs('=', s, n);
  }

  lemma {:induction false} KeyZeros(key: string, a: nat, b: nat)
    ensures key + Zeros(a) + Zeros(1 + b) == key + Zeros(a + 1 + b)
  {
    assert Zeros(a) + Zeros(1 + b) == Zeros(a + 1 + b);
  }

  /** What is in front of the value. */
  lemma {:induction false} HeadIs(w: Written, rest: string)
    requires w.EntryLine? && Sound(w)
    ensures
      var s, n := Body(w) + ("\n" + rest), |w.key| + |w.left|;
      && Cspn('=', s) == n < |s| && s[n] == '=' && ValueAt(s, n) == n + 1 + |w.right|
      && Head(s, n) == w.key + Zeros(|w.left| + 1 + |w.right|)
  {
    hide Escape;
    hide ValueText;
    hide Body;
    hide Cspn;
    hide Trimmed;
    hide BlankLength;
    hide GapChar;
    var s := Body(w) + ("\n" + rest);
    EntryParts(w, rest);
    KeyEndsAt(w.key, w.left, s);
    TrimsGap(w.key, w.left);
    BehindStarts(w, rest);
    GapLength(w.right, ValueText(w.quoted, w.value) + (w.after + ("\n" + rest)));
    KeyZeros(w.key, |w.left|, |w.right|);
  }

  lemma {:induction false} BehindStarts(w: Written, rest: string)
    requires w.EntryLine? && Sound(w)
    ensures
      var behind := ValueText(w.quoted, w.value) + (w.after + ("\n" + rest));
      behind != "" && !GapChar(behind[0])
  {
  }

  /** The line is on one line. */
  lemma {:induction false} EntryOneLine(w: Written, rest: string)
    requires w.EntryLine? && Sound(w)
    ensures OneLine(Body(w)) && LineLength(Body(w) + ("\n" + rest)) == |Body(w)|
  {
    EscapeOneLine(w.value);
    var v := ValueText(w.quoted, w.value);
    assert OneLine(w.key) && OneLine(w.left) && OneLine(w.right) && OneLine(v) && OneLine(w.after);
    OneLines(w.key, w.left);
    OneLines(w.key + w.left, "=");
    OneLines(w.key + w.left + "=", w.right);
    OneLines(w.key + w.left + "=" + w.right, v);
    OneLines(w.key + w.left + "=" + w.right + v, w.after);
    LineLengthIs(Body(w) + ("\n" + rest), |Body(w)|);
  }

  lemma {:induction false} OneLines(a: string, b: string)
    requires OneLine(a) && OneLine(b)
    ensures OneLine(a + b)
  {
  }

  lemma {:induction false} HeadInFront(s: string, n: nat)
    requires n <= |s| && OneLine(s[..n])
    ensures forall i | 0 <= i < n :: s[i] != '\n'
  {
    forall i | 0 <= i < n ensures s[i] != '\n' {
      assert s[i] == s[..n][i];
    }
  }

  /** A value in quotes behind `head`. */
  lemma {:induction false} QuotedBehind(s: string, head: string, value: string, behind: string)
    requires |head| < |s| && OneLine(s[..|head|]) && NulFree(value)
    requires s[|head|..] == "\"" + (Escape(value) + ("\"" + behind))
    ensures |head| + |value| <= LineLength(s)
    ensures WithValue(s, |head|, head)
         == if value == "" then Zeros(LineLength(s)) else head + value + Zeros(LineLength(s) - |head| - |value|)
  {
    hide Escape;
    hide Unescaped;
    hide LineLength;
    hide WithValue;
    assert s[|head|] == s[|head|..][0] && s[|head| + 1..] == s[|head|..][1..] == Escape(value) + ("\"" + behind);
    UnescapeBack(value, behind);
    HeadInFront(s, |head|);
    QuotedValue(s, head, value);
  }

  /** A value without quotes behind `head`. */
  lemma {:induction false} PlainBehind(s: string, head: string, value: string, after: string, behind: string)
    requires |head| < |s| && OneLine(s[..|head|]) && s[|head|..] == value + (after + ("\n" + behind))
    requires Gap(after) && Without(value, '\n') && Tight(value) && value[0] != '"'
    ensures WithValue(s, |head|, head) == head + (value + Zeros(|after|))
  {
    hide WithValue;
    var n, w := |value| + |after|, value + after;
    assert s[|head|..] == w + ("\n" + behind) && s[|head|] == s[|head|..][0];
    HeadInFront(s, |head|);
    forall i | 0 <= i < n ensures w[i] != '\n' && w[i] != NUL {
      assert i >= |value| ==> w[i] == after[i - |value|] && GapChar(w[i]);
    }
    UpTo(w, behind);
    TrimsGap(value, after);
    FirstSlice(s, |head|, n);
    PlainValue(s, head, n);
  }

  lemma {:induction false} UpTo(w: string, behind: string)
    requires Without(w, '\n')
    ensures var t := w + ("\n" + behind); Cspn('\n', t) == |w| && t[..|w|] == w
  {
    CspnStops('\n', w + ("\n" + behind), |w|);
  }

  lemma {:induction false} FirstSlice(s: string, m: nat, n: nat)
    requires m + n <= |s|
    ensures s[m..m + n] == s[m..][..n]
  {
  }

  lemma {:induction false} InQuotes(e: string, behind: string)
    ensures "\"" + e + "\"" + behind == "\"" + (e + ("\"" + behind))
  {
  }

  lemma {:induction false} QuotedParts(w: Written, rest: string, s: string, m: nat)
    requires w.EntryLine? && w.quoted && s == Body(w) + ("\n" + rest) && m == |w.key| + |w.left| + 1 + |w.right| < |s|
    ensures s[m..] == "\"" + (Escape(w.value) + ("\"" + (w.after + ("\n" + rest))))
    ensures |Body(w)| == m + |w.value| + Behind(w)
  {
    hide Escape;
    hide Body;
    EntryParts(w, rest);
    InQuotes(Escape(w.value), w.after + ("\n" + rest));
  }

  lemma {:induction false} EntryIs(w: Written, head: string, n: nat)
    requires w.EntryLine? && head == w.key + Zeros(|w.left| + 1 + |w.right|) && n == |head| + |w.value| + Behind(w)
    ensures head + w.value + Zeros(n - |head| - |w.value|) == SplitEntry(w)
  {
  }

  lemma {:induction false} SplitQuotedIs(w: Written, rest: string, s: string, head: string)
    requires w.EntryLine? && Sound(w) && w.quoted && s == Body(w) + ("\n" + rest)
    requires head == w.key + Zeros(|w.left| + 1 + |w.right|) && |head| < |s| && OneLine(s[..|head|])
    requires LineLength(s) == |Body(w)|
    ensures WithValue(s, |head|, head) == if w.value == "" then Zeros(|Body(w)|) else SplitEntry(w)
  {
    hide Escape;
    hide LineLength;
    hide WithValue;
    hide Body;
    hide SplitEntry;
    hide OneLine;
    hide Gap;
    hide ValueText;
    hide Behind;
    QuotedParts(w, rest, s, |head|);
    QuotedBehind(s, head, w.value, w.after + ("\n" + rest));
    EntryIs(w, head, |Body(w)|);
  }

  lemma {:induction false} SplitPlainIs(w: Written, rest: string, s: string, head: string)
    requires w.EntryLine? && Sound(w) && !w.quoted && s == Body(w) + ("\n" + rest)
    requires head == w.key + Zeros(|w.left| + 1 + |w.right|) && |head| < |s| && OneLine(s[..|head|])
    requires LineLength(s) == |Body(w)|
    ensures WithValue(s, |head|, head) == if w.value == "" then Zeros(|Body(w)|) else SplitEntry(w)
  {
    hide Escape;
    hide LineLength;
    hide WithValue;
    hide Body;
    hide Cspn;
    hide Trimmed;
    EntryParts(w, rest);
    Alone(w.after + ("\n" + rest));
    if w.value == "" {
      assert s[|head|] == s[|head|..][0] == '\n';
      HeadInFront(s, |head|);
      NoValue(s, head);
    } else {
      PlainBehind(s, head, w.value, w.after, rest);
      Regrouped(head, w.value, Zeros(|w.after|));
      EntryIs(w, head, |head| + |w.value| + |w.after|);
    }
  }

  /** The line of an entry becomes its key, NULs, its value without its escapes, and NULs; without a value it is wiped
      out. */
  lemma {:induction false} SplitKeyIs(w: Written, rest: string)
    requires w.EntryLine? && Sound(w)
    ensures SplitKey(Body(w) + ("\n" + rest)) == if w.value == "" then Zeros(|Body(w)|) else SplitEntry(w)
  {
    hide Escape;
    hide LineLength;
    hide WithValue;
    hide Head;
    hide ValueAt;
    hide Sound;
    hide Body;
    hide SplitEntry;
    var s, n := Body(w) + ("\n" + rest), |w.key| + |w.left|;
    var head := w.key + Zeros(|w.left| + 1 + |w.right|);
    EntryStarts(w, rest);
    HeadIs(w, rest);
    EntryOneLine(w, rest);
    HeadOneLine(s, n);
    if w.quoted {
      SplitQuotedIs(w, rest, s, head);
    } else {
      SplitPlainIs(w, rest, s, head);
    }
  }

  lemma {:induction false} EntryStarts(w: Written, rest: string)
    requires w.EntryLine? && Sound(w)
    ensures
      var s := Body(w) + ("\n" + rest);
      Body(w) != "" && Body(w)[0] == s[0] && !Blank(s[0]) && s[0] != '\n' && s[0] != NUL && s[0] != '[' && s[0] != ';'
  {
    hide Escape;
    assert Body(w)[0] == w.key[0];
  }

  lemma {:induction false} EntrySplits(w: Written, rest: string)
    requires w.EntryLine? && Sound(w)
    ensures Split(Body(w) + ("\n" + rest))
         == (if w.value == "" then Zeros(|Body(w)| + 1) else SplitEntry(w) + [NUL]) + Split(rest)
  {
    hide SplitKey;
    hide Split;
    hide Sound;
    hide Body;
    hide SplitEntry;
    var s := Body(w) + ("\n" + rest);
    EntryStarts(w, rest);
    EntryOneLine(w, rest);
    SplitKeyIs(w, rest);
    if w.value == "" {
      WipedSplits(Body(w), rest);
    } else {
      EntryLength(w);
      KeyLineSplits(s);
      assert s[|Body(w)|..] == "\n" + rest;
      NewlineSplits(rest);
      Regrouped(SplitEntry(w), [NUL], Split(rest));
    }
  }

  lemma {:induction false} EntryLength(w: Written)
    requires w.EntryLine?
    ensures |SplitEntry(w)| == |Body(w)|
  {
  }

  /** A line becomes its parts with NULs around them, whatever its layout. */
  lemma {:induction false} LineSplits(w: Written, rest: string)
    requires Sound(w)
    ensures Split(PrintLine(w) + rest) == SplitLine(w) + Split(rest)
  {
    hide Split;
    hide Body;
    hide SplitEntry;
    Regrouped(w.before, Body(w) + "\n", rest);
    Regrouped(Body(w), "\n", rest);
    GapSplits(w.before, Body(w) + ("\n" + rest));
    var k := |w.before|;
    match w
    case HeaderLine(_, name, after) =>
      HeaderSplits(w, rest);
      Regrouped(Zeros(k), "[" + name + Zeros(|after| + 2), Split(rest));
    case EntryLine(_, _, _, _, _, value, _) =>
      EntrySplits(w, rest);
      if value == "" {
        MoreZeros(k, |Body(w)| + 1, Split(rest));
      } else {
        Regrouped(Zeros(k), SplitEntry(w) + [NUL], Split(rest));
      }
    case _ =>
      OtherWiped(w, rest);
      MoreZeros(k, |Body(w)| + 1, Split(rest));
  }

  lemma {:induction false} OtherWiped(w: Written, rest: string)
    requires Sound(w) && !w.HeaderLine? && !w.EntryLine?
    ensures Split(Body(w) + ("\n" + rest)) == Zeros(|Body(w)| + 1) + Split(rest)
  {
    hide SplitKey;
    if w.BareLine? {
      BareWiped(w.text, rest);
    }
    WipedSplits(Body(w), rest);
  }

  lemma {:induction false} MoreZeros(k: nat, n: nat, rest: string)
    ensures Zeros(k) + (Zeros(n) + rest) == Zeros(k + n) + rest
  {
    assert Zeros(k) + Zeros(n) == Zeros(k + n);
  }

  lemma {:induction false} LinesSplit(ws: seq<Written>)
    requires AllSound(ws)
    ensures Split(Print(ws)) == SplitLines(ws)
  {
    if ws != [] {
      hide Split;
      LinesSplit(ws[1..]);
      LineSplits(ws[0], Print(ws[1..]));
    }
  }

  // ---- Looking up in a split document ------------------------------------------------------------------------

  lemma {:induction false} SkipZeros(k: nat, rest: string)
    ensures SkipNuls(Zeros(k) + rest) == SkipNuls(rest)
  {
    if k == 0 {
      assert Zeros(0) + rest == rest;
    } else {
      assert (Zeros(k) + rest)[1..] == Zeros(k - 1) + rest;
      SkipZeros(k - 1, rest);
    }
  }

  /** A string, NULs, and what comes next. */
  lemma {:induction false} NextIs(v: string, k: nat, rest: string)
    requires NulFree(v) && k > 0
    ensures CString(v + Zeros(k) + rest) == v && Next(v + Zeros(k) + rest) == SkipNuls(rest)
  {
    var s := v + Zeros(k) + rest;
    assert Zeros(k) == [NUL] + Zeros(k - 1);
    assert s == v + [NUL] + (Zeros(k - 1) + rest);
    CStringStops(v, Zeros(k - 1) + rest);
    assert s[|v|..] == Zeros(k) + rest;
    SkipZeros(k, rest);
  }

  lemma {:induction false} HeaderFound(name: string, k: nat, rest: string, current: string, section: Option<string>, key: string)
    requires Without(name, ']') && k > 0
    ensures GetFrom("[" + name + Zeros(k) + rest, current, section, key) == GetFrom(SkipNuls(rest), name, section, key)
  {
    var s := "[" + name + Zeros(k) + rest;
    NextIs("[" + name, k, rest);
    assert s[1..] == name + Zeros(k) + rest;
    NextIs(name, k, rest);
  }

  lemma {:induction false} EntryFound(k: string, a: nat, v: string, z: nat, rest: string, current: string,
                                      section: Option<string>, key: string)
    requires k != "" && k[0] != '[' && NulFree(k) && NulFree(v) && v != "" && a > 0 && z > 0
    ensures GetFrom(k + Zeros(a) + (v + Zeros(z) + rest), current, section, key)
         == if Hit(Entry(k, v), current, section, key) then Some(v) else GetFrom(SkipNuls(rest), current, section, key)
  {
    var tail := v + Zeros(z) + rest;
    assert tail[0] == v[0] && (k + Zeros(a) + tail)[0] == k[0];
    NextIs(v, z, rest);
    NextIs(k, a, tail);
  }

  /** What is found from a list of lines on, in front of the text `rest`. */
  function Found(lines: seq<Line>, rest: string, current: string, section: Option<string>, key: string): Option<string>
    requires |lines| <= 1
  {
    if lines != [] && Hit(lines[0], current, section, key) then Some(lines[0].value)
    else GetFrom(SkipNuls(rest), if lines == [] then current else Section(lines[0], current), section, key)
  }

  lemma {:induction false} LineFound(w: Written, rest: string, current: string, section: Option<string>, key: string)
    requires Sound(w)
    ensures GetFrom(SkipNuls(SplitLine(w) + rest), current, section, key) == Found(Means(w), rest, current, section, key)
  {
    hide GetFrom;
    hide PrintLine;
    hide Escape;
    match w
    case HeaderLine(before, name, after) =>
      var text := "[" + name + Zeros(|after| + 2);
      Regrouped(Zeros(|before|), text, rest);
      SkipZeros(|before|, text + rest);
      HeaderFound(name, |after| + 2, rest, current, section, key);
    case EntryLine(before, k, left, right, _, v, _) =>
      if v == "" {
        SkipZeros(|PrintLine(w)|, rest);
      } else {
        var a, z := |left| + 1 + |right|, Behind(w) + 1;
        Regrouped(Zeros(|before|), SplitEntry(w) + [NUL], rest);
        EntryText(k, a, v, z, rest);
        SkipZeros(|before|, SplitEntry(w) + [NUL] + rest);
        EntryFound(k, a, v, z, rest, current, section, key);
      }
    case _ =>
      SkipZeros(|PrintLine(w)|, rest);
  }

  lemma {:induction false} EntryText(k: string, a: nat, v: string, z: nat, rest: string)
    requires z > 0
    ensures k + Zeros(a) + v + Zeros(z - 1) + [NUL] + rest == k + Zeros(a) + (v + Zeros(z) + rest)
  {
    assert Zeros(z) == Zeros(z - 1) + [NUL];
  }

  lemma {:induction false} LinesFound(ws: seq<Written>, current: string, section: Option<string>, key: string)
    requires AllSound(ws)
    ensures GetFrom(SkipNuls(SplitLines(ws)), current, section, key) == Lookup(Document(ws), current, section, key)
  {
    if ws != [] {
      hide GetFrom;
      hide SplitLine;
      var lines, more := Means(ws[0]), Document(ws[1..]);
      LineFound(ws[0], SplitLines(ws[1..]), current, section, key);
      LinesFound(ws[1..], if lines == [] then current else Section(lines[0], current), section, key);
      if lines == [] {
        assert lines + more == more;
      } else {
        assert (lines + more)[1..] == more;
      }
    }
  }

  lemma {:induction false} GetIs(s: string, section: Option<string>, key: string)
    ensures Get(s, section, key) == GetFrom(SkipNuls(s), "", section, key)
  {
    if s != "" && s[0] == NUL {
      assert s[|CString(s)|..] == s;
    }
  }

  // ---- The end of the text -------------------------------------------------------------------------------------

  lemma {:induction false} UnescapedEnds(s: string)
    ensures Unescaped(s + "\n") == Unescaped(s)
  {
    var t := s + "\n";
    if s == "" || s[0] == '"' || s[0] == '\r' || s[0] == '\n' {
    } else if s[0] != '\\' {
      assert t[1..] == s[1..] + "\n";
      UnescapedEnds(s[1..]);
    } else if |s| == 1 || s[1] == '\r' || s[1] == '\n' || s[1] == NUL {
    } else {
      assert t[2..] == s[2..] + "\n";
      UnescapedEnds(s[2..]);
    }
  }

  lemma {:induction false} LengthsEnd(s: string, c: char)
    ensures Cspn(c, s + "\n") == Cspn(c, s) && LineLength(s + "\n") == LineLength(s) && BlankLength(s + "\n") == BlankLength(s)
  {
    if s != "" {
      assert (s + "\n")[1..] == s[1..] + "\n";
      LengthsEnd(s[1..], c);
    }
  }

  lemma {:induction false} QuotedEnds(s: string, head: string)
    requires |head| < |s| && (forall i | 0 <= i < |head| :: s[i] != '\n') && s[|head|] == '"'
    ensures WithValue(s + "\n", |head|, head) == WithValue(s, |head|, head)
  {
    hide WithValue;
    hide Unescaped;
    hide Cspn;
    hide LineLength;
    var t, m := s + "\n", |head|;
    LengthsEnd(s, '=');
    assert t[m + 1..] == s[m + 1..] + "\n";
    UnescapedEnds(s[m + 1..]);
    QuotedValue(s, head, Unescaped(s[m + 1..]));
    QuotedValue(t, head, Unescaped(t[m + 1..]));
  }

  lemma {:induction false} PlainEnds(s: string, head: string)
    requires |head| < |s| && forall i | 0 <= i < |head| :: s[i] != '\n'
    requires s[|head|] != '"' && s[|head|] != '\n' && s[|head|] != NUL
    ensures WithValue(s + "\n", |head|, head) == WithValue(s, |head|, head)
  {
    hide WithValue;
    hide Trimmed;
    hide Cspn;
    var t, m := s + "\n", |head|;
    assert t[m..] == s[m..] + "\n";
    LengthsEnd(s[m..], '\n');
    var n := Cspn('\n', s[m..]);
    assert t[m..m + n] == s[m..m + n];
    PlainValue(s, head, n);
    PlainValue(t, head, n);
  }

  lemma {:induction false} WithValueEnds(s: string, head: string)
    requires |head| <= |s| && forall i | 0 <= i < |head| :: s[i] != '\n'
    ensures WithValue(s + "\n", |head|, head) == WithValue(s, |head|, head)
  {
    hide WithValue;
    hide LineLength;
    if |head| == |s| || s[|head|] == '\n' || s[|head|] == NUL {
      LengthsEnd(s, '=');
      NoValue(s, head);
      NoValue(s + "\n", head);
    } else if s[|head|] == '"' {
      QuotedEnds(s, head);
    } else {
      PlainEnds(s, head);
    }
  }

  lemma {:induction false} SplitKeyEnds(s: string)
    requires s != "" && !Blank(s[0]) && s[0] != '\n' && s[0] != NUL
    ensures SplitKey(s + "\n") == SplitKey(s)
  {
    hide WithValue;
    hide Trimmed;
    hide Cspn;
    hide LineLength;
    hide BlankLength;
    var t, n := s + "\n", Cspn('=', s);
    LengthsEnd(s, '=');
    if n < |s| && s[n] == '=' {
      assert t[n + 1..] == s[n + 1..] + "\n" && t[..n] == s[..n];
      LengthsEnd(s[n + 1..], '=');
      HeadOneLine(s, n);
      HeadOneLine(t, n);
      WithValueEnds(s, Head(s, n));
    }
  }

  /** A newline more at the end is a NUL more. */
  lemma {:induction false} SplitEnds(s: string)
    ensures Split(s + "\n") == Split(s) + [NUL]
    decreases |s|
  {
    hide SplitKey;
    hide Cspn;
    hide LineLength;
    var t := s + "\n";
    if s == "" {
      assert t[1..] == "";
    } else if Blank(s[0]) || s[0] == '\n' || s[0] == NUL {
      assert t[1..] == s[1..] + "\n";
      SplitEnds(s[1..]);
    } else if s[0] == '[' {
      HeaderEnds(s);
    } else {
      var r := if s[0] == ';' then Zeros(LineLength(s)) else SplitKey(s);
      LengthsEnd(s, '=');
      if s[0] != ';' {
        SplitKeyEnds(s);
      } else {
        CommentStarts(s);
      }
      assert t[|r|..] == s[|r|..] + "\n";
      SplitEnds(s[|r|..]);
    }
  }

  lemma {:induction false} CommentStarts(s: string)
    requires s != "" && s[0] == ';'
    ensures LineLength(s) > 0
  {
  }

  lemma {:induction false} HeaderEnds(s: string)
    requires s != "" && s[0] == '['
    ensures Split(s + "\n") == Split(s) + [NUL]
    decreases |s|, 0
  {
    hide Cspn;
    var t, n := s + "\n", Cspn(']', s);
    LengthsEnd(s, ']');
    assert t[..n] == s[..n];
    if n < |s| {
      assert t[n + 1..] == s[n + 1..] + "\n";
      SplitEnds(s[n + 1..]);
    } else {
      assert t[n + 1..] == "" && s[..n] == s;
    }
  }

  lemma {:induction false} SkipEnds(s: string)
    ensures SkipNuls(s + [NUL]) == if SkipNuls(s) == "" then "" else SkipNuls(s) + [NUL]
  {
    if s != "" && s[0] == NUL {
      assert (s + [NUL])[1..] == s[1..] + [NUL];
      SkipEnds(s[1..]);
    } else if s == "" {
      assert [NUL][1..] == "";
    }
  }

  lemma {:induction false} CStringEnds(s: string)
    ensures CString(s + [NUL]) == CString(s)
  {
    if s != "" && s[0] != NUL {
      assert (s + [NUL])[1..] == s[1..] + [NUL];
      CStringEnds(s[1..]);
    }
  }

  lemma {:induction false} NextEnds(s: string)
    ensures Next(s + [NUL]) == if Next(s) == "" then "" else Next(s) + [NUL]
  {
    CStringEnds(s);
    var n := |CString(s)|;
    assert (s + [NUL])[n..] == s[n..] + [NUL];
    SkipEnds(s[n..]);
  }

  /** A NUL more at the end changes nothing that is found. */
  lemma {:induction false} GetFromEnds(s: string, current: string, section: Option<string>, key: string)
    ensures GetFrom(s + [NUL], current, section, key) == GetFrom(s, current, section, key)
    decreases |s|
  {
    if s != "" && s[0] != NUL {
      hide Next;
      hide CString;
      NextEnds(s);
      if s[0] == '[' {
        assert (s + [NUL])[1..] == s[1..] + [NUL];
        CStringEnds(s[1..]);
        GetFromEnds(Next(s), CString(s[1..]), section, key);
      } else {
        var val := Next(s);
        CStringEnds(s);
        if val == "" {
          NextOfNothing();
        } else {
          CStringEnds(val);
          NextEnds(val);
          NextShrinks(s);
          GetFromEnds(Next(val), current, section, key);
        }
      }
    }
  }

  lemma {:induction false} NextOfNothing()
    ensures Next("") == "" && CString("") == ""
  {
  }

  lemma {:induction false} NextShrinks(s: string)
    ensures |Next(s)| <= |s|
  {
  }

  /** Printing a document with whatever layout, with or without a newline at its end, splitting it in place and looking a
      key up is looking it up in the document. */
  lemma {:induction false} LookupAgrees(ws: seq<Written>, text: string, section: Option<string>, key: string)
    requires AllSound(ws) && (text == Print(ws) || text + "\n" == Print(ws))
    ensures Get(Split(text), section, key) == Lookup(Document(ws), "", section, key)
  {
    LinesSplit(ws);
    LinesFound(ws, "", section, key);
    GetIs(SplitLines(ws), section, key);
    if text != Print(ws) {
      SplitEnds(text);
      GetIs(Split(text), section, key);
      SkipEnds(Split(text));
      GetFromEnds(SkipNuls(Split(text)), "", section, key);
    }
  }
}
