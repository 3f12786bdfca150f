/** Literals in SQL text: how a value of a given type is printed, and how a lexer reads it back
    (PostgreSQL manual, sections 4.1.2.1 and 4.1.2.2, with standard_conforming_strings on). */
module Literals {
  import opened OptionType

  const QUOTE: char := '\''
  const BACKSLASH: char := '\\'

  // ---- What is printed ---------------------------------------------------------------------------------------

  predicate Doubles(c: char) { c == QUOTE || c == BACKSLASH }

  /** Every quote and every backslash twice. */
  function Doubled(s: string): (r: string)
    ensures |s| <= |r| <= 2 * |s|
  {
    if s == "" then ""
    else (if Doubles(s[0]) then [s[0], s[0]] else [s[0]]) + Doubled(s[1..])
  }

  /** The quoted form; with a backslash anywhere it is an escape string. */
  function Quoted(s: string): string {
    (if BACKSLASH in s then "E" else "") + [QUOTE] + Doubled(s) + [QUOTE]
  }

  lemma {:induction false} DoubledSnoc(s: string, c: char)
    ensures Doubled(s + [c]) == Doubled(s) + if Doubles(c) then [c, c] else [c]
  {
    if s == "" {
      assert s + [c] == [c] && [c][1..] == "";
    } else {
      assert (s + [c])[1..] == s[1..] + [c];
      DoubledSnoc(s[1..], c);
    }
  }

  /** The copying loop: from `start` on, `src` with its quotes and backslashes doubled. */
  method CopyDoubled(dst: array<char>, start: nat, src: string) returns (at: nat)
    requires start + 2 * |src| <= dst.Length
    modifies dst
    ensures at == start + |Doubled(src)|
    ensures dst[..start] == old(dst[..start]) && dst[start..at] == Doubled(src)
    ensures forall k | at <= k < dst.Length :: dst[k] == old(dst[k])
  {
    hide Doubled;
    at := start;
    DoubledCons(src[..0]);
    for i := 0 to |src|
      invariant start <= at <= start + 2 * i
      invariant dst[..start] == old(dst[..start]) && dst[start..at] == Doubled(src[..i])
      invariant forall k | at <= k < dst.Length :: dst[k] == old(dst[k])
    {
      DoubledSnoc(src[..i], src[i]);
      assert src[..i + 1] == src[..i] + [src[i]];
      ghost var begun := Doubled(src[..i]);
      if Doubles(src[i]) {
        dst[at] := src[i];
        at := at + 1;
        begun := begun + [src[i]];
        assert dst[start..at] == begun;
      }
      dst[at] := src[i];
      at := at + 1;
      assert dst[start..at] == begun + [src[i]];
    }
    assert src[..|src|] == src;
  }

  /** The quoted form is written at the start of `dst` and is never longer than what the callers set aside
      for it. */
  method QuoteLiteralInternal(dst: array<char>, src: string) returns (length: nat)
    requires 2 * |src| + 3 <= dst.Length
    modifies dst
    ensures length <= 2 * |src| + 3
    ensures dst[..length] == Quoted(src)
    ensures forall k | length <= k < dst.Length :: dst[k] == old(dst[k])
  {
    var at := 0;
    var s := 0;
    while s < |src|
      invariant 0 <= s <= |src| && at == 0
      invariant BACKSLASH !in src[..s]
      invariant forall k | 0 <= k < dst.Length :: dst[k] == old(dst[k])
    {
      if src[s] == BACKSLASH {
        dst[at] := 'E';
        at := at + 1;
        break;
      }
      s := s + 1;
    }
    ghost var head := if BACKSLASH in src then "E" else "";
    assert dst[..at] == head;
    dst[at] := QUOTE;
    at := at + 1;
    head := head + [QUOTE];
    assert dst[..at] == head;
    ghost var start := at;
    at := CopyDoubled(dst, at, src);
    assert dst[..at] == head + Doubled(src) by {
      assert dst[..at] == dst[..start] + dst[start..at];
    }
    dst[at] := QUOTE;
    at := at + 1;
    assert dst[..at] == head + Doubled(src) + [QUOTE];
    length := at;
  }

  // ---- How it is read ----------------------------------------------------------------------------------------

  /** The rest of a string behind its opening quote: its value, and what follows the closing quote.  In an
      escape string the backslash escapes a quote or a backslash; no other escape is ever printed. */
  function LexString(escapes: bool, s: string): (r: Option<(string, string)>)
    ensures r.Some? ==> |r.value.1| < |s|
  {
    if s == "" then None
    else if s[0] == QUOTE then
      if |s| > 1 && s[1] == QUOTE then Behind(QUOTE, LexString(escapes, s[2..])) else Some(("", s[1..]))
    else if escapes && s[0] == BACKSLASH then
      if |s| > 1 && Doubles(s[1]) then Behind(s[1], LexString(escapes, s[2..])) else None
    else Behind(s[0], LexString(escapes, s[1..]))
  }

  function Behind(c: char, r: Option<(string, string)>): (r': Option<(string, string)>)
    ensures r'.Some? <==> r.Some?
    ensures r.Some? ==> r'.value.1 == r.value.1
  {
    if r.Some? then Some(([c] + r.value.0, r.value.1)) else None
  }

  /** A string constant at the head of `s`. */
  function LexConstant(s: string): (r: Option<(string, string)>)
    ensures r.Some? ==> |r.value.1| < |s|
  {
    if s != "" && s[0] == QUOTE then LexString(false, s[1..])
    else if |s| > 1 && s[0] == 'E' && s[1] == QUOTE then LexString(true, s[2..])
    else None
  }

  predicate NoQuote(rest: string) { rest == "" || rest[0] != QUOTE }

  lemma {:induction false} DoubledCons(s: string)
    ensures s == "" ==> Doubled(s) == ""
    ensures s != "" ==> Doubled(s) == (if Doubles(s[0]) then [s[0], s[0]] else [s[0]]) + Doubled(s[1..])
  {
  }

  lemma {:induction false} LexDoubled(escapes: bool, s: string, rest: string)
    requires NoQuote(rest)
    requires escapes || BACKSLASH !in s
    ensures LexString(escapes, Doubled(s) + [QUOTE] + rest) == Some((s, rest))
  {
    hide Doubled;
    var text := Doubled(s) + [QUOTE] + rest;
    DoubledCons(s);
    if s == "" {
      assert text[1..] == rest;
    } else {
      assert [s[0]] + s[1..] == s;
      var next := Doubled(s[1..]) + [QUOTE] + rest;
      LexDoubled(escapes, s[1..], rest);
      if Doubles(s[0]) {
        assert text[2..] == next;
      } else {
        assert text[1..] == next;
      }
    }
  }

  /** Quoting inverts: whatever the string holds, the lexer reads it back and stops behind it. */
  lemma {:induction false} QuotedLexesBack(s: string, rest: string)
    requires NoQuote(rest)
    ensures LexConstant(Quoted(s) + rest) == Some((s, rest))
  {
    LexDoubled(BACKSLASH in s, s, rest);
    if BACKSLASH in s {
      assert (Quoted(s) + rest)[2..] == Doubled(s) + [QUOTE] + rest;
    } else {
      assert (Quoted(s) + rest)[1..] == Doubled(s) + [QUOTE] + rest;
    }
  }

  lemma {:induction false} LexBare(s: string, rest: string)
    requires NoQuote(rest) && QUOTE !in s
    ensures LexString(false, s + [QUOTE] + rest) == Some((s, rest))
  {
    if s == "" {
      assert ("" + [QUOTE] + rest)[1..] == rest;
    } else {
      assert (s + [QUOTE] + rest)[1..] == s[1..] + [QUOTE] + rest;
      LexBare(s[1..], rest);
      assert [s[0]] + s[1..] == s;
    }
  }

  /** What reading consumes: the value, the closing quote, and one more for every quote in the value. */
  lemma {:induction false} LexStringLength(escapes: bool, s: string)
    requires LexString(escapes, s).Some?
    ensures
      var (v, rest) := LexString(escapes, s).value;
      && |v| + |rest| < |s|
      && (|v| + 1 + |rest| == |s| ==> QUOTE !in v)
  {
    if s[0] == QUOTE {
      if |s| > 1 && s[1] == QUOTE {
        LexStringLength(escapes, s[2..]);
      }
    } else if escapes && s[0] == BACKSLASH {
      LexStringLength(escapes, s[2..]);
    } else {
      LexStringLength(escapes, s[1..]);
    }
  }

  /** Text put between quotes as it is reads back exactly when it holds no quote. */
  lemma {:induction false} BareLexesBack(s: string, rest: string)
    requires NoQuote(rest)
    ensures LexConstant([QUOTE] + s + [QUOTE] + rest) == Some((s, rest)) <==> QUOTE !in s
  {
    assert ([QUOTE] + s + [QUOTE] + rest)[1..] == s + [QUOTE] + rest;
    if QUOTE !in s {
      LexBare(s, rest);
    } else if LexString(false, s + [QUOTE] + rest).Some? {
      LexStringLength(false, s + [QUOTE] + rest);
    }
  }

  // ---- Numbers -----------------------------------------------------------------------------------------------

  predicate Digit(c: char) { '0' <= c <= '9' }

  function SkipDigits(s: string): (r: string)
    ensures |r| <= |s|
  {
    if s != "" && Digit(s[0]) then SkipDigits(s[1..]) else s
  }

  /** Behind at least one digit. */
  function SkipUnsigned(s: string): (r: Option<string>)
    ensures r.Some? ==> |r.value| < |s|
  {
    if s != "" && Digit(s[0]) then Some(SkipDigits(s[1..])) else None
  }

  function SkipFraction(s: string): (r: Option<string>)
    ensures r.Some? ==> |r.value| <= |s|
  {
    if s != "" && s[0] == '.' then SkipUnsigned(s[1..]) else Some(s)
  }

  function SkipExponent(s: string): (r: Option<string>)
    ensures r.Some? ==> |r.value| <= |s|
  {
    if s == "" || s[0] != 'e' then Some(s)
    else if |s| > 1 && (s[1] == '+' || s[1] == '-') then SkipUnsigned(s[2..])
    else SkipUnsigned(s[1..])
  }

  /** Behind the sign, if there is one. */
  function Unsigned(s: string): string { if s != "" && s[0] == '-' then s[1..] else s }

  /** Behind a numeral: a sign, digits, a fraction, an exponent. */
  function SkipNumber(s: string): (r: Option<string>)
    ensures r.Some? ==> |r.value| < |s|
  {
    match SkipUnsigned(Unsigned(s))
    case None => None
    case Some(s1) =>
      match SkipFraction(s1)
      case None => None
      case Some(s2) => SkipExponent(s2)
  }

  /** The text of a number as its type prints it.  NaN and Infinity are not numerals. */
  predicate Numeral(s: string) { SkipNumber(s) == Some("") }

  function LexNumber(s: string): (r: Option<(string, string)>)
    ensures r.Some? ==> |r.value.1| < |s|
  {
    match SkipNumber(s)
    case None => None
    case Some(rest) => Some((s[..|s| - |rest|], rest))
  }

  predicate NumberChar(c: char) { Digit(c) || c == '.' || c == 'e' || c == '+' || c == '-' }

  /** A numeral ends before `rest`. */
  predicate EndsNumber(rest: string) { rest == "" || !NumberChar(rest[0]) }

  /** What is left of `s` is left with `rest` behind it. */
  function Then(left: Option<string>, rest: string): Option<string> {
    if left.Some? then Some(left.value + rest) else None
  }

  lemma {:induction false} SkipDigitsAppend(s: string, rest: string)
    requires EndsNumber(rest)
    ensures SkipDigits(s + rest) == SkipDigits(s) + rest
  {
    if s == "" {
      assert s + rest == rest;
    } else {
      assert (s + rest)[1..] == s[1..] + rest;
      SkipDigitsAppend(s[1..], rest);
    }
  }

  lemma {:induction false} SkipUnsignedAppend(s: string, rest: string)
    requires EndsNumber(rest)
    ensures SkipUnsigned(s + rest) == Then(SkipUnsigned(s), rest)
  {
    if s == "" {
      assert s + rest == rest;
    } else {
      assert (s + rest)[1..] == s[1..] + rest;
      SkipDigitsAppend(s[1..], rest);
    }
  }

  lemma {:induction false} SkipFractionAppend(s: string, rest: string)
    requires EndsNumber(rest)
    ensures SkipFraction(s + rest) == Then(SkipFraction(s), rest)
  {
    if s == "" {
      assert s + rest == rest;
    } else if s[0] == '.' {
      assert (s + rest)[1..] == s[1..] + rest;
      SkipUnsignedAppend(s[1..], rest);
    }
  }

  lemma {:induction false} SkipExponentAppend(s: string, rest: string)
    requires EndsNumber(rest)
    ensures SkipExponent(s + rest) == Then(SkipExponent(s), rest)
  {
    if s == "" {
      assert s + rest == rest;
    } else if s[0] == 'e' {
      assert (s + rest)[1..] == s[1..] + rest;
      if |s| > 1 && (s[1] == '+' || s[1] == '-') {
        assert (s + rest)[2..] == s[2..] + rest;
        SkipUnsignedAppend(s[2..], rest);
      } else {
        SkipUnsignedAppend(s[1..], rest);
      }
    }
  }

  lemma {:induction false} UnsignedAppend(s: string, rest: string)
    requires EndsNumber(rest)
    ensures Unsigned(s + rest) == Unsigned(s) + rest
  {
    if s == "" {
      assert s + rest == rest;
    } else {
      assert (s + rest)[1..] == s[1..] + rest;
    }
  }

  lemma {:induction false} SkipNumberAppend(s: string, rest: string)
    requires EndsNumber(rest)
    ensures SkipNumber(s + rest) == Then(SkipNumber(s), rest)
  {
    hide SkipUnsigned;
    hide SkipFraction;
    hide SkipExponent;
    var u := Unsigned(s);
    UnsignedAppend(s, rest);
    SkipUnsignedAppend(u, rest);
    if SkipUnsigned(u).Some? {
      SkipFractionAppend(SkipUnsigned(u).value, rest);
      if SkipFraction(SkipUnsigned(u).value).Some? {
        SkipExponentAppend(SkipFraction(SkipUnsigned(u).value).value, rest);
      }
    }
  }

  /** The lexer reads numerals back, and nothing else. */
  lemma {:induction false} NumberLexesBack(s: string, rest: string)
    requires EndsNumber(rest)
    ensures LexNumber(s + rest) == Some((s, rest)) <==> Numeral(s)
  {
    SkipNumberAppend(s, rest);
    if Numeral(s) {
      assert "" + rest == rest;
      assert (s + rest)[..|s|] == s;
    } else if SkipNumber(s).Some? {
      assert |SkipNumber(s + rest).value| > |rest|;
    }
  }

  lemma {:induction false} DigitsAre(s: string)
    requires forall i | 0 <= i < |s| :: '0' <= s[i] <= '9'
    ensures SkipDigits(s) == ""
  {
    if s != "" {
      DigitsAre(s[1..]);
    }
  }

  /** Integers are numerals, with a minus sign too; what the server prints for no number and no end is none. */
  lemma {:induction false} IntegersAre(s: string)
    requires s != "" && forall i | 0 <= i < |s| :: '0' <= s[i] <= '9'
    ensures Numeral(s) && Numeral("-" + s) && !Numeral("NaN") && !Numeral("Infinity") && !Numeral("-Infinity")
  {
    DigitsAre(s[1..]);
    assert ("-" + s)[1..] == s;
    assert "-Infinity"[1..] == "Infinity";
  }

  // ---- By type -----------------------------------------------------------------------------------------------

  /** Numbers go bare, dates and the like between quotes, all else escaped. */
  datatype Style = Bare | Between | Escaped

  function StyleOf(typ: string): Style {
    if typ == "smallint" || typ == "integer" || typ == "bigint" || typ == "oid"
       || typ == "real" || typ == "double precision" || typ == "numeric" then Bare
    else if typ == "timestamp without time zone" || typ == "timestamp with time zone"
       || typ == "time without time zone" || typ == "time with time zone"
       || typ == "money" || typ == "date" || typ == "interval" then Between
    else Escaped
  }

  function Print(typ: string, v: string): string {
    match StyleOf(typ)
    case Bare => v
    case Between => [QUOTE] + v + [QUOTE]
    case Escaped => Quoted(v)
  }
}
