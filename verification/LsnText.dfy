/** Log positions as text: two hexadecimal halves with a slash between them. */
module LsnText {
  import opened CStrings

  const MAXPG_LSNCOMPONENT := 8

  // ---- Printing: %X/%X ---------------------------------------------------------------------------------------

  function HexDigit(d: nat): char
    requires d < 16
  {
    "0123456789ABCDEF"[d]
  }

  function Hex(n: nat): (s: string)
    ensures s != ""
  {
    if n < 16 then [HexDigit(n)] else Hex(n / 16) + [HexDigit(n % 16)]
  }

  function Print(lsn: nat): string { Hex(lsn / 0x1_0000_0000) + "/" + Hex(lsn % 0x1_0000_0000) }

  // ---- Parsing -----------------------------------------------------------------------------------------------

  predicate IsHex(c: char) { '0' <= c <= '9' || 'a' <= c <= 'f' || 'A' <= c <= 'F' }

  function DigitValue(c: char): nat {
    if '0' <= c <= '9' then c as int - '0' as int
    else if 'a' <= c <= 'f' then c as int - 'a' as int + 10
    else if 'A' <= c <= 'F' then c as int - 'A' as int + 10
    else 0
  }

  predicate AllHex(s: string) { forall i | 0 <= i < |s| :: IsHex(s[i]) }

  function HexValue(s: string): nat {
    if s == "" then 0 else HexValue(s[..|s| - 1]) * 16 + DigitValue(s[|s| - 1])
  }

  /** How many hexadecimal digits `s` starts with. */
  function Span(s: string): (n: nat)
    ensures n <= |s| && AllHex(s[..n]) && (n < |s| ==> !IsHex(s[n]))
  {
    if s == "" || !IsHex(s[0]) then 0 else 1 + Span(s[1..])
  }

  /** The value of a well-formed position; 0 for any other text. */
  function Parse(str: string): nat {
    var len1 := Span(str);
    if len1 < 1 || len1 > MAXPG_LSNCOMPONENT || len1 == |str| || str[len1] != '/' then 0
    else
      var rest := str[len1 + 1..];
      var len2 := Span(rest);
      if len2 < 1 || len2 > MAXPG_LSNCOMPONENT || len2 != |rest| then 0
      else HexValue(str[..len1]) * 0x1_0000_0000 + HexValue(rest)
  }

  lemma {:induction false} SpanIs(s: string, n: nat)
    requires n <= |s| && AllHex(s[..n]) && (n < |s| ==> !IsHex(s[n]))
    ensures Span(s) == n
  {
  }

  /** strspn with the hexadecimal digits. */
  method SpanHex(str: string, from: nat) returns (n: nat)
    requires from <= |str|
    ensures n == Span(str[from..])
  {
    n := 0;
    while from + n < |str| && IsHex(str[from + n])
      invariant from + n <= |str| && forall i | from <= i < from + n :: IsHex(str[i])
    {
      n := n + 1;
    }
    SpanIs(str[from..], n);
  }

  method StrToUl(s: string) returns (v: nat)
    requires AllHex(s)
    ensures v == HexValue(s)
  {
    v := 0;
    for i := 0 to |s|
      invariant v == HexValue(s[..i])
    {
      assert s[..i + 1][..i] == s[..i];
      v := v * 16 + DigitValue(s[i]);
    }
    assert s[..|s|] == s;
  }

  method PgLsnIn(str: string) returns (result: nat)
    ensures result == Parse(str)
  {
    result := 0;
    var len1 := SpanHex(str, 0);
    assert str[0..] == str;
    if len1 < 1 || len1 > MAXPG_LSNCOMPONENT || len1 == |str| || str[len1] != '/' {
      return;
    }
    var len2 := SpanHex(str, len1 + 1);
    if len2 < 1 || len2 > MAXPG_LSNCOMPONENT || len1 + 1 + len2 != |str| {
      return;
    }
    assert str[len1 + 1..][..len2] == str[len1 + 1..];
    var id := StrToUl(str[..len1]);
    var off := StrToUl(str[len1 + 1..]);
    result := id * 0x1_0000_0000 + off;
  }

  // ---- Round trip --------------------------------------------------------------------------------------------

  function Pow16(k: nat): nat { if k == 0 then 1 else 16 * Pow16(k - 1) }

  lemma {:induction false} HexSnoc(s: string, d: nat)
    requires d < 16
    ensures HexValue(s + [HexDigit(d)]) == HexValue(s) * 16 + d
    ensures AllHex(s) ==> AllHex(s + [HexDigit(d)])
  {
    assert (s + [HexDigit(d)])[..|s|] == s;
  }

  lemma {:induction false} Sixteenth(n: nat, p: nat)
    requires n < 16 * p
    ensures n / 16 < p && n == n / 16 * 16 + n % 16
  {
  }

  lemma {:induction false} HexBack(n: nat, k: nat)
    requires n < Pow16(k) && k > 0
    ensures HexValue(Hex(n)) == n && AllHex(Hex(n)) && |Hex(n)| <= k
  {
    if n < 16 {
      HexSnoc("", n);
      assert "" + [HexDigit(n)] == [HexDigit(n)];
    } else {
      var p := Pow16(k - 1);
      Sixteenth(n, p);
      HexBack(n / 16, k - 1);
      HexSnoc(Hex(n / 16), n % 16);
    }
  }

  /** Parsing the text of any 64-bit position gives the position back. */
  lemma {:induction false} LsnRoundTrip(lsn: nat)
    requires lsn < 0x1_0000_0000_0000_0000
    ensures Parse(Print(lsn)) == lsn
  {
    var h, l := lsn / 0x1_0000_0000, lsn % 0x1_0000_0000;
    assert Pow16(8) == 0x1_0000_0000 by {
      assert Pow16(4) == 0x1_0000;
    }
    HexBack(h, 8);
    HexBack(l, 8);
    var s, at := Print(lsn), |Hex(h)|;
    assert s[..at] == Hex(h) && s[at + 1..] == Hex(l) && s[at] == '/';
    SpanIs(s, at);
    assert Hex(l)[..|Hex(l)|] == Hex(l);
    SpanIs(Hex(l), |Hex(l)|);
  }

  // ---- Other spellings ---------------------------------------------------------------------------------------

  lemma {:induction false} LowerDigit(c: char)
    ensures (IsHex(Lower(c)) <==> IsHex(c)) && DigitValue(Lower(c)) == DigitValue(c) && (Lower(c) == '/' <==> c == '/')
  {
  }

  lemma {:induction false} LowerSpan(s: string)
    ensures Span(Lowered(s)) == Span(s)
  {
    if s != "" {
      LowerDigit(s[0]);
      assert Lowered(s)[1..] == Lowered(s[1..]);
      LowerSpan(s[1..]);
    }
  }

  lemma {:induction false} LowerValue(s: string)
    ensures HexValue(Lowered(s)) == HexValue(s)
  {
    if s != "" {
      var n := |s| - 1;
      LowerDigit(s[n]);
      assert Lowered(s)[..n] == Lowered(s[..n]);
      LowerValue(s[..n]);
    }
  }

  /** The case of the digits does not matter. */
  lemma {:induction false} CaseIgnored(str: string)
    ensures Parse(Lowered(str)) == Parse(str)
  {
    LowerSpan(str);
    var at := Span(str);
    if at < |str| {
      LowerDigit(str[at]);
      var rest := str[at + 1..];
      assert Lowered(str)[at + 1..] == Lowered(rest) && Lowered(str)[..at] == Lowered(str[..at]);
      LowerSpan(rest);
      LowerValue(str[..at]);
      LowerValue(rest);
    }
  }

  /** Two runs of digits: each has one to eight of them, or the value is 0. */
  lemma {:induction false} HalvesValue(a: string, b: string)
    requires AllHex(a) && AllHex(b)
    ensures Parse(a + "/" + b)
         == if 1 <= |a| <= 8 && 1 <= |b| <= 8 then HexValue(a) * 0x1_0000_0000 + HexValue(b) else 0
  {
    var str := a + "/" + b;
    assert str[..|a|] == a && str[|a|] == '/' && str[|a| + 1..] == b;
    SpanIs(str, |a|);
    assert b[..|b|] == b;
    SpanIs(b, |b|);
  }
}
