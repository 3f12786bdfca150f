/** C strings, lower case, and what concatenation does. */
module CStrings {

  const NUL: char := '\0'

  predicate NulFree(s: string) { forall i | 0 <= i < |s| :: s[i] != NUL }

  function Lower(c: char): char { if 'A' <= c <= 'Z' then (c as int + 32) as char else c }

  function Lowered(s: string): (r: string)
    ensures |r| == |s| && forall i | 0 <= i < |s| :: r[i] == Lower(s[i])
  {
    seq(|s|, i requires 0 <= i < |s| => Lower(s[i]))
  }

  /** A C string: everything before the first NUL. */
  function CString(s: string): (r: string)
    ensures |r| <= |s|
  {
    if s == "" || s[0] == NUL then "" else [s[0]] + CString(s[1..])
  }

  lemma {:induction false} CStringNulFree(s: string)
    ensures NulFree(CString(s))
  {
    if s != "" && s[0] != NUL {
      CStringNulFree(s[1..]);
    }
  }

  lemma {:induction false} CStringStops(v: string, rest: string)
    requires NulFree(v)
    ensures CString(v + [NUL] + rest) == v
  {
    var s := v + [NUL] + rest;
    if v != "" {
      assert s[1..] == v[1..] + [NUL] + rest && [v[0]] + v[1..] == v;
      CStringStops(v[1..], rest);
    }
  }

  lemma {:induction false} Alone(s: string)
    ensures s + "" == s && "" + s == s
  {
  }

  lemma {:induction false} Regrouped(a: string, b: string, c: string)
    ensures (a + b) + c == a + (b + c)
  {
  }
}
