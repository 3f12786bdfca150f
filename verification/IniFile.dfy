/** The INI file in memory: one buffer that is rewritten where it stands. */
module IniFile {
  import opened OptionType
  import opened Ini
  import opened CStrings

  /** A stop that is in range and has no stop before it is the first one. */
  lemma {:induction false} CspnFirst(c: char, s: string, n: nat)
    requires n <= |s| && Without(s[..n], c)
    requires n < |s| ==> s[n] == c || s[n] == '\n' || s[n] == NUL
    ensures Cspn(c, s) == n
  {
  }

  lemma {:induction false} LineFirst(s: string, n: nat)
    requires n <= |s| && (forall i | 0 <= i < n :: s[i] != '\n') && (n < |s| ==> s[n] == '\n')
    ensures LineLength(s) == n
  {
  }

  /** One turn of the read head over the text `w`, which is followed by a NUL. */
  lemma {:induction false} UnescapedStep(w: string, r: nat, end: nat)
    requires r < end < |w| && w[end] == NUL && w[r] != '"' && w[r] != '\r' && w[r] != '\n'
    ensures w[r] != '\\' ==> Unescaped(w[r..end]) == [w[r]] + Unescaped(w[r + 1..end])
    ensures w[r] == '\\' && (w[r + 1] == '\r' || w[r + 1] == '\n' || w[r + 1] == NUL) ==> Unescaped(w[r..end]) == ""
    ensures w[r] == '\\' && w[r + 1] != '\r' && w[r + 1] != '\n' && w[r + 1] != NUL ==>
      r + 1 < end && Unescaped(w[r..end]) == [Escaped(w[r + 1])] + Unescaped(w[r + 2..end])
  {
    var s := w[r..end];
    assert s[1..] == w[r + 1..end];
    if r + 1 < end {
      assert s[2..] == w[r + 2..end];
    }
  }

  lemma {:induction false} UnescapedStops(w: string, r: nat, end: nat)
    requires r <= end < |w| && (r == end || w[r] == '"' || w[r] == '\r' || w[r] == '\n')
    ensures Unescaped(w[r..end]) == ""
  {
  }

  lemma {:induction false} PrefixStep(got: string, c: char, rest: string, value: string)
    requires got + ([c] + rest) == value
    ensures got + [c] + rest == value
  {
  }

  ghost function TotalOf(now: string, p: nat, end: nat): string
    requires p <= end <= |now|
  {
    now[..p] + Split(now[p..end])
  }

  lemma {:induction false} TotalStart(now: string, end: nat)
    requires end <= |now|
    ensures TotalOf(now, 0, end) == Split(now[..end])
  {
    assert now[0..end] == now[..end];
    Alone(Split(now[..end]));
  }

  lemma {:induction false} TotalEnd(now: string, end: nat)
    requires end <= |now|
    ensures TotalOf(now, end, end) == now[..end]
  {
    assert now[end..end] == "";
    Alone(now[..end]);
  }

  lemma {:induction false} ThreeParts(a: string, b: string, c: string, n: nat)
    requires n <= |c|
    ensures (a + b + c)[..|a| + |b|] == a + b
    ensures (a + b + c)[|a| + |b|..|a| + |b| + n] == c[..n]
  {
  }

  lemma {:induction false} SliceOfSlice(was: string, p: nat, q: nat, end: nat)
    requires p <= q <= end <= |was|
    ensures was[q..][..end - q] == was[p..end][q - p..]
  {
  }

  /** A turn that makes `r` of the first characters of the rest keeps the total. */
  lemma {:induction false} TurnKeeps(was: string, p: nat, r: string, end: nat, s: string)
    requires p + |r| <= end <= |was| && s == was[p..end] && Split(s) == r + Split(s[|r|..])
    ensures TotalOf(was[..p] + r + was[p + |r|..], p + |r|, end) == was[..p] + Split(s)
  {
    TurnOf(Split, was, p, r, end, s);
  }

  /** The same for whatever is to be made of the rest. */
  lemma {:induction false} TurnOf(f: string -> string, was: string, p: nat, r: string, end: nat, s: string)
    requires p + |r| <= end <= |was| && s == was[p..end] && f(s) == r + f(s[|r|..])
    ensures
      var now, q := was[..p] + r + was[p + |r|..], p + |r|;
      now[..q] + f(now[q..end]) == was[..p] + f(s)
  {
    ThreeParts(was[..p], r, was[p + |r|..], end - p - |r|);
    SliceOfSlice(was, p, p + |r|, end);
    Regrouped(was[..p], r, f(s[|r|..]));
  }

  /** A header ends at a NUL, which is processed in the next turn. */
  lemma {:induction false} HeaderTurn(was: string, p: nat, end: nat, s: string)
    requires p < end < |was| && s == was[p..end] && s[0] == '['
    ensures
      var q := p + Cspn(']', s);
      p < q <= end && TotalOf(was[q := NUL], q, end) == was[..p] + Split(s)
  {
    hide Cspn;
    var n := Cspn(']', s);
    HeaderSplit(s);
    HeaderSlices(was, p, end, s, n);
    if n < |s| {
      var tail := s[n + 1..];
      NulSplits(tail);
      Regrouped(was[..p], s[..n], [NUL] + Split(tail));
      Regrouped(s[..n], [NUL], Split(tail));
    } else {
      Alone(was[..p] + s);
    }
  }

  lemma {:induction false} HeaderSplit(s: string)
    requires s != "" && s[0] == '['
    ensures var n := Cspn(']', s);
      0 < n && Split(s) == if n == |s| then s else s[..n] + [NUL] + Split(s[n + 1..])
  {
  }

  lemma {:induction false} NulSplits(tail: string)
    ensures Split([NUL] + tail) == [NUL] + Split(tail)
  {
    assert ([NUL] + tail)[1..] == tail;
  }

  /** The buffer with a NUL at place `n` of the text. */
  lemma {:induction false} HeaderSlices(was: string, p: nat, end: nat, s: string, n: nat)
    requires p < end < |was| && s == was[p..end] && n <= |s|
    ensures
      var q, now := p + n, was[p + n := NUL];
      && now[..q] == was[..p] + s[..n]
      && now[q..end] == (if n < |s| then [NUL] + s[n + 1..] else "") && (n == |s| ==> s[..n] == s)
  {
  }

  lemma {:induction false} BlankSplits(s: string)
    requires s != "" && (Blank(s[0]) || s[0] == '\n' || s[0] == NUL)
    ensures Split(s) == [NUL] + Split(s[1..])
  {
  }

  lemma {:induction false} CommentSplits(s: string, r: string)
    requires s != "" && s[0] == ';' && r == Zeros(LineLength(s))
    ensures 0 < |r| && Split(s) == r + Split(s[|r|..])
    ensures |r| < |s| ==> s[|r|] == '\n'
  {
  }

  lemma {:induction false} KeySplits(s: string, r: string)
    requires s != "" && !Blank(s[0]) && s[0] != '\n' && s[0] != NUL && s[0] != '[' && s[0] != ';' && r == SplitKey(s)
    ensures 0 < |r| && Split(s) == r + Split(s[|r|..])
    ensures |r| < |s| ==> s[|r|] == '\n' || s[|r|] == NUL
  {
    KeyEnds(s);
  }

  lemma {:induction false} CharOf(was: string, p: nat, end: nat, s: string, q: nat)
    requires p <= q <= end < |was| && s == was[p..end]
    ensures q < end ==> was[q] == s[q - p]
  {
  }

  lemma {:induction false} NothingTrimmed(s: string)
    ensures s + Zeros(0) == s
  {
  }

  /** A blank at the end is one NUL more. */
  lemma {:induction false} TrimsOne(s: string, lo: nat, i: nat, n: nat)
    requires lo <= i < |s| && Blank(s[i])
    ensures Trimmed(s[lo..i + 1]) + Zeros(n) == Trimmed(s[lo..i]) + Zeros(n + 1)
  {
    assert s[lo..i + 1][..i - lo] == s[lo..i];
    assert Zeros(n + 1) == [NUL] + Zeros(n);
    assert Trimmed(s[lo..i]) + [NUL] + Zeros(n) == Trimmed(s[lo..i]) + ([NUL] + Zeros(n));
  }

  lemma {:induction false} TrimEnds(s: string, lo: nat, i: nat)
    requires lo <= i < |s| && !Blank(s[i])
    ensures Trimmed(s[lo..i + 1]) == s[lo..i + 1]
  {
  }

  class IniT {
    const data: array<char>
    const end: nat

    ghost predicate Valid()
      reads data
    {
      data.Length == end + 1 && data[end] == NUL
    }

    function Text(): string
      requires end < data.Length
      reads data
    {
      data[..end]
    }

    constructor (text: string)
      ensures Valid() && Text() == text && fresh(data)
    {
      end := |text|;
      data := new char[|text| + 1](i requires 0 <= i => if i < |text| then text[i] else NUL);
    }

    method Strcspn(p: nat, c: char) returns (n: nat)
      requires Valid() && p <= end && c != NUL
      ensures n == Cspn(c, data[p..end])
    {
      n := 0;
      while data[p + n] != c && data[p + n] != '\n' && data[p + n] != NUL
        invariant p + n <= end
        invariant forall i | p <= i < p + n :: data[i] != c && data[i] != '\n' && data[i] != NUL
        decreases end - n
      {
        n := n + 1;
      }
      CspnFirst(c, data[p..end], n);
    }

    method DiscardLine(p: nat) returns (q: nat)
      requires Valid() && p <= end
      modifies data
      ensures Valid() && q == p + LineLength(old(data[p..end]))
      ensures forall k | 0 <= k < data.Length :: data[k] == if p <= k < q then NUL else old(data[k])
    {
      q := p;
      while q < end && data[q] != '\n'
        invariant Valid() && p <= q <= end
        invariant forall i | p <= i < q :: old(data[i]) != '\n' && data[i] == NUL
        invariant forall i | 0 <= i < data.Length && !(p <= i < q) :: data[i] == old(data[i])
      {
        data[q] := NUL;
        q := q + 1;
      }
      LineFirst(old(data[p..end]), q - p);
    }

    /** Blanks in front of `p` and up to it; `lo` is a place before which it will not come. */
    method TrimBack(ghost lo: nat, p: int)
      requires Valid() && -1 <= p < end && (p >= 0 ==> lo <= p && !Blank(data[lo]))
      modifies data
      ensures Valid()
      ensures forall k | 0 <= k < data.Length && (p < 0 || k < lo || p < k) :: data[k] == old(data[k])
      ensures p >= 0 ==> data[lo..p + 1] == Trimmed(old(data[lo..p + 1]))
    {
      hide Trimmed;
      hide Zeros;
      var i := p;
      ghost var was := data[..];
      if p >= 0 {
        NothingTrimmed(Trimmed(was[lo..p + 1]));
      }
      while i >= 0 && Blank(data[i])
        invariant Valid() && (p >= 0 ==> lo <= i) && i <= p
        invariant forall k | 0 <= k <= i || p < k < data.Length :: data[k] == was[k]
        invariant p >= 0 ==> Trimmed(was[lo..p + 1]) == Trimmed(was[lo..i + 1]) + Zeros(p - i)
        invariant forall k | i < k <= p :: data[k] == NUL
      {
        TrimsOne(was, lo, i, p - i);
        data[i] := NUL;
        i := i - 1;
      }
      if p >= 0 {
        TrimEnds(was, lo, i);
        assert data[lo..p + 1] == was[lo..i + 1] + Zeros(p - i);
      }
    }

    /** The value behind the quote at `p`, written from `p` on.  The write head stays behind the read head. */
    method UnescapeQuotedValue(p: nat) returns (q: nat)
      requires Valid() && p < end
      modifies data
      ensures Valid() && q == p + |Unescaped(old(data[p + 1..end]))| <= end
      ensures data[p..q] == Unescaped(old(data[p + 1..end]))
      ensures forall k | 0 <= k < p || q <= k < data.Length :: data[k] == old(data[k])
    {
      hide Unescaped;
      ghost var was := data[..];
      ghost var value := Unescaped(was[p + 1..end]);
      assert was[p + 1..end] == data[p + 1..end];
      ghost var got := "";
      ghost var start := p;
      ghost var cut := false;
      var r := p + 1;
      q := p;
      assert "" + value == value;
      while r < end && data[r] != '"' && data[r] != '\r' && data[r] != '\n'
        invariant start <= q < r <= end && Valid() && |got| == q - start
        invariant forall k | 0 <= k < start || q <= k < data.Length :: data[k] == was[k]
        invariant forall k | 0 <= k < |got| :: data[start + k] == got[k]
        invariant got + Unescaped(was[r..end]) == value && !cut
        decreases end - r
      {
        UnescapedStep(was, r, end);
        var c := data[r];
        if c == '\\' {
          r := r + 1;
          if data[r] == '\r' || data[r] == '\n' || data[r] == NUL {
            cut := true;
            break;
          }
          c := Escaped(data[r]);
        }
        data[q] := c;
        PrefixStep(got, c, Unescaped(was[r + 1..end]), value);
        got := got + [c];
        q, r := q + 1, r + 1;
      }
      if !cut {
        UnescapedStops(was, r, end);
      }
      Alone(got);
      assert data[start..q] == got == value;
    }

    /** The buffer is `was` with `r` at `from`. */
    ghost predicate Became(was: string, from: nat, r: string)
      reads data
    {
      && data.Length == |was| && from + |r| <= |was|
      && (forall k | 0 <= k < |r| :: data[from + k] == r[k])
      && forall k | 0 <= k < from || from + |r| <= k < |was| :: data[k] == was[k]
    }

    lemma {:induction false} RestIs(was: string, p: nat, from: nat, s: string)
      requires p <= from <= end < data.Length == |was| && s == was[p..end]
      requires forall k | from <= k < |was| :: data[k] == was[k]
      ensures data[from..end] == s[from - p..]
    {
    }

    /** Wipe the line out from `p` on.  What has been changed on it so far does not matter. */
    method Wipe(ghost was: string, p: nat, ghost changed: nat, ghost s: string) returns (q: nat)
      requires Valid() && p <= changed <= end && |was| == data.Length && s == was[p..end]
      requires forall k | 0 <= k < p || changed <= k < data.Length :: data[k] == was[k]
      requires forall k | p <= k < changed :: data[k] != '\n' && was[k] != '\n'
      modifies data
      ensures Valid() && q == p + LineLength(s) <= end && Became(was, p, Zeros(LineLength(s)))
    {
      SameLine(s, data[p..end], changed - p);
      q := DiscardLine(p);
    }

    /** The value behind the `=` and its blanks: it is at `p + m`, and the key and the NULs behind it are done. */
    method SplitValue(ghost was: string, p: nat, at: nat, ghost head: string, ghost s: string)
        returns (q: nat, ghost r: string)
      requires Valid() && p < at <= end && Became(was, p, head) && at == p + |head| && s == was[p..end]
      requires forall k | p <= k < at :: was[k] != '\n' && data[k] != '\n'
      requires at == end || !Blank(data[at])
      requires (forall i | 0 <= i < |head| :: s[i] != '\n') && |s| == end - p && (at < end ==> s[|head|] == data[at])
      modifies data
      ensures Valid()
      ensures r == WithValue(s, |head|, head) && q == p + |r| <= end && Became(was, p, r)
    {
      hide LineLength;
      hide Unescaped;
      hide WithValue;
      r := WithValue(s, |head|, head);
      NoValue(s, head);
      if data[at] == '\n' || data[at] == NUL {
        q := Wipe(was, p, at, s);
      } else if data[at] == '"' {
        ghost var value := Unescaped(s[|head| + 1..]);
        QuotedValue(s, head, value);
        q := SplitQuoted(was, p, at, head, s, value);
      } else {
        q := SplitPlain(was, p, at, head, s);
        PlainValue(s, head, q - at);
      }
    }

    method SplitQuoted(ghost was: string, p: nat, at: nat, ghost head: string, ghost s: string,
                       ghost value: string) returns (q: nat)
      requires Valid() && p < at < end && Became(was, p, head) && at == p + |head| && s == was[p..end]
      requires data[at] == '"' && value == Unescaped(s[|head| + 1..]) && |head| + |value| <= LineLength(s)
      requires forall k | p <= k < at :: was[k] != '\n' && data[k] != '\n'
      modifies data
      ensures Valid()
      ensures q == p + LineLength(s) <= end
      ensures Became(was, p, if value == "" then Zeros(LineLength(s))
                             else head + value + Zeros(LineLength(s) - |head| - |value|))
    {
      hide LineLength;
      hide Unescaped;
      RestIs(was, p, at + 1, s);
      q := UnescapeQuotedValue(at);
      if q == at {
        q := Wipe(was, p, at, s);
        return;
      }
      q := FinishLine(was, p, q, head, value, s);
    }

    /** NULs behind the value, up to the end of the line. */
    method FinishLine(ghost was: string, p: nat, from: nat, ghost head: string, ghost value: string, ghost s: string)
        returns (q: nat)
      requires Valid() && p <= end && |was| == data.Length && s == was[p..end]
      requires from == p + |head| + |value| <= p + LineLength(s)
      requires forall k | 0 <= k < |head| :: data[p + k] == head[k]
      requires data[p + |head|..from] == value
      requires forall k | 0 <= k < p || from <= k < data.Length :: data[k] == was[k]
      modifies data
      ensures Valid() && q == p + LineLength(s) <= end
      ensures Became(was, p, head + value + Zeros(LineLength(s) - |head| - |value|))
    {
      hide LineLength;
      hide Zeros;
      LineLengthFrom(s, from - p);
      RestIs(was, p, from, s);
      ghost var now := data[..];
      q := DiscardLine(from);
      assert data[p + |head|..from] == now[p + |head|..from];
      Assembled(was, p, head, value, Zeros(q - from));
    }

    lemma {:induction false} Assembled(was: string, p: nat, a: string, b: string, c: string)
      requires data.Length == |was| && p + |a| + |b| + |c| <= |was|
      requires forall k | 0 <= k < |a| :: data[p + k] == a[k]
      requires data[p + |a|..p + |a| + |b|] == b
      requires forall k | 0 <= k < |c| :: data[p + |a| + |b| + k] == c[k]
      requires forall k | 0 <= k < p || p + |a| + |b| + |c| <= k < |was| :: data[k] == was[k]
      ensures Became(was, p, a + b + c)
      ensures c == "" ==> Became(was, p, a + b)
    {
      var r := a + b + c;
      forall k | 0 <= k < |r| ensures data[p + k] == r[k] {
        if |a| <= k < |a| + |b| {
          assert data[p + k] == data[p + |a|..p + |a| + |b|][k - |a|];
        } else if |a| + |b| <= k {
          assert data[p + |a| + |b| + (k - |a| - |b|)] == c[k - |a| - |b|];
        }
      }
      assert c == "" ==> r == a + b;
    }

    method SplitPlain(ghost was: string, p: nat, at: nat, ghost head: string, ghost s: string) returns (q: nat)
      requires Valid() && p < at < end && Became(was, p, head) && at == p + |head| && s == was[p..end]
      requires forall k | p <= k < at :: was[k] != '\n'
      requires data[at] != '\n' && data[at] != NUL && data[at] != '"' && !Blank(data[at])
      modifies data
      ensures Valid()
      ensures q == at + Cspn('\n', s[|head|..]) <= end
      ensures Became(was, p, head + Trimmed(s[|head|..|head| + (q - at)]))
    {
      hide Trimmed;
      hide Cspn;
      hide LineLength;
      hide Zeros;
      ghost var rest := data[at..end];
      RestIs(was, p, at, s);
      var len := Strcspn(at, '\n');
      ghost var value := data[at..at + len];
      FirstOf(s, |head|, len);
      assert value == rest[..len];
      q := at + len;
      TrimPlain(was, p, at, q, head);
    }

    method TrimPlain(ghost was: string, p: nat, at: nat, q: nat, ghost head: string)
      requires Valid() && Became(was, p, head) && at == p + |head| && at < q <= end && !Blank(data[at])
      modifies data
      ensures Valid() && Became(was, p, head + Trimmed(old(data[at..q])))
    {
      ghost var value := Trimmed(data[at..q]);
      TrimBack(at, q - 1);
      assert data[at..q] == value;
      Assembled(was, p, head, value, "");
    }

    /** The key in front of the `=` at `eq`, without the blanks at its end.  Behind a NUL there is nothing to
        trim, even when there is no key. */
    method TrimKey(ghost was: string, p: nat, eq: nat)
      requires Valid() && p <= eq < end && was == data[..] && !Blank(data[p]) && (p == 0 || data[p - 1] == NUL)
      modifies data
      ensures Valid() && Became(was, p, Trimmed(was[p..eq]))
    {
      ghost var lo := if eq == p && p > 0 then p - 1 else p;
      TrimBack(lo, eq - 1);
      if eq > p {
        forall k | p <= k < eq ensures data[k] == Trimmed(was[p..eq])[k - p] {
          assert data[k] == data[p..eq][k - p];
        }
      } else if p > 0 {
        assert was[lo..eq] == [NUL];
        assert data[lo] == data[lo..eq][0];
      }
    }

    /** NULs for the `=` at `eq` and the blanks behind it. */
    method WipeEquals(ghost was: string, p: nat, eq: nat, ghost key: string) returns (at: nat)
      requires Valid() && p <= eq < end && Became(was, p, key) && eq == p + |key| && was[eq] == '='
      modifies data
      ensures Valid() && at == eq + 1 + BlankLength(was[eq + 1..end]) <= end
      ensures Became(was, p, key + Zeros(at - eq))
      ensures at < end ==> !Blank(data[at])
    {
      ghost var now := data[..];
      at := eq;
      data[at] := NUL;
      at := at + 1;
      while data[at] == ' ' || data[at] == '\r' || data[at] == '\t'
        invariant Valid() && eq < at <= end
        invariant forall k | eq < k < at :: Blank(was[k])
        invariant forall k | eq <= k < at :: data[k] == NUL
        invariant forall k | 0 <= k < eq || at <= k < data.Length :: data[k] == now[k]
        decreases end - at
      {
        data[at] := NUL;
        at := at + 1;
      }
      BlankFirst(was[eq + 1..end], at - eq - 1);
    }

    /** The key, trimmed, and NULs up to the value. */
    method SplitHead(ghost was: string, p: nat, eq: nat, ghost s: string) returns (at: nat)
      requires Valid() && p <= eq < end && was == data[..] && (p == 0 || data[p - 1] == NUL) && s == was[p..end]
      requires !Blank(data[p]) && data[eq] == '='
      modifies data
      ensures Valid() && at == p + ValueAt(s, eq - p) <= end
      ensures Became(was, p, Head(s, eq - p))
      ensures at < end ==> !Blank(data[at])
    {
      AroundEquals(was, p, eq, end, s);
      TrimKey(was, p, eq);
      at := WipeEquals(was, p, eq, Trimmed(s[..eq - p]));
    }

    /** The key and what is behind it, when there is a `=`. */
    method SplitPair(ghost was: string, p: nat, eq: nat, ghost s: string) returns (q: nat)
      requires Valid() && p <= eq < end && was == data[..] && (p == 0 || data[p - 1] == NUL) && s == was[p..end]
      requires !Blank(data[p]) && data[eq] == '='
      requires forall i | 0 <= i < eq - p :: s[i] != '\n'
      modifies data
      ensures Valid()
      ensures
        var n := eq - p;
        (forall i | 0 <= i < ValueAt(s, n) :: s[i] != '\n')
        && var r := WithValue(s, ValueAt(s, n), Head(s, n));
        q == p + |r| <= end && Became(was, p, r)
    {
      ghost var n := eq - p;
      assert s[n] == '=';
      HeadOneLine(s, n);
      TrimmedOneLine(s[..n]);
      var at := SplitHead(was, p, eq, s);
      forall k | p <= k < at ensures was[k] != '\n' && data[k] != '\n' {
        assert was[k] == s[k - p] && data[k] == Head(s, n)[k - p];
      }
      CharOf(was, p, end, s, at);
      ghost var r;
      q, r := SplitValue(was, p, at, Head(s, n), s);
    }

    /** A line that starts a key. */
    method SplitLineAt(p: nat, ghost was: string, ghost s: string) returns (q: nat)
      requires Valid() && p < end && !Blank(data[p]) && data[p] != '\n' && data[p] != NUL
      requires (p == 0 || data[p - 1] == NUL) && was == data[..] && s == was[p..end] == data[p..end]
      modifies data
      ensures Valid()
      ensures var r := SplitKey(s); q == p + |r| <= end && Became(was, p, r)
    {
      var n := Strcspn(p, '=');
      var eq := p + n;
      if data[eq] != '=' {
        assert n == |s| || s[n] != '=';
        q := Wipe(was, p, p, s);
      } else {
        assert s[n] == '=';
        q := SplitPair(was, p, eq, s);
      }
    }

    /** What has been processed, and what splitting makes of the rest. */
    ghost function Total(p: nat): string
      requires p <= end < data.Length
      reads data
    {
      TotalOf(data[..], p, end)
    }

    /** A key can start here only behind a NUL. */
    ghost predicate Between(p: nat)
      requires p <= end < data.Length
      reads data
    {
      p == 0 || data[p - 1] == NUL || data[p] == '\n' || data[p] == NUL
    }

    lemma {:induction false} BecameText(was: string, p: nat, r: string)
      requires Became(was, p, r)
      ensures data[..] == was[..p] + r + was[p + |r|..]
    {
    }

    /** The first `|r|` characters of the rest have become `r`. */
    lemma {:induction false} TurnDone(was: string, p: nat, r: string, s: string)
      requires Valid() && p + |r| <= end && Became(was, p, r) && s == was[p..end]
      requires Split(s) == r + Split(s[|r|..])
      ensures Total(p + |r|) == was[..p] + Split(s)
    {
      BecameText(was, p, r);
      TurnKeeps(was, p, r, end, s);
    }

    method SplitHeader(p: nat, ghost was: string) returns (q: nat)
      requires Valid() && p < end && was == data[..]
      modifies data
      ensures Valid() && q == p + Cspn(']', was[p..end]) <= end && data[..] == was[q := NUL] && data[q] == NUL
    {
      assert data[p..end] == was[p..end];
      var n := Strcspn(p, ']');
      q := p + n;
      data[q] := NUL;
    }

    method SplitComment(p: nat, ghost was: string) returns (q: nat)
      requires Valid() && p < end && was == data[..]
      modifies data
      ensures Valid() && q == p + LineLength(was[p..end]) <= end && Became(was, p, Zeros(q - p))
    {
      assert data[p..end] == was[p..end];
      q := DiscardLine(p);
    }

    method SplitBlank(p: nat)
      requires Valid() && p < end
      modifies data
      ensures Valid() && Became(old(data[..]), p, [NUL]) && data[p] == NUL
    {
      if data[p] != NUL {
        data[p] := NUL;
      }
    }

    method TurnHeader(p: nat, ghost was: string, ghost s: string) returns (q: nat)
      requires Valid() && p < end && was == data[..] && s == was[p..end] == data[p..end] && Between(p)
      requires data[p] == '['
      modifies data
      ensures Valid() && p < q <= end && Between(q)
      ensures Total(q) == was[..p] + Split(s)
    {
      hide Split;
      q := SplitHeader(p, was);
      HeaderTurn(was, p, end, s);
    }

    method TurnComment(p: nat, ghost was: string, ghost s: string) returns (q: nat)
      requires Valid() && p < end && was == data[..] && s == was[p..end] == data[p..end] && Between(p)
      requires data[p] == ';'
      modifies data
      ensures Valid() && p < q <= end && Between(q)
      ensures Total(q) == was[..p] + Split(s)
    {
      hide Split;
      hide LineLength;
      q := SplitComment(p, was);
      CommentSplits(s, Zeros(q - p));
      TurnDone(was, p, Zeros(q - p), s);
      CharOf(was, p, end, s, q);
    }

    method TurnKey(p: nat, ghost was: string, ghost s: string) returns (q: nat)
      requires Valid() && p < end && was == data[..] && s == was[p..end] == data[p..end] && Between(p)
      requires !Blank(data[p]) && data[p] != '\n' && data[p] != NUL && data[p] != '[' && data[p] != ';'
      modifies data
      ensures Valid() && p < q <= end && Between(q)
      ensures Total(q) == was[..p] + Split(s)
    {
      hide Split;
      hide SplitKey;
      hide LineLength;
      q := SplitLineAt(p, was, s);
      KeySplits(s, SplitKey(s));
      TurnDone(was, p, SplitKey(s), s);
      CharOf(was, p, end, s, q);
    }

    /** One turn of the loop. */
    method Turn(p: nat, ghost was: string, ghost s: string) returns (q: nat)
      requires Valid() && p < end && was == data[..] && s == was[p..end] == data[p..end] && Between(p)
      modifies data
      ensures Valid() && p < q <= end && Between(q)
      ensures Total(q) == was[..p] + Split(s)
    {
      hide Split;
      var c := data[p];
      if c == '\r' || c == '\n' || c == '\t' || c == ' ' || c == NUL {
        SplitBlank(p);
        q := p + 1;
        BlankSplits(s);
        TurnDone(was, p, [NUL], s);
      } else if c == '[' {
        q := TurnHeader(p, was, s);
      } else if c == ';' {
        q := TurnComment(p, was, s);
      } else {
        q := TurnKey(p, was, s);
      }
    }

    /** The whole buffer, from front to back. */
    method SplitData()
      requires Valid()
      modifies data
      ensures Valid() && Text() == Split(old(Text()))
    {
      var p := 0;
      ghost var total := Total(0);
      TotalStart(data[..], end);
      assert data[..][..end] == data[..end];
      while p < end
        invariant Valid() && p <= end && Between(p)
        invariant Total(p) == total
      {
        ghost var was, s := data[..], data[p..end];
        assert was[p..end] == s;
        p := Turn(p, was, s);
      }
      TotalEnd(data[..], end);
      assert data[..][..end] == data[..end];
    }

    /** The next string behind the one at `p`. */
    method NextString(p: nat) returns (q: nat)
      requires Valid() && p <= end
      ensures p <= q <= end && data[q..end] == Next(data[p..end])
      ensures p < end && data[p] != NUL ==> p < q
      ensures q < end ==> data[q] != NUL
    {
      ghost var s := data[p..end];
      q := p;
      while data[q] != NUL
        invariant p <= q <= end
        invariant forall k | p <= k < q :: data[k] != NUL
        decreases end - q
      {
        q := q + 1;
      }
      StringEnds(s, q - p);
      assert s[q - p..] == data[q..end];
      while q < end && data[q] == NUL
        invariant p <= q <= end
        invariant SkipNuls(data[q..end]) == Next(s)
        invariant p < end && data[p] != NUL ==> p < q
      {
        assert data[q..end][1..] == data[q + 1..end];
        q := q + 1;
      }
    }

    /** The value of the first matching key, or None. */
    method IniGet(section: Option<string>, key: string) returns (val: Option<string>)
      requires Valid() && NulFree(key) && (section.Some? ==> NulFree(section.value))
      ensures val == Get(Text(), section, key)
    {
      var currentSection := "";
      var p := 0;
      assert data[0..end] == data[..end];
      if data[p] == NUL {
        p := NextString(p);
      }
      while p < end
        invariant p <= end && (p < end ==> data[p] != NUL) && NulFree(currentSection)
        invariant GetFrom(data[p..end], currentSection, section, key) == Get(Text(), section, key)
        decreases end - p
      {
        ghost var s := data[p..end];
        if data[p] == '[' {
          currentSection := CString(data[p + 1..end]);
          CStringNulFree(data[p + 1..end]);
          assert s[1..] == data[p + 1..end];
        } else {
          var v := NextString(p);
          var inSection := true;
          if section.Some? {
            var d := Strcmpci(section.value, currentSection);
            inSection := d == 0;
          }
          if inSection {
            CStringNulFree(data[p..end]);
            var d := Strcmpci(CString(data[p..end]), key);
            if d == 0 {
              return Some(CString(data[v..end]));
            }
          }
          p := v;
        }
        p := NextString(p);
      }
      return None;
    }
  }

  lemma {:induction false} AroundEquals(was: string, p: nat, eq: nat, end: nat, s: string)
    requires p <= eq < end <= |was| && s == was[p..end]
    ensures was[p..eq] == s[..eq - p] && was[eq + 1..end] == s[eq - p + 1..]
  {
  }

  lemma {:induction false} FirstOf(s: string, from: nat, n: nat)
    requires from + n <= |s|
    ensures s[from..][..n] == s[from..from + n]
  {
  }

  lemma {:induction false} StringEnds(s: string, n: nat)
    requires n <= |s| && (forall k | 0 <= k < n :: s[k] != NUL) && (n < |s| ==> s[n] == NUL)
    ensures |CString(s)| == n
  {
    if n > 0 {
      StringEnds(s[1..], n - 1);
    }
  }

  /** The character at `i` of a C string, its NUL included. */
  function CharAt(s: string, i: nat): char
    requires i <= |s|
  {
    if i < |s| then s[i] else NUL
  }

  /** Zero exactly for names that are the same but for case. */
  method Strcmpci(a: string, b: string) returns (d: int)
    requires NulFree(a) && NulFree(b)
    ensures d == 0 <==> SameName(a, b)
  {
    var i := 0;
    while true
      invariant i <= |a| && i <= |b|
      invariant forall k | 0 <= k < i :: Lower(a[k]) == Lower(b[k])
      decreases |a| - i
    {
      d := Lower(CharAt(a, i)) as int - Lower(CharAt(b, i)) as int;
      if d != 0 || CharAt(a, i) == NUL {
        Compared(a, b, i, d);
        return;
      }
      i := i + 1;
    }
  }

  lemma {:induction false} Compared(a: string, b: string, i: nat, d: int)
    requires NulFree(a) && NulFree(b) && i <= |a| && i <= |b|
    requires forall k | 0 <= k < i :: Lower(a[k]) == Lower(b[k])
    requires d == Lower(CharAt(a, i)) as int - Lower(CharAt(b, i)) as int && (d != 0 || CharAt(a, i) == NUL)
    ensures d == 0 <==> SameName(a, b)
  {
    if d == 0 {
      assert Lowered(a) == Lowered(b);
    }
  }

  /** Loading a document, however it is laid out, and looking a key up is looking it up in the document. */
  method LoadAndGet(ghost ws: seq<Written>, text: string, section: Option<string>, key: string) returns (val: Option<string>)
    requires AllSound(ws) && (text == Print(ws) || text + "\n" == Print(ws))
    requires NulFree(key) && (section.Some? ==> NulFree(section.value))
    ensures val == Lookup(Document(ws), "", section, key)
  {
    LookupAgrees(ws, text, section, key);
    var ini := new IniT(text);
    ini.SplitData();
    val := ini.IniGet(section, key);
  }

  /** A key's turn ends in front of a newline or a NUL, or at the end. */
  lemma {:induction false} KeyEnds(s: string)
    requires s != "" && !Blank(s[0]) && s[0] != '\n' && s[0] != NUL
    ensures |SplitKey(s)| < |s| ==> s[|SplitKey(s)|] == '\n' || s[|SplitKey(s)|] == NUL
  {
    var n := Cspn('=', s);
    if n < |s| && s[n] == '=' {
      HeadOneLine(s, n);
      ValueEnds(s, Head(s, n));
    }
  }

  lemma {:induction false} ValueEnds(s: string, head: string)
    requires |head| <= |s| && forall i | 0 <= i < |head| :: s[i] != '\n'
    ensures
      var r := WithValue(s, |head|, head);
      |r| < |s| ==> s[|r|] == '\n' || s[|r|] == NUL
  {
    hide WithValue;
    NoValue(s, head);
    var m := |head|;
    if m < |s| && s[m] != '\n' && s[m] != NUL {
      if s[m] == '"' {
        QuotedValue(s, head, Unescaped(s[m + 1..]));
      } else {
        var n := Cspn('\n', s[m..]);
        PlainValue(s, head, n);
        assert m + n < |s| ==> s[m..][n] == s[m + n];
      }
    }
  }

  /** Two texts whose first `n` characters hold no newline and which agree from there on. */
  lemma {:induction false} SameLine(a: string, b: string, n: nat)
    requires |a| == |b| && n <= |a| && forall k | n <= k < |a| :: a[k] == b[k]
    requires forall k | 0 <= k < n :: a[k] != '\n' && b[k] != '\n'
    ensures LineLength(a) == LineLength(b)
  {
    LineFirst(b, LineLength(a));
  }

  lemma {:induction false} BlankFirst(s: string, n: nat)
    requires n <= |s| && (forall i | 0 <= i < n :: Blank(s[i])) && (n < |s| ==> !Blank(s[n]))
    ensures BlankLength(s) == n
  {
  }

  lemma {:induction false} TrimmedOneLine(s: string)
    requires forall i | 0 <= i < |s| :: s[i] != '\n'
    ensures forall i | 0 <= i < |s| :: Trimmed(s)[i] != '\n'
  {
    if s != "" && Blank(s[|s| - 1]) {
      TrimmedOneLine(s[..|s| - 1]);
    }
  }
}
