/** The growable byte buffer: a NUL-terminated array that doubles when it is full, and the printf
    loops that retry in a larger buffer. */
module StringInfos {

  const MAX_ALLOC: int := 0x3fff_ffff
  const INT_MAX: int := 0x7fff_ffff

  class StringInfo {
    var data: array<char>
    var len: int
    var maxlen: int
    var cursor: int

    ghost predicate Valid()
      reads this, data
    {
      && 0 <= len < maxlen == data.Length <= MAX_ALLOC
      && data[len] == '\0'
      && 0 <= cursor <= len
    }

    function Contents(): string
      requires Valid()
      reads this, data
    {
      data[..len]
    }

    constructor ()
      ensures Valid() && Contents() == "" && cursor == 0
      ensures fresh(data)
    {
      data := new char[1024];
      maxlen := 1024;
      new;
      Reset();
    }

    method Reset()
      requires 0 < maxlen == data.Length <= MAX_ALLOC
      modifies this`len, this`cursor, data
      ensures Valid() && Contents() == "" && cursor == 0
    {
      data[0] := '\0';
      len, cursor := 0, 0;
    }

    /** Room for `needed` more bytes and a NUL.  A request that is negative or beyond the limit changes
        nothing.  Otherwise the size is doubled until it is enough, then cut down to the limit: it
        still is enough, it is at least twice the old size or the limit, less than twice what was asked
        unless it just doubled, and no doubling overflows an int. */
    method Enlarge(needed: int)
      requires Valid()
      modifies this`data, this`maxlen
      ensures Valid() && Contents() == old(Contents())
      ensures data == old(data) || fresh(data)
      ensures data == old(data) <==> maxlen == old(maxlen)
      ensures 0 <= needed < 0x3fff_ffff - len ==> len + needed < maxlen
      ensures !(0 <= needed < MAX_ALLOC - len) || len + needed < old(maxlen) ==> data == old(data)
      ensures maxlen == old(maxlen) || maxlen == MAX_ALLOC
           || 2 * old(maxlen) == maxlen || 2 * old(maxlen) < maxlen < 2 * (len + needed + 1)
      ensures maxlen == Enlarged(old(maxlen), len, needed)
    {
      if needed < 0 {
        return;
      }
      if needed >= MAX_ALLOC - len {
        return;
      }
      var total := needed + len + 1;
      if total <= maxlen {
        return;
      }
      var newlen := 2 * maxlen;
      while total > newlen
        invariant 2 * maxlen <= newlen <= INT_MAX
        invariant newlen == 2 * maxlen || newlen < 2 * total
        invariant Doubled(newlen, total) == Doubled(maxlen, total)
      {
        newlen := 2 * newlen;
      }
      if newlen > MAX_ALLOC {
        newlen := MAX_ALLOC;
      }
      var larger := new char[newlen];
      forall i | 0 <= i < maxlen {
        larger[i] := data[i];
      }
      ghost var before := Contents();
      data := larger;
      maxlen := newlen;
      assert Contents() == before;
    }

    method AppendBinary(bytes: string)
      requires Valid() && |bytes| < MAX_ALLOC - len
      modifies this`data, this`maxlen, this`len, data
      ensures Valid() && Contents() == old(Contents()) + bytes && cursor == old(cursor)
      ensures data == old(data) || fresh(data)
    {
      ghost var before := Contents();
      ghost var end := len;
      Enlarge(|bytes|);
      forall i | 0 <= i < |bytes| {
        data[len + i] := bytes[i];
      }
      assert data[..end] == before && data[end..end + |bytes|] == bytes;
      len := len + |bytes|;
      data[len] := '\0';
      assert data[..len] == before + bytes;
    }

    method AppendChar(c: char)
      requires Valid() && 1 < MAX_ALLOC - len
      modifies this`data, this`maxlen, this`len, data
      ensures Valid() && Contents() == old(Contents()) + [c] && cursor == old(cursor)
      ensures data == old(data) || fresh(data)
    {
      ghost var before := Contents();
      if len + 1 >= maxlen {
        Enlarge(1);
      }
      data[len] := c;
      len := len + 1;
      data[len] := '\0';
      assert data[..len] == before + [c];
    }

    method AppendSpaces(count: int)
      requires Valid() && count < MAX_ALLOC - len
      modifies this`data, this`maxlen, this`len, data
      ensures Valid() && cursor == old(cursor)
      ensures Contents() == old(Contents()) + Spaces(if count > 0 then count else 0)
      ensures data == old(data) || fresh(data)
    {
      if count > 0 {
        ghost var before := Contents();
        Enlarge(count);
        var left := count;
        while left > 0
          invariant 0 <= left <= count && len == |before| + (count - left)
          invariant len + left < maxlen == data.Length <= MAX_ALLOC
          invariant data[..len] == before + Spaces(count - left)
          invariant data == old(data) || fresh(data)
        {
          data[len] := ' ';
          len := len + 1;
          left := left - 1;
        }
        data[len] := '\0';
      }
    }

    /** One attempt to append formatted text: 0 when it fitted, else the room to ask for; a failed attempt
        leaves the visible string as it was. */
    method AppendFormatted(text: string) returns (needed: int)
      requires Valid() && |text| <= MAX_ALLOC - 2
      modifies this`len, data
      ensures Valid() && cursor == old(cursor)
      ensures needed == AppendEstimate(maxlen - old(len), |text|)
      ensures Contents() == if needed == 0 then old(Contents()) + text else old(Contents())
    {
      ghost var before := Contents();
      var avail := maxlen - len;
      if avail < 16 {
        return 32;
      }
      var nprinted := Pvsnprintf(data, len, avail, text);
      if nprinted < avail {
        len := len + nprinted;
        assert data[..len] == before + text;
        return 0;
      }
      data[len] := '\0';
      assert data[..len] == before;
      return nprinted;
    }

    /** An attempt and, when it fails, the request for more room. */
    method AppendAttempt(text: string) returns (needed: int)
      requires Valid() && |text| <= MAX_ALLOC - 2
      modifies this`data, this`maxlen, this`len, data
      ensures Valid() && cursor == old(cursor) && (data == old(data) || fresh(data))
      ensures needed == AppendEstimate(old(maxlen) - old(len), |text|)
      ensures Contents() == if needed == 0 then old(Contents()) + text else old(Contents())
      ensures needed != 0 ==> maxlen == Enlarged(old(maxlen), len, needed)
    {
      needed := AppendFormatted(text);
      if needed != 0 {
        Enlarge(needed);
      }
    }

    /** Formatting with retries ends after at most three attempts, for every text for which it ends at all. */
    method AppendFormat(text: string) returns (ghost rounds: nat)
      requires Valid() && Appends(maxlen, len, |text|)
      modifies this`data, this`maxlen, this`len, data
      ensures Valid() && Contents() == old(Contents()) + text && cursor == old(cursor)
      ensures data == old(data) || fresh(data)
      ensures 1 <= rounds <= 3
    {
      hide AppendEstimate;
      hide Enlarged;
      hide Appends;
      ghost var before, size, was, n := Contents(), maxlen, len, |text|;
      ghost var first, second := ThreeSizes(size, was, n);
      var needed := -1;
      rounds := 0;
      while needed != 0
        invariant Valid() && cursor == old(cursor) && (data == old(data) || fresh(data))
        invariant Contents() == if needed == 0 then before + text else before
        invariant rounds == 0 <==> needed == -1
        invariant needed != 0 ==> rounds <= 2 && len == was && maxlen == if rounds == 0 then size else if rounds == 1 then first else second
        invariant needed != 0 && rounds >= 1 ==> AppendEstimate(size - was, n) != 0
        invariant needed != 0 && rounds >= 2 ==> AppendEstimate(first - was, n) != 0
        invariant rounds <= 3
        decreases 4 - rounds
      {
        needed := AppendAttempt(text);
        rounds := rounds + 1;
      }
    }
  }

  /** The size doubled until it is at least `total`. */
  function Doubled(size: int, total: int): (r: int)
    requires 0 < size
    ensures size <= r && total <= r
    decreases total - size
  {
    if total <= size then size else Doubled(2 * size, total)
  }

  /** The size of a buffer with `len` bytes in it after `needed` more have been asked for. */
  function Enlarged(maxlen: int, len: int, needed: int): (r: int)
    requires 0 <= len < maxlen <= MAX_ALLOC
    ensures maxlen <= r <= MAX_ALLOC
  {
    if !(0 <= needed < MAX_ALLOC - len) || len + needed < maxlen then maxlen
    else
      var size := Doubled(maxlen, len + needed + 1);
      if size > MAX_ALLOC then MAX_ALLOC else size
  }

  function Spaces(n: nat): (s: string)
    ensures |s| == n
  {
    if n == 0 then "" else Spaces(n - 1) + " "
  }

  // ---- vsnprintf and the retry loops -----------------------------------------------------------------------

  /** What `pvsnprintf` returns for `n` characters of output and a buffer of `len`: the length when it
      fits, else a size to try next. */
  function Estimate(len: int, n: int): int {
    if n < len - 1 then n
    else if n > len && n <= MAX_ALLOC - 2 then n + 2
    else if len >= MAX_ALLOC / 2 then MAX_ALLOC
    else 2 * len
  }

  /** What one attempt to append asks for. */
  function AppendEstimate(avail: int, n: int): (r: int)
    ensures r >= 0
  {
    if avail < 16 then 32 else if n < avail - 1 then 0 else Estimate(avail, n)
  }

  /** The size after `k` attempts to append `n` characters, each failed one followed by its request. */
  function Attempts(maxlen: int, len: int, n: int, k: nat): (size: int)
    requires 0 <= len < maxlen <= MAX_ALLOC && 0 <= n
    ensures maxlen <= size <= MAX_ALLOC
  {
    if k == 0 then maxlen
    else
      var before := Attempts(maxlen, len, n, k - 1);
      Enlarged(before, len, AppendEstimate(before - len, n))
  }

  lemma {:induction false} AttemptStep(maxlen: int, len: int, n: int, k: nat)
    requires 0 <= len < maxlen <= MAX_ALLOC && 0 <= n
    ensures var before := Attempts(maxlen, len, n, k);
      Attempts(maxlen, len, n, k + 1) == Enlarged(before, len, AppendEstimate(before - len, n))
  {
  }

  /** Some attempt succeeds. */
  ghost predicate Succeeds(maxlen: int, len: int, n: int)
    requires 0 <= len < maxlen <= MAX_ALLOC && 0 <= n
  {
    exists k: nat :: AppendEstimate(Attempts(maxlen, len, n, k) - len, n) == 0
  }

  /** No request on the way is refused: that for 32 bytes when hardly any room is left, and that for what the text
      needs, which is twice the room when the text misses it by one or two bytes. */
  predicate Appends(maxlen: int, len: int, n: int)
    requires 0 <= len < maxlen <= MAX_ALLOC && 0 <= n
  {
    var room := (if maxlen - len < 16 then Enlarged(maxlen, len, 32) else maxlen) - len;
    16 <= room && n <= MAX_ALLOC - 2 && (n < room - 1 || Estimate(room, n) < MAX_ALLOC - len)
  }

  /** A request that is granted makes the next attempt succeed. */
  lemma {:induction false} GrantedFits(size: int, len: int, n: int)
    requires 0 <= len < size <= MAX_ALLOC && 0 <= n && size - len >= 16
    requires n <= MAX_ALLOC - 2 && (n < size - len - 1 || Estimate(size - len, n) < MAX_ALLOC - len)
    ensures n < size - len - 1 ==> AppendEstimate(size - len, n) == 0
    ensures AppendEstimate(Enlarged(size, len, AppendEstimate(size - len, n)) - len, n) == 0
  {
  }

  /** One that is refused is refused again. */
  lemma {:induction false} RefusedStays(maxlen: int, len: int, n: int, k: nat, j: nat)
    requires 0 <= len < maxlen <= MAX_ALLOC && 0 <= n && j <= k
    requires
      var size := Attempts(maxlen, len, n, j);
      AppendEstimate(size - len, n) != 0 && Enlarged(size, len, AppendEstimate(size - len, n)) == size
    ensures Attempts(maxlen, len, n, k) == Attempts(maxlen, len, n, j)
    decreases k
  {
    hide AppendEstimate;
    hide Enlarged;
    if j < k {
      RefusedStays(maxlen, len, n, k - 1, j);
    }
  }

  /** The sizes after one and two failed attempts; with one of the three the text fits. */
  lemma {:induction false} ThreeSizes(size: int, len: int, n: int) returns (first: int, second: int)
    requires 0 <= len < size <= MAX_ALLOC && 0 <= n && Appends(size, len, n)
    ensures n <= MAX_ALLOC - 2 && size <= first <= second && first == Enlarged(size, len, AppendEstimate(size - len, n))
    ensures second == Enlarged(first, len, AppendEstimate(first - len, n))
    ensures AppendEstimate(size - len, n) == 0 || AppendEstimate(first - len, n) == 0 || AppendEstimate(second - len, n) == 0
  {
    hide AppendEstimate;
    hide Enlarged;
    AppendsInThree(size, len, n);
    first, second := Attempts(size, len, n, 1), Attempts(size, len, n, 2);
    assert Attempts(size, len, n, 0) == size;
    AttemptStep(size, len, n, 0);
    AttemptStep(size, len, n, 1);
  }

  lemma {:induction false} AppendsInThree(maxlen: int, len: int, n: int)
    requires 0 <= len < maxlen <= MAX_ALLOC && 0 <= n && Appends(maxlen, len, n)
    ensures AppendEstimate(Attempts(maxlen, len, n, 0) - len, n) == 0
         || AppendEstimate(Attempts(maxlen, len, n, 1) - len, n) == 0
         || AppendEstimate(Attempts(maxlen, len, n, 2) - len, n) == 0
  {
    hide Enlarged;
    hide Doubled;
    assert Attempts(maxlen, len, n, 0) == maxlen;
    var one := Attempts(maxlen, len, n, 1);
    assert one == Enlarged(maxlen, len, AppendEstimate(maxlen - len, n));
    assert Attempts(maxlen, len, n, 2) == Enlarged(one, len, AppendEstimate(one - len, n));
    GrantedFits(if maxlen - len < 16 then one else maxlen, len, n);
  }

  /** Exactly when the loop ends: otherwise a refused request is made for ever. */
  lemma {:induction false} AppendsIff(maxlen: int, len: int, n: int)
    requires 0 <= len < maxlen <= MAX_ALLOC && 0 <= n
    ensures Succeeds(maxlen, len, n) <==> Appends(maxlen, len, n)
  {
    if Appends(maxlen, len, n) {
      AppendsInThree(maxlen, len, n);
    } else if n <= MAX_ALLOC - 2 {
      RefusedForEver(maxlen, len, n);
    }
  }

  /** The first attempt whose request is refused. */
  lemma {:induction false} FirstRefused(maxlen: int, len: int, n: int) returns (j: nat)
    requires 0 <= len < maxlen <= MAX_ALLOC && 0 <= n <= MAX_ALLOC - 2 && !Appends(maxlen, len, n)
    ensures j <= 1 && AppendEstimate(maxlen - len, n) != 0 && Attempts(maxlen, len, n, 0) == maxlen
    ensures var size := Attempts(maxlen, len, n, j);
      AppendEstimate(size - len, n) != 0 && Enlarged(size, len, AppendEstimate(size - len, n)) == size
  {
    assert Attempts(maxlen, len, n, 0) == maxlen;
    AttemptStep(maxlen, len, n, 0);
    j := if maxlen - len < 16 <= Enlarged(maxlen, len, 32) - len then 1 else 0;
  }

  lemma {:induction false} RefusedForEver(maxlen: int, len: int, n: int)
    requires 0 <= len < maxlen <= MAX_ALLOC && 0 <= n <= MAX_ALLOC - 2 && !Appends(maxlen, len, n)
    ensures forall k: nat :: AppendEstimate(Attempts(maxlen, len, n, k) - len, n) != 0
  {
    hide AppendEstimate;
    hide Enlarged;
    hide Attempts;
    hide Appends;
    var j := FirstRefused(maxlen, len, n);
    forall k: nat ensures AppendEstimate(Attempts(maxlen, len, n, k) - len, n) != 0 {
      if k >= j {
        RefusedStays(maxlen, len, n, k, j);
      } else {
        assert k == 0;
      }
    }
  }

  /** A C99 `vsnprintf`: as much of the text as fits, then NUL; the full length is returned. */
  method Vsnprintf(buf: array<char>, at: nat, len: nat, text: string) returns (n: int)
    requires 0 < len && at + len <= buf.Length
    modifies buf
    ensures n == |text|
    ensures buf[..at] == old(buf[..at])
    ensures |text| < len ==> buf[at..at + |text|] == text && buf[at + |text|] == '\0'
    ensures buf[at + len..] == old(buf[at + len..])
  {
    var stored := if |text| < len then |text| else len - 1;
    forall i | 0 <= i < stored {
      buf[at + i] := text[i];
    }
    buf[at + stored] := '\0';
    return |text|;
  }

  /** `len` at the limit would end the process; every caller here stays below it. */
  method Pvsnprintf(buf: array<char>, at: nat, len: nat, text: string) returns (n: int)
    requires 0 < len <= MAX_ALLOC && at + len <= buf.Length
    requires |text| <= MAX_ALLOC - 2
    modifies buf
    ensures n == Estimate(len, |text|)
    ensures n < len <==> |text| < len - 1
    ensures buf[..at] == old(buf[..at])
    ensures n < len ==> buf[at..at + |text|] == text && buf[at + |text|] == '\0'
    ensures buf[at + len..] == old(buf[at + len..])
  {
    var nprinted := Vsnprintf(buf, at, len, text);
    if 0 <= nprinted < len - 1 {
      return nprinted;
    }
    if nprinted > len {
      if nprinted <= MAX_ALLOC - 2 {
        return nprinted + 2;
      }
    }
    if len >= MAX_ALLOC / 2 {
      return MAX_ALLOC;
    }
    return len * 2;
  }

  /** Formatting into a fresh buffer ends after at most two attempts. */
  method Psprintf(text: string) returns (result: array<char>, ghost rounds: nat)
    requires |text| <= MAX_ALLOC - 2
    ensures fresh(result) && |text| < result.Length
    ensures result[..|text|] == text && result[|text|] == '\0'
    ensures 1 <= rounds <= 2
  {
    var len: int := 128;
    rounds := 0;
    while true
      invariant rounds <= 1
      invariant rounds == 0 ==> len == 128
      invariant rounds == 1 ==> |text| + 1 < len <= MAX_ALLOC
      decreases 2 - rounds
    {
      result := new char[len];
      rounds := rounds + 1;
      var newlen := Pvsnprintf(result, 0, len, text);
      if newlen < len {
        return;
      }
      len := newlen;
    }
  }
}
