/** Integers on the wire: most significant byte first, 64-bit values as two 32-bit halves.  A byte is a
    `char` below 256. */
module BigEndian {

  function Byte(i: int): char { (i % 256) as char }

  /** The low 16, 32 and 64 bits of an integer, as `htons`, `htonl` and two `htonl`s leave them. */
  function BE2(i: int): (s: string)
    ensures |s| == 2
  {
    [Byte(i / 256), Byte(i)]
  }

  function BE4(i: int): (s: string)
    ensures |s| == 4
  {
    BE2(i / 0x1_0000) + BE2(i)
  }

  function BE8(i: int): (s: string)
    ensures |s| == 8
  {
    BE4(i / 0x1_0000_0000) + BE4(i)
  }

  function FromBE2(s: string): int
    requires |s| == 2
  {
    s[0] as int * 256 + s[1] as int
  }

  function FromBE4(s: string): int
    requires |s| == 4
  {
    FromBE2(s[..2]) * 0x1_0000 + FromBE2(s[2..])
  }

  /** The 64 bits read as a signed number: the high half shifted, the low half or-ed in. */
  function FromBE8(s: string): int
    requires |s| == 8
  {
    Signed64(FromBE4(s[..4]) * 0x1_0000_0000 + FromBE4(s[4..]))
  }

  function Signed64(u: int): int {
    if u < 0x8000_0000_0000_0000 then u else u - 0x1_0000_0000_0000_0000
  }

  predicate Int64(i: int) { -0x8000_0000_0000_0000 <= i < 0x8000_0000_0000_0000 }

  lemma {:induction false} RoundTrip2(i: int)
    ensures FromBE2(BE2(i)) == i % 0x1_0000
  {
    var q, m := i / 0x1_0000, i % 0x1_0000;
    var h, l := m / 256, m % 256;
    assert i == (q * 256 + h) * 256 + l;
    Digits(q * 256 + h, l, i);
    Digits(q, h, q * 256 + h);
  }

  lemma {:induction false} Digits(a: int, b: int, i: int)
    requires 0 <= b < 256 && i == a * 256 + b
    ensures i / 256 == a && i % 256 == b
  {
  }

  lemma {:induction false} RoundTrip4(i: int)
    ensures FromBE4(BE4(i)) == i % 0x1_0000_0000
  {
    RoundTrip2(i);
    RoundTrip2(i / 0x1_0000);
    assert BE4(i)[..2] == BE2(i / 0x1_0000) && BE4(i)[2..] == BE2(i);
  }

  lemma {:induction false} Recombine(i: int)
    requires Int64(i)
    ensures Signed64(i / 0x1_0000_0000 % 0x1_0000_0000 * 0x1_0000_0000 + i % 0x1_0000_0000) == i
  {
  }

  /** Writing any signed 64-bit value in two halves and reading it back gives the value. */
  lemma {:induction false} RoundTrip8(i: int)
    requires Int64(i)
    ensures FromBE8(BE8(i)) == i
  {
    RoundTrip4(i);
    RoundTrip4(i / 0x1_0000_0000);
    Recombine(i);
    assert BE8(i)[..4] == BE4(i / 0x1_0000_0000) && BE8(i)[4..] == BE4(i);
  }

  /** Reading any eight bytes and writing the value again gives the bytes. */
  lemma {:induction false} RoundTripBytes8(s: string)
    requires |s| == 8 && forall i | 0 <= i < 8 :: s[i] as int < 256
    ensures Int64(FromBE8(s)) && BE8(FromBE8(s)) == s
  {
    var h, l := FromBE4(s[..4]), FromBE4(s[4..]);
    Bytes4(s[..4]);
    Bytes4(s[4..]);
    var i := FromBE8(s);
    Halves(h, l);
    BE4Mod(i / 0x1_0000_0000);
    BE4Mod(i);
    assert s == s[..4] + s[4..];
  }

  lemma {:induction false} Halves(h: int, l: int)
    requires 0 <= h < 0x1_0000_0000 && 0 <= l < 0x1_0000_0000
    ensures
      var i := Signed64(h * 0x1_0000_0000 + l);
      Int64(i) && i / 0x1_0000_0000 % 0x1_0000_0000 == h && i % 0x1_0000_0000 == l
  {
  }

  /** The first byte is the most significant, and its upper half makes the number negative. */
  lemma {:induction false} BytesMean(s: string)
    requires |s| == 8 && forall i | 0 <= i < 8 :: s[i] as int < 256
    ensures FromBE8(s) ==
      s[0] as int * 0x100_0000_0000_0000 + s[1] as int * 0x1_0000_0000_0000 + s[2] as int * 0x100_0000_0000
      + s[3] as int * 0x1_0000_0000 + s[4] as int * 0x100_0000 + s[5] as int * 0x1_0000 + s[6] as int * 0x100 + s[7] as int
      - if s[0] as int >= 128 then 0x1_0000_0000_0000_0000 else 0
  {
    var h, l := FromBE4(s[..4]), FromBE4(s[4..]);
    HalfMeans(s[..4]);
    HalfMeans(s[4..]);
  }

  lemma {:induction false} HalfMeans(s: string)
    requires |s| == 4
    ensures FromBE4(s) == s[0] as int * 0x100_0000 + s[1] as int * 0x1_0000 + s[2] as int * 0x100 + s[3] as int
  {
    assert s[..2][0] == s[0] && s[..2][1] == s[1] && s[2..][0] == s[2] && s[2..][1] == s[3];
  }

  lemma {:induction false} BE2Mod(i: int)
    ensures BE2(i) == BE2(i % 0x1_0000)
  {
  }

  lemma {:induction false} BE4Mod(i: int)
    ensures BE4(i) == BE4(i % 0x1_0000_0000)
  {
    var j := i % 0x1_0000_0000;
    assert i / 0x1_0000 % 0x1_0000 == j / 0x1_0000 && i % 0x1_0000 == j % 0x1_0000;
    BE2Mod(i / 0x1_0000);
    BE2Mod(i);
    BE2Mod(j);
  }

  lemma {:induction false} Bytes4(s: string)
    requires |s| == 4 && forall i | 0 <= i < 4 :: s[i] as int < 256
    ensures 0 <= FromBE4(s) < 0x1_0000_0000 && BE4(FromBE4(s)) == s
  {
    Bytes2(s[..2]);
    Bytes2(s[2..]);
    var h, l := FromBE2(s[..2]), FromBE2(s[2..]);
    var i := FromBE4(s);
    assert i / 0x1_0000 == h && i % 0x1_0000 == l;
    BE2Mod(i);
    assert BE4(i) == BE2(h) + BE2(l);
    assert s == s[..2] + s[2..];
  }

  lemma {:induction false} Bytes2(s: string)
    requires |s| == 2 && forall i | 0 <= i < 2 :: s[i] as int < 256
    ensures 0 <= FromBE2(s) < 0x1_0000 && BE2(FromBE2(s)) == s
  {
  }
}
