/** Base64 as the streaming decoder of module 2553 makes it, against a decoder, and how much of it is held back. */
module Base64Text {
  import opened Bytes
  import opened Unicode
  import opened StringDecoder

  const PAD: Unit := 61

  /** Table 1 of RFC 4648: the value of a digit; padding counts as 0. */
  function DigitValue(u: Unit): (v: nat)
    ensures v < 64
  {
    if 65 <= u <= 90 then u - 65
    else if 97 <= u <= 122 then u - 97 + 26
    else if 48 <= u <= 57 then u - 48 + 52
    else if u == 43 then 62
    else if u == 47 then 63
    else 0
  }

  lemma ValueOfDigit(v: nat)
    requires v < 64
    ensures DigitValue(Base64Digit(v)) == v && Base64Digit(v) != PAD
  {
  }

  lemma PadIsZero()
    ensures DigitValue(PAD) == 0
  {
  }

  /** The number that four digits make. */
  function QuadValue(s: seq<Unit>): (n: nat)
    requires |s| == 4
    ensures n < 0x100_0000
  {
    DigitValue(s[0]) * 0x4_0000 + DigitValue(s[1]) * 0x1000 + DigitValue(s[2]) * 0x40 + DigitValue(s[3])
  }

  /** Its three bytes, without those that the padding cuts off. */
  function QuadBytes(s: seq<Unit>): (b: seq<Byte>)
    requires |s| == 4
  {
    var n := QuadValue(s);
    if s[2] == PAD then [n / 0x1_0000]
    else if s[3] == PAD then [n / 0x1_0000, n / 0x100 % 0x100]
    else [n / 0x1_0000, n / 0x100 % 0x100, n % 0x100]
  }

  function Unbase64(s: seq<Unit>): (b: seq<Byte>) {
    if |s| < 4 then [] else QuadBytes(s[..4]) + Unbase64(s[4..])
  }

  lemma {:induction false} Base64Length(b: seq<Byte>)
    ensures |Base64(b)| == 4 * ((|b| + 2) / 3)
    decreases |b|
  {
    hide Base64Digit;
    if |b| >= 3 {
      Base64Length(b[3..]);
    }
  }

  lemma GroupReadsBack(b: seq<Byte>)
    requires |b| == 3
    ensures |Group(b)| == 4 && QuadBytes(Group(b)) == b
  {
    hide Base64Digit, DigitValue, QuadValue;
    var x, y, z := b[0] as int, b[1] as int, b[2] as int;
    ValueOfDigit(x / 4);
    ValueOfDigit(x % 4 * 16 + y / 16);
    ValueOfDigit(y % 16 * 4 + z / 64);
    ValueOfDigit(z % 64);
    QuadOf(Group(b), x, y, z);
    BytesOfNumber(x, y, z);
  }

  /** Four groups of six bits are three of eight. */
  lemma QuadOf(s: seq<Unit>, x: nat, y: nat, z: nat)
    requires |s| == 4 && x < 256 && y < 256 && z < 256
    requires DigitValue(s[0]) == x / 4 && DigitValue(s[1]) == x % 4 * 16 + y / 16
    requires DigitValue(s[2]) == y % 16 * 4 + z / 64 && DigitValue(s[3]) == z % 64
    ensures QuadValue(s) == x * 0x1_0000 + y * 0x100 + z
  {
    hide DigitValue;
    assert x == x / 4 * 4 + x % 4;
    assert y == y / 16 * 16 + y % 16;
    assert z == z / 64 * 64 + z % 64;
  }

  lemma BytesOfNumber(x: nat, y: nat, z: nat)
    requires x < 256 && y < 256 && z < 256
    ensures var n := x * 0x1_0000 + y * 0x100 + z;
            n / 0x1_0000 == x && n / 0x100 % 0x100 == y && n % 0x100 == z
  {
    var n := x * 0x1_0000 + y * 0x100 + z;
    assert n / 0x100 == x * 0x100 + y;
  }

  lemma OneReadsBack(b: seq<Byte>)
    requires |b| == 1
    ensures |Base64(b)| == 4 && QuadBytes(Base64(b)) == b
  {
    hide Base64Digit, DigitValue, QuadValue;
    var x := b[0] as int;
    ValueOfDigit(x / 4);
    ValueOfDigit(x % 4 * 16);
    PadIsZero();
    QuadOf(Base64(b), x, 0, 0);
    BytesOfNumber(x, 0, 0);
  }

  lemma TwoReadBack(b: seq<Byte>)
    requires |b| == 2
    ensures |Base64(b)| == 4 && QuadBytes(Base64(b)) == b
  {
    hide Base64Digit, DigitValue, QuadValue;
    var x, y := b[0] as int, b[1] as int;
    ValueOfDigit(x / 4);
    ValueOfDigit(x % 4 * 16 + y / 16);
    ValueOfDigit(y % 16 * 4);
    PadIsZero();
    QuadOf(Base64(b), x, y, 0);
    BytesOfNumber(x, y, 0);
  }

  /** Decoding gives the bytes back. */
  lemma {:induction false} Base64ReadsBack(b: seq<Byte>)
    ensures Unbase64(Base64(b)) == b
    decreases |b|
  {
    hide Group, QuadBytes;
    if b == [] {
    } else {
      var s := Base64(b);
      if |b| == 1 {
        OneReadsBack(b);
        assert s[..4] == s && s[4..] == [];
      } else if |b| == 2 {
        TwoReadBack(b);
        assert s[..4] == s && s[4..] == [];
      } else {
        GroupReadsBack(b[..3]);
        Base64ReadsBack(b[3..]);
        assert s[..4] == Group(b[..3]) && s[4..] == Base64(b[3..]);
      }
    }
  }

  /** What is over a multiple of three bytes is held back, and nothing else. */
  lemma HoldsTheRemainder(chunks: seq<seq<Byte>>)
    ensures |Feed(BASE64, chunks).1.bytes| == |Concat(chunks)| % 3
  {
    hide Feed, Concat, Encoding.OneShot;
    FeedConverts(BASE64, chunks);
  }
}
