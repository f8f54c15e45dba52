/** The fixed 32-bit big-endian accessors of Buffer (module 8764) that the hashes use. */
module BufferWords {
  import opened JsNumbers
  import opened Bytes

  /** readInt32BE, at an offset where four bytes are left. */
  function ReadInt32BE(b: seq<Byte>, at: nat): (r: int)
    requires at + 4 <= |b|
    ensures IsInt32(r)
  {
    BitOr(BitOr(BitOr(ShiftLeft(b[at], 24), ShiftLeft(b[at + 1], 16)), ShiftLeft(b[at + 2], 8)), b[at + 3])
  }

  /** Read as unsigned, it is the big-endian value of the four bytes. */
  lemma ReadInt32BEValue(b: seq<Byte>, at: nat)
    requires at + 4 <= |b|
    ensures U32(ReadInt32BE(b, at)) == BeValue(Slice(b, at, 4))
  {
    OrOfFourBytes(b[at], b[at + 1], b[at + 2], b[at + 3]);
    BeValueOfFour(Slice(b, at, 4));
  }

  lemma OrOfFourBytes(b0: Byte, b1: Byte, b2: Byte, b3: Byte)
    ensures U32(BitOr(BitOr(BitOr(ShiftLeft(b0, 24), ShiftLeft(b1, 16)), ShiftLeft(b2, 8)), b3))
         == 0x100_0000 * (b0 as int) + 0x1_0000 * (b1 as int) + 0x100 * (b2 as int) + b3 as int
  {
    hide BitOr, ShiftLeft, U32;
    var s0, s1, s2 := ShiftLeft(b0, 24), ShiftLeft(b1, 16), ShiftLeft(b2, 8);
    ShiftedBytes(b0, b1, b2);
    ByteItself(b3);
    OrOfFour(s0, s1, s2, b3, b0, b1, b2, b3);
  }

  lemma OrOfFour(s0: int, s1: int, s2: int, s3: int, b0: Byte, b1: Byte, b2: Byte, b3: Byte)
    requires U32(s0) == 0x100_0000 * (b0 as int) && U32(s1) == 0x1_0000 * (b1 as int)
    requires U32(s2) == 0x100 * (b2 as int) && U32(s3) == b3
    ensures U32(BitOr(BitOr(BitOr(s0, s1), s2), s3))
         == 0x100_0000 * (b0 as int) + 0x1_0000 * (b1 as int) + 0x100 * (b2 as int) + b3 as int
  {
    hide BitOr, U32, Pow2;
    ByteBoundaries();
    OrBytes(24, 8, s0, s1, b0, (b1 as int) * 0x1_0000);
    OrBytes(16, 16, BitOr(s0, s1), s2, (b0 as int) * 0x100 + b1 as int, (b2 as int) * 0x100);
    OrBytes(8, 24, BitOr(BitOr(s0, s1), s2), s3, (b0 as int) * 0x1_0000 + (b1 as int) * 0x100 + b2 as int, b3);
  }

  lemma ByteItself(b: Byte)
    ensures U32(b) == b
  {
  }

  lemma ShiftedBytes(b0: Byte, b1: Byte, b2: Byte)
    ensures U32(ShiftLeft(b0, 24)) == 0x100_0000 * (b0 as int)
    ensures U32(ShiftLeft(b1, 16)) == 0x1_0000 * (b1 as int)
    ensures U32(ShiftLeft(b2, 8)) == 0x100 * (b2 as int)
  {
    ByteBoundaries();
  }

  lemma OrBytes(k: nat, m: nat, x: int, y: int, hi: nat, lo: nat)
    requires k + m == 32 && hi < Pow2(m) && lo < Pow2(k)
    requires U32(x) == Concat(hi, 0, Pow2(k)) && U32(y) == lo
    ensures U32(BitOr(x, y)) == Concat(hi, lo, Pow2(k))
  {
    OrIsSum(k, m, lo, hi);
  }

  lemma ByteBoundaries()
    ensures Pow2(8) == 0x100 && Pow2(16) == 0x1_0000 && Pow2(24) == 0x100_0000 && Pow2(32) == TWO_32
  {
    assert Pow2(8) == 0x100;
    Pow2Add(8, 8);
    Pow2Add(16, 8);
    Pow2Of32();
  }

  /** writeUInt32BE: the offset modulo 2^32, the range check, then the four bytes. */
  method WriteUInt32BE(buf: array<Byte>, e: int, offset: int) returns (ok: bool)
    modifies buf
    ensures ok <==> 0 <= e < TWO_32 && U32(offset) + 4 <= buf.Length
    ensures !ok ==> buf[..] == old(buf[..])
    ensures ok ==> buf[..] == old(buf[..U32(offset)]) + BeBytes(4, e) + old(buf[U32(offset) + 4..])
  {
    var at := U32(offset);
    if e > 0xffff_ffff || e < 0 || at + 4 > buf.Length {
      return false;
    }
    StoreWord(buf, e, at);
    return true;
  }

  /** writeInt32BE: the offset modulo 2^32, the range check, the wrap of negative values, then the four bytes. */
  method WriteInt32BE(buf: array<Byte>, e: int, offset: int) returns (ok: bool)
    modifies buf
    ensures ok <==> IsInt32(e) && U32(offset) + 4 <= buf.Length
    ensures !ok ==> buf[..] == old(buf[..])
    ensures ok ==> buf[..] == old(buf[..U32(offset)]) + BeBytes(4, U32(e)) + old(buf[U32(offset) + 4..])
  {
    var at := U32(offset);
    if e > 0x7fff_ffff || e < -0x8000_0000 || at + 4 > buf.Length {
      return false;
    }
    var u := if e < 0 then 0xffff_ffff + e + 1 else e;
    assert u == U32(e);
    StoreWord(buf, u, at);
    return true;
  }

  /** The four stores that end both writers; a byte array keeps the low eight bits of each. */
  method StoreWord(buf: array<Byte>, e: nat, at: nat)
    requires e < TWO_32 && at + 4 <= buf.Length
    modifies buf
    ensures buf[..] == old(buf[..at]) + BeBytes(4, e) + old(buf[at + 4..])
  {
    FourBytes(e);
    buf[at] := ShiftRightZero(e, 24) % 256;
    buf[at + 1] := ShiftRightZero(e, 16) % 256;
    buf[at + 2] := ShiftRightZero(e, 8) % 256;
    buf[at + 3] := U32(e) % 256;
    assert buf[at..at + 4] == BeBytes(4, e);
    assert buf[..at] == old(buf[..at]) && buf[at + 4..] == old(buf[at + 4..]);
    assert buf[..] == buf[..at] + buf[at..at + 4] + buf[at + 4..];
  }

  lemma FourBytes(e: int)
    requires 0 <= e < TWO_32
    ensures BeBytes(4, e) == [ShiftRightZero(e, 24) % 256, ShiftRightZero(e, 16) % 256,
                              ShiftRightZero(e, 8) % 256, U32(e) % 256]
  {
    hide Pow2, ShiftRightZero, BeBytes, Quotient, U32;
    var e1, e2, e3 := e / 256, e / 256 / 256, e / 256 / 256 / 256;
    ShiftIsDivision(e);
    NestedQuotients(e);
    UnfoldBytes(4, e);
    UnfoldBytes(3, e1);
    UnfoldBytes(2, e2);
    UnfoldBytes(1, e3);
    assert BeBytes(0, e3 / 256) == [];
  }

  lemma ShiftIsDivision(e: nat)
    requires e < TWO_32
    ensures ShiftRightZero(e, 24) == e / 0x100_0000
    ensures ShiftRightZero(e, 16) == e / 0x1_0000
    ensures ShiftRightZero(e, 8) == e / 0x100
    ensures U32(e) == e
  {
    hide Pow2;
    ByteBoundaries();
  }

  lemma NestedQuotients(e: nat)
    ensures e / 0x1_0000 == e / 256 / 256
    ensures e / 0x100_0000 == e / 256 / 256 / 256
  {
  }

  lemma UnfoldBytes(n: nat, x: nat)
    requires n > 0
    ensures BeBytes(n, x) == BeBytes(n - 1, x / 256) + [x % 256]
  {
  }

  /** The big-endian bytes of a list of 32-bit words. */
  function BeWords(words: seq<int>): (r: seq<Byte>)
    ensures |r| == 4 * |words|
  {
    if words == [] then [] else BeWords(words[..|words| - 1]) + BeBytes(4, U32(words[|words| - 1]))
  }

  lemma Unroll(s: seq<int>, x: int)
    ensures BeWords(s + [x]) == BeWords(s) + BeBytes(4, U32(x))
  {
    assert (s + [x])[..|s|] == s;
  }

  /** The row of writeInt32BE calls with which the hashes lay out their result. */
  method WriteWords(words: seq<int>) returns (out: array<Byte>)
    requires forall i :: 0 <= i < |words| ==> IsInt32(words[i])
    requires 4 * |words| <= 0x7fff_ffff
    ensures fresh(out) && out[..] == BeWords(words)
  {
    hide U32;
    out := new Byte[4 * |words|];
    var i := 0;
    while i < |words|
      invariant 0 <= i <= |words|
      invariant out[..4 * i] == BeWords(words[..i])
    {
      SmallWord(4 * i);
      var ok := WriteInt32BE(out, words[i], 4 * i);
      assert words[..i + 1][..i] == words[..i];
      assert out[..4 * i + 4] == BeWords(words[..i]) + BeBytes(4, U32(words[i]));
      i := i + 1;
    }
    assert words[..i] == words;
    assert out[..4 * i] == out[..];
  }
}
