/** Module 8764: the UTF-8 encoder `H` and decoder `A` of Buffer. */
module Utf8Codec {
  import opened JsNumbers
  import opened Bytes
  import opened Unicode

  // ----- The bit expressions of the two functions -----

  lemma Pow2Values()
    ensures Pow2(4) == 0x10 && Pow2(5) == 0x20 && Pow2(6) == 0x40 && Pow2(10) == 0x400 && Pow2(12) == 0x1000
    ensures Pow2(18) == 0x4_0000 && Pow2(3) == 8 && Pow2(26) == 0x400_0000
  {
    assert Pow2(3) == 8 && Pow2(4) == 16 && Pow2(5) == 32 && Pow2(6) == 64;
    Pow2Add(5, 5);
    Pow2Add(6, 6);
    Pow2Add(6, 12);
    Pow2Add(6, 10);
    Pow2Add(10, 16);
  }

  /** r >> n & 63 | 128 */
  function TrailByte(r: nat, n: nat): (b: Byte)
    requires r < 0x11_0000 && (n == 0 || n == 6 || n == 12)
    ensures b as int == 0x80 + r / (if n == 0 then 1 else if n == 6 then 0x40 else 0x1000) % 0x40
  {
    TrailByteValue(r, n);
    BitOr(BitAnd(63, ShiftRightZero(r, n)), 128)
  }

  lemma TrailByteValue(r: nat, n: nat)
    requires r < 0x11_0000 && (n == 0 || n == 6 || n == 12)
    ensures BitOr(BitAnd(63, ShiftRightZero(r, n)), 128)
         == 0x80 + r / (if n == 0 then 1 else if n == 6 then 0x40 else 0x1000) % 0x40
  {
    Shifted(r, n);
    Pow2Values();
    hide Pow2, ShiftRightZero, BitOr, BitAnd;
    var x := ShiftRightZero(r, n);
    MaskIsRemainder(6, 63, x);
    TagFits();
    OrIsTag(6, x % 0x40, 2, 128);
  }

  lemma TagFits()
    ensures Pow2(26) > 3 && Pow2(27) > 14 && Pow2(29) > 30
  {
    Pow2Values();
    assert Pow2(29) == 2 * Pow2(28) && Pow2(28) == 2 * Pow2(27) && Pow2(27) == 2 * Pow2(26);
  }

  lemma Shifted(r: nat, n: nat)
    requires r < 0x11_0000 && (n == 0 || n == 6 || n == 12 || n == 18)
    ensures ShiftRightZero(r, n)
         == r / (if n == 0 then 1 else if n == 6 then 0x40 else if n == 12 then 0x1000 else 0x4_0000)
  {
    Pow2Values();
    assert Pow2(0) == 1;
    SmallWord(r);
    hide Pow2, U32;
  }

  /** r >> 6 | 192 */
  lemma LeadByteOfTwo(r: nat)
    requires r < 0x800
    ensures BitOr(ShiftRightZero(r, 6), 192) == 0xC0 + r / 0x40
  {
    Shifted(r, 6);
    Pow2Values();
    TagFits();
    hide Pow2, ShiftRightZero, BitOr;
    OrIsTag(6, r / 0x40, 3, 192);
  }

  /** r >> 12 | 224 */
  lemma LeadByteOfThree(r: nat)
    requires r < 0x1_0000
    ensures BitOr(ShiftRightZero(r, 12), 224) == 0xE0 + r / 0x1000
  {
    Shifted(r, 12);
    Pow2Values();
    TagFits();
    hide Pow2, ShiftRightZero, BitOr;
    OrIsTag(5, r / 0x1000, 7, 224);
  }

  /** r >> 18 | 240 */
  lemma LeadByteOfFour(r: nat)
    requires r < 0x11_0000
    ensures BitOr(ShiftRightZero(r, 18), 240) == 0xF0 + r / 0x4_0000
  {
    Shifted(r, 18);
    Pow2Values();
    TagFits();
    hide Pow2, ShiftRightZero, BitOr;
    OrIsTag(3, r / 0x4_0000, 30, 240);
  }

  function LeadByte(r: nat, n: nat): (b: Byte)
    requires r < 0x11_0000
    requires (n == 6 && r < 0x800) || (n == 12 && r < 0x1_0000) || n == 18
    ensures b as int == (if n == 6 then 0xC0 + r / 0x40 else if n == 12 then 0xE0 + r / 0x1000 else 0xF0 + r / 0x4_0000)
  {
    hide BitOr, ShiftRightZero;
    if n == 6 then LeadByteOfTwo(r); BitOr(ShiftRightZero(r, 6), 192)
    else if n == 12 then LeadByteOfThree(r); BitOr(ShiftRightZero(r, 12), 224)
    else LeadByteOfFour(r); BitOr(ShiftRightZero(r, 18), 240)
  }

  /** The bytes that `H` pushes for the code point r. */
  function Encoded(r: nat): (b: seq<Byte>)
    requires r < 0x11_0000 && !(0xD800 <= r < 0xE000)
    ensures b == Utf8Char(r)
  {
    hide LeadByte, TrailByte;
    if r < 128 then [r]
    else if r < 2048 then [LeadByte(r, 6), TrailByte(r, 0)]
    else if r < 65536 then [LeadByte(r, 12), TrailByte(r, 6), TrailByte(r, 0)]
    else [LeadByte(r, 18), TrailByte(r, 12), TrailByte(r, 6), TrailByte(r, 0)]
  }

  lemma ShiftLeftSmall(x: nat, n: nat)
    requires n < 32 && x < TWO_31 && x * Pow2(n) < TWO_31
    ensures ShiftLeft(x, n) == x * Pow2(n)
  {
    SmallWord(x);
    SmallWord(x * Pow2(n));
    hide U32, I32;
  }

  /** 65536 + (lead - 55296 << 10 | trail - 56320) */
  function JoinPair(lead: Unit, trail: Unit): (r: nat)
    requires IsLead(lead) && IsTrail(trail)
    ensures r == PairValue(lead, trail)
  {
    Pow2Values();
    hide Pow2, BitOr, ShiftLeft;
    ShiftLeftSmall(lead - 55296, 10);
    assert Pow2(22) > 0x3FF by { TagFits22(); }
    OrIsTag(10, trail - 56320, lead - 55296, (lead - 55296) * 0x400);
    65536 + BitOr(ShiftLeft(lead - 55296, 10), trail - 56320)
  }

  lemma TagFits22()
    ensures Pow2(22) > 0x3FF && Pow2(20) > 0xFFF && Pow2(14) > 0x3FF
  {
    Pow2Values();
    Pow2Add(10, 4);
    Pow2Add(10, 10);
    Pow2Add(10, 12);
  }

  /** (31 & t) << 6 | 63 & r */
  function TwoBytes(t: Byte, r: Byte): (s: nat)
    ensures s == (t as int) % 32 * 0x40 + (r as int) % 64
  {
    Pow2Values();
    TagFits();
    hide Pow2, BitOr, BitAnd, ShiftLeft;
    MaskIsRemainder(5, 31, t);
    MaskIsRemainder(6, 63, r);
    ShiftLeftSmall((t as int) % 32, 6);
    WideTag();
    OrIsTag(6, (r as int) % 64, (t as int) % 32, (t as int) % 32 * 0x40);
    BitOr(ShiftLeft(BitAnd(31, t), 6), BitAnd(63, r))
  }

  lemma WideTag()
    ensures Pow2(26) > 0x3FF
  {
    Pow2Values();
    hide Pow2;
  }

  /** (15 & t) << 12 | (63 & r) << 6 | 63 & n */
  function ThreeBytes(t: Byte, r: Byte, n: Byte): (s: nat)
    ensures s == (t as int) % 16 * 0x1000 + (r as int) % 64 * 0x40 + (n as int) % 64
  {
    ThreeBytesValue(t, r, n);
    BitOr(BitOr(ShiftLeft(BitAnd(15, t), 12), ShiftLeft(BitAnd(63, r), 6)), BitAnd(63, n))
  }

  lemma ThreeBytesValue(t: Byte, r: Byte, n: Byte)
    ensures BitOr(BitOr(ShiftLeft(BitAnd(15, t), 12), ShiftLeft(BitAnd(63, r), 6)), BitAnd(63, n))
         == (t as int) % 16 * 0x1000 + (r as int) % 64 * 0x40 + (n as int) % 64
  {
    Pow2Values();
    WideTag();
    TagFits22();
    hide Pow2, BitOr, BitAnd, ShiftLeft;
    var a, b, c := (t as int) % 16, (r as int) % 64, (n as int) % 64;
    MaskIsRemainder(4, 15, t);
    MaskIsRemainder(6, 63, r);
    MaskIsRemainder(6, 63, n);
    ShiftLeftSmall(a, 12);
    ShiftLeftSmall(b, 6);
    OrIsTag(12, b * 0x40, a, a * 0x1000);
    OrIsTag(6, c, a * 0x40 + b, a * 0x1000 + b * 0x40);
  }

  /** (15 & t) << 18 | (63 & r) << 12 | (63 & n) << 6 | 63 & u */
  function FourBytes(t: Byte, r: Byte, n: Byte, u: Byte): (s: nat)
    ensures s == (t as int) % 16 * 0x4_0000 + (r as int) % 64 * 0x1000 + (n as int) % 64 * 0x40 + (u as int) % 64
  {
    FourBytesValue(t, r, n, u);
    BitOr(BitOr(BitOr(ShiftLeft(BitAnd(15, t), 18), ShiftLeft(BitAnd(63, r), 12)), ShiftLeft(BitAnd(63, n), 6)), BitAnd(63, u))
  }

  lemma FourBytesValue(t: Byte, r: Byte, n: Byte, u: Byte)
    ensures BitOr(BitOr(BitOr(ShiftLeft(BitAnd(15, t), 18), ShiftLeft(BitAnd(63, r), 12)), ShiftLeft(BitAnd(63, n), 6)), BitAnd(63, u))
         == (t as int) % 16 * 0x4_0000 + (r as int) % 64 * 0x1000 + (n as int) % 64 * 0x40 + (u as int) % 64
  {
    hide BitOr, BitAnd, ShiftLeft;
    var a, b, c, d := (t as int) % 16, (r as int) % 64, (n as int) % 64, (u as int) % 64;
    MaskedFields(t, r, n, u);
    OrOfTwo(18, 14, a, b * 0x1000);
    OrOfTwo(12, 20, a * 0x40 + b, c * 0x40);
    OrOfTwo(6, 26, a * 0x1000 + b * 0x40 + c, d);
  }

  lemma MaskedFields(t: Byte, r: Byte, n: Byte, u: Byte)
    ensures ShiftLeft(BitAnd(15, t), 18) == (t as int) % 16 * 0x4_0000
    ensures ShiftLeft(BitAnd(63, r), 12) == (r as int) % 64 * 0x1000
    ensures ShiftLeft(BitAnd(63, n), 6) == (n as int) % 64 * 0x40
    ensures BitAnd(63, u) == (u as int) % 64
  {
    Pow2Values();
    hide Pow2, BitAnd, ShiftLeft;
    MaskIsRemainder(4, 15, t);
    MaskIsRemainder(6, 63, r);
    MaskIsRemainder(6, 63, n);
    MaskIsRemainder(6, 63, u);
    ShiftLeftSmall((t as int) % 16, 18);
    ShiftLeftSmall((r as int) % 64, 12);
    ShiftLeftSmall((n as int) % 64, 6);
  }

  lemma OrOfTwo(k: nat, m: nat, hi: nat, lo: nat)
    requires (k == 18 && m == 14 && hi < 0x10) || (k == 12 && m == 20 && hi < 0x400) || (k == 6 && m == 26 && hi < 0x1_0000)
    requires lo < (if k == 18 then 0x4_0000 else if k == 12 then 0x1000 else 0x40)
    ensures var p := if k == 18 then 0x4_0000 else if k == 12 then 0x1000 else 0x40;
            BitOr(hi * p, lo) == hi * p + lo
  {
    Pow2Values();
    TagFits22();
    hide Pow2, BitOr;
    OrIsTag(k, lo, hi, hi * Pow2(k));
  }

  /** l >>> 10 & 1023 | 55296 and 56320 | 1023 & l */
  function EmittedUnit(l: nat, high: bool): (u: Unit)
    requires l < 0x10_0000
    ensures u as int == if high then 0xD800 + l / 0x400 else 0xDC00 + l % 0x400
  {
    hide BitOr, BitAnd, ShiftRightZero;
    EmittedPair(l);
    if high then BitOr(BitAnd(ShiftRightZero(l, 10), 1023), 55296) else BitOr(56320, BitAnd(1023, l))
  }

  /** The code units that `A` pushes for the code point l. */
  function Emitted(l: nat): (s: seq<Unit>)
    requires l < 0x11_0000 && !(0xD800 <= l < 0xE000)
    ensures s == Utf16Char(l)
  {
    hide EmittedUnit;
    if l > 65535 then [EmittedUnit(l - 65536, true), EmittedUnit(l - 65536, false)] else [l]
  }

  lemma EmittedPair(l: nat)
    requires l < 0x10_0000
    ensures BitOr(BitAnd(ShiftRightZero(l, 10), 1023), 55296) == 55296 + l / 0x400
    ensures BitOr(56320, BitAnd(1023, l)) == 56320 + l % 0x400
  {
    hide BitOr, BitAnd, ShiftRightZero;
    TenBits(l);
    TenBits(l / 0x400);
    TagTenBits(l / 0x400);
    TagTenBits(l % 0x400);
  }

  lemma TenBits(l: nat)
    requires l < 0x10_0000
    ensures ShiftRightZero(l, 10) == l / 0x400
    ensures BitAnd(1023, l) == BitAnd(l, 1023) == l % 0x400
  {
    Pow2Values();
    SmallWord(l);
    hide Pow2, U32, BitAnd;
    MaskIsRemainder(10, 1023, l);
  }

  lemma TagTenBits(x: nat)
    requires x < 0x400
    ensures BitOr(x, 55296) == 55296 + x && BitOr(56320, x) == 56320 + x
  {
    Pow2Values();
    TagFits22();
    hide Pow2, BitOr;
    OrIsTag(10, x, 54, 55296);
    OrIsTag(10, x, 55, 56320);
  }
}
