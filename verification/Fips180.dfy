/** The secure hash algorithms SHA-256 and SHA-512 as FIPS 180-4 defines them, on natural numbers.

    The two algorithms differ only in the word size, the rotation amounts, the number of rounds and
    the tables, so one definition is given over a `Variant`. Nothing here is taken from the bundle. */
module Fips180 {
  import opened JsNumbers
  import opened Bytes

  /** The rotation amounts of sections 4.1.2 and 4.1.3: three rotations for the upper-case sigmas,
      two rotations and a shift for the lower-case ones. */
  datatype Amounts = Amounts(r1: nat, r2: nat, r3: nat)

  datatype Variant = Variant(w: nat, upper0: Amounts, upper1: Amounts, lower0: Amounts, lower1: Amounts, rounds: nat)
  {
    predicate Valid() {
      && w > 0
      && (forall s <- {upper0, upper1, lower0, lower1} :: 0 < s.r1 < w && 0 < s.r2 < w && 0 < s.r3 < w)
    }
  }

  const SHA256 := Variant(32, Amounts(2, 13, 22), Amounts(6, 11, 25), Amounts(7, 18, 3), Amounts(17, 19, 10), 64)
  const SHA512 := Variant(64, Amounts(28, 34, 39), Amounts(14, 18, 41), Amounts(1, 8, 7), Amounts(19, 61, 6), 80)

  // ----- Section 3.2: operations on w-bit words -----

  function RotR(w: nat, x: nat, n: nat): (r: nat)
    requires 0 < n < w
  {
    Bitwise(w, OR, ShR(x, n), ShL(w, x, w - n))
  }

  function ShL(w: nat, x: nat, n: nat): (r: nat)
    ensures r < Pow2(w)
  {
    Concat(x, 0, Pow2(n)) % Pow2(w)
  }

  function ShR(x: nat, n: nat): (r: nat)
  {
    Quotient(x, Pow2(n))
  }

  // ----- Sections 4.1.2 and 4.1.3: functions -----

  function Ch(w: nat, x: nat, y: nat, z: nat): (r: nat)
    requires x < Pow2(w)
  {
    Bitwise(w, XOR, Bitwise(w, AND, x, y), Bitwise(w, AND, Complement(w, x), z))
  }

  function Maj(w: nat, x: nat, y: nat, z: nat): (r: nat)
  {
    Bitwise(w, XOR, Bitwise(w, XOR, Bitwise(w, AND, x, y), Bitwise(w, AND, x, z)), Bitwise(w, AND, y, z))
  }

  function UpperSigma(w: nat, s: Amounts, x: nat): (r: nat)
    requires 0 < s.r1 < w && 0 < s.r2 < w && 0 < s.r3 < w
  {
    Bitwise(w, XOR, Bitwise(w, XOR, RotR(w, x, s.r1), RotR(w, x, s.r2)), RotR(w, x, s.r3))
  }

  function LowerSigma(w: nat, s: Amounts, x: nat): (r: nat)
    requires 0 < s.r1 < w && 0 < s.r2 < w
  {
    Bitwise(w, XOR, Bitwise(w, XOR, RotR(w, x, s.r1), RotR(w, x, s.r2)), ShR(x, s.r3))
  }

  // ----- Sections 6.2.2 and 6.4.2: the hash computation -----

  datatype Working = Working(a: nat, b: nat, c: nat, d: nat, e: nat, f: nat, g: nat, h: nat)
  {
    predicate InRange(w: nat) {
      && a < Pow2(w) && b < Pow2(w) && c < Pow2(w) && d < Pow2(w)
      && e < Pow2(w) && f < Pow2(w) && g < Pow2(w) && h < Pow2(w)
    }
  }

  /** Step 1: word t of the message schedule of the block M. */
  function Schedule(v: Variant, M: seq<nat>, t: nat): (r: nat)
    requires v.Valid() && |M| == 16
  {
    if t < 16 then M[t]
    else
      ( LowerSigma(v.w, v.lower1, Schedule(v, M, t - 2)) + Schedule(v, M, t - 7)
      + LowerSigma(v.w, v.lower0, Schedule(v, M, t - 15)) + Schedule(v, M, t - 16)) % Pow2(v.w)
  }

  /** One iteration of step 3. */
  function Round(v: Variant, s: Working, k: nat, word: nat): (r: Working)
    requires v.Valid() && s.InRange(v.w)
    ensures r.InRange(v.w)
  {
    var t1 := (s.h + UpperSigma(v.w, v.upper1, s.e) + Ch(v.w, s.e, s.f, s.g) + k + word) % Pow2(v.w);
    var t2 := (UpperSigma(v.w, v.upper0, s.a) + Maj(v.w, s.a, s.b, s.c)) % Pow2(v.w);
    Working((t1 + t2) % Pow2(v.w), s.a, s.b, s.c, (s.d + t1) % Pow2(v.w), s.e, s.f, s.g)
  }

  /** The working variables after t iterations of step 3. */
  function Rounds(v: Variant, K: seq<nat>, M: seq<nat>, s: Working, t: nat): (r: Working)
    requires v.Valid() && s.InRange(v.w) && |M| == 16 && t <= |K|
    ensures r.InRange(v.w)
  {
    if t == 0 then s
    else Round(v, Rounds(v, K, M, s, t - 1), K[t - 1], Schedule(v, M, t - 1))
  }

  /** Step 4: the next intermediate hash value. */
  function Compress(v: Variant, K: seq<nat>, s: Working, M: seq<nat>): (r: Working)
    requires v.Valid() && s.InRange(v.w) && |M| == 16 && |K| == v.rounds
    ensures r.InRange(v.w)
  {
    var z := Rounds(v, K, M, s, v.rounds);
    var p := Pow2(v.w);
    Working((s.a + z.a) % p, (s.b + z.b) % p, (s.c + z.c) % p, (s.d + z.d) % p,
            (s.e + z.e) % p, (s.f + z.f) % p, (s.g + z.g) % p, (s.h + z.h) % p)
  }

  // ----- Sections 5.1.1 and 5.1.2: padding; section 5.2: parsing -----

  function WordBytes(v: Variant): (n: nat) {
    v.w / 8
  }

  function BlockBytes(v: Variant): (n: nat) {
    16 * WordBytes(v)
  }

  predicate Known(v: Variant) {
    v == SHA256 || v == SHA512
  }

  /** n bytes are a whole number of blocks: of 64 bytes for SHA-256, of 128 for SHA-512. */
  predicate WholeBlocks(v: Variant, n: nat)
    requires Known(v)
  {
    if v == SHA256 then n % 64 == 0 else n % 128 == 0
  }

  /** The number of zero bits after the single one bit, for a message of l bits. */
  function PadZeroBits(v: Variant, l: nat): (k: nat)
    requires v.w > 0
  {
    (14 * v.w - 1 - l) % (16 * v.w)
  }

  /** What sections 5.1.1 and 5.1.2 ask of k zero bits: 448 modulo 512, or 896 modulo 1024. */
  predicate FillsUp(v: Variant, l: nat, k: nat)
    requires v.w > 0
  {
    (l + 1 + k) % (16 * v.w) == 14 * v.w
  }

  /** The number of zero bits is the least that fills up. */
  lemma PadZeroBitsLeast(v: Variant, l: nat)
    requires Known(v)
    ensures FillsUp(v, l, PadZeroBits(v, l))
    ensures forall j: nat | j < PadZeroBits(v, l) :: !FillsUp(v, l, j)
  {
    if v == SHA256 {
      PadLeast256(l);
    } else {
      PadLeast512(l);
    }
  }

  lemma PadLeast256(l: nat)
    ensures FillsUp(SHA256, l, PadZeroBits(SHA256, l))
    ensures forall j: nat | j < PadZeroBits(SHA256, l) :: !FillsUp(SHA256, l, j)
  {
  }

  lemma PadLeast512(l: nat)
    ensures FillsUp(SHA512, l, PadZeroBits(SHA512, l))
    ensures forall j: nat | j < PadZeroBits(SHA512, l) :: !FillsUp(SHA512, l, j)
  {
  }

  /** The zero bytes after the byte 0x80; a message of whole bytes is followed by whole bytes. */
  function PadZeroBytes(v: Variant, n: nat): (z: nat)
    requires Known(v)
    ensures PadZeroBits(v, 8 * n) == 8 * z + 7
    ensures WholeBlocks(v, n + 1 + z + v.w / 4)
    ensures z < BlockBytes(v)
  {
    hide PadZeroBits;
    if v == SHA256 then
      PadZeros256(n);
      (55 - n) % 64
    else
      PadZeros512(n);
      (111 - n) % 128
  }

  lemma PadZeros256(n: nat)
    ensures var z := (55 - n) % 64;
            PadZeroBits(SHA256, 8 * n) == 8 * z + 7 && (n + 1 + z + 8) % 64 == 0
  {
    var z, q := (55 - n) % 64, (55 - n) / 64;
    assert 447 - 8 * n == 512 * q + (8 * z + 7);
    assert n + 1 + z + 8 == 64 * (1 - q);
  }

  lemma PadZeros512(n: nat)
    ensures var z := (111 - n) % 128;
            PadZeroBits(SHA512, 8 * n) == 8 * z + 7 && (n + 1 + z + 16) % 128 == 0
  {
    var z, q := (111 - n) % 128, (111 - n) / 128;
    assert 895 - 8 * n == 1024 * q + (8 * z + 7);
    assert n + 1 + z + 16 == 128 * (1 - q);
  }

  /** The padded message: the message, a one bit, the zero bits, and the length in bits as a number of
      two words. */
  function Pad(v: Variant, m: seq<Byte>): (r: seq<Byte>)
    requires Known(v)
    ensures WholeBlocks(v, |r|)
  {
    m + [0x80] + Zeros(PadZeroBytes(v, |m|)) + BeBytes(v.w / 4, 8 * |m|)
  }

  lemma OneBlockLess(v: Variant, n: nat)
    requires Known(v) && WholeBlocks(v, n)
    ensures n == 0 || (n >= BlockBytes(v) && WholeBlocks(v, n - BlockBytes(v)))
    ensures WholeBlocks(v, n + BlockBytes(v))
  {
    if v == SHA256 {
      DivMod(n - 64, 64, n / 64 - 1, 0);
      DivMod(n + 64, 64, n / 64 + 1, 0);
    } else {
      DivMod(n - 128, 128, n / 128 - 1, 0);
      DivMod(n + 128, 128, n / 128 + 1, 0);
    }
  }

  /** Steps 1 to 4 for each block of s in turn, from the hash value H. */
  function HashBlocks(v: Variant, K: seq<nat>, H: Working, s: seq<Byte>): (r: Working)
    requires Known(v)
    requires H.InRange(v.w) && |K| == v.rounds && WholeBlocks(v, |s|)
    ensures r.InRange(v.w)
    decreases |s|
  {
    var n := BlockBytes(v);
    OneBlockLess(v, |s|);
    if |s| == 0 then H
    else Compress(v, K, HashBlocks(v, K, H, s[..|s| - n]), Words(s[|s| - n..], WordBytes(v)))
  }

  /** The hash value of the whole message. */
  function Hash(v: Variant, K: seq<nat>, H: Working, m: seq<Byte>): (r: Working)
    requires Known(v)
    requires H.InRange(v.w) && |K| == v.rounds
  {
    HashBlocks(v, K, H, Pad(v, m))
  }

  /** The message digest: the eight words of the final hash value, concatenated. */
  function Digest(v: Variant, s: Working): (r: seq<Byte>) {
    var n := WordBytes(v);
    BeBytes(n, s.a) + BeBytes(n, s.b) + BeBytes(n, s.c) + BeBytes(n, s.d) +
    BeBytes(n, s.e) + BeBytes(n, s.f) + BeBytes(n, s.g) + BeBytes(n, s.h)
  }
}
