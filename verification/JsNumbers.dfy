/** JavaScript's number operators, as far as the bundle needs them.

    A number is an `int`: the sums and products the modelled code forms are exact in JavaScript's
    doubles, because they are integers below 2^53 in absolute value; the one exception, the length of
    a hashed message in bits, goes up to 2^56 and is exact as a multiple of eight. The bitwise
    operators truncate to 32 bits exactly as ECMAScript's ToInt32 and ToUint32 do. */
module JsNumbers {

  const TWO_31 := 0x8000_0000
  const TWO_32 := 0x1_0000_0000
  const TWO_53 := 0x20_0000_0000_0000

  function Pow2(n: nat): (p: nat)
    ensures p > 0
  {
    if n == 0 then 1 else 2 * Pow2(n - 1)
  }

  lemma {:induction false} Pow2Add(m: nat, n: nat)
    ensures Pow2(m + n) == Pow2(m) * Pow2(n)
  {
    if m == 0 {
    } else {
      Pow2Add(m - 1, n);
      assert Pow2(m + n) == 2 * Pow2(m - 1 + n);
      assert 2 * (Pow2(m - 1) * Pow2(n)) == (2 * Pow2(m - 1)) * Pow2(n);
    }
  }

  lemma Pow2Of32()
    ensures Pow2(32) == TWO_32
  {
    assert Pow2(8) == 0x100;
    Pow2Add(8, 8);
    Pow2Add(16, 16);
  }

  // ----- Division facts -----

  function Quotient(x: nat, p: nat): (q: nat)
    requires p > 0
    ensures q * p <= x < q * p + p
    ensures q <= x
  {
    QuotientIsNat(x, p);
    x / p
  }

  lemma QuotientIsNat(x: nat, p: nat)
    requires p > 0
    ensures 0 <= x / p <= x
  {
    var q := x / p;
    assert x == q * p + x % p;
    if q < 0 {
      MulMonotone(-1, q, p);
    } else {
      MulMonotone(p, 1, q);
    }
  }

  lemma MulMonotone(a: int, b: int, m: nat)
    requires a >= b
    ensures a * m >= b * m
  {
    assert (a - b) * m >= 0;
  }

  lemma NoSmallMultiple(k: int, m: nat, s: int)
    requires k * m == s && 0 - m < s < m
    ensures k == 0
  {
    if k > 0 {
      MulMonotone(k, 1, m);
    } else if k < 0 {
      MulMonotone(-1, k, m);
    }
  }

  lemma DivMod(x: int, m: nat, d: int, r: nat)
    requires m > 0 && x == d * m + r && r < m
    ensures x / m == d && x % m == r
  {
    var e := x / m;
    assert x == e * m + x % m;
    assert (e - d) * m == r - x % m;
    NoSmallMultiple(e - d, m, r - x % m);
  }

  /** ToUint32. */
  function U32(x: int): (u: nat)
    ensures u < TWO_32
  {
    x % TWO_32
  }

  /** ToInt32, which is what `x | 0` computes. */
  function I32(x: int): (i: int)
    ensures -TWO_31 <= i < TWO_31
    ensures U32(i) == U32(x)
  {
    var u := U32(x);
    if u < TWO_31 then u else u - TWO_32
  }

  /** Integers that a JavaScript number represents exactly. */
  predicate IsExact(x: int) {
    -TWO_53 <= x <= TWO_53
  }

  /** `x | 0`, applied only to sums that are exact. */
  function Truncate(x: int): (i: int)
    requires IsExact(x)
    ensures IsInt32(i)
    ensures U32(i) == U32(x)
  {
    I32(x)
  }

  /** A value that can stand for a 32-bit word: read as signed or as unsigned. */
  predicate IsWord(x: int) {
    -TWO_31 <= x < TWO_32
  }

  predicate IsInt32(x: int) {
    -TWO_31 <= x < TWO_31
  }

  // ----- Bitwise operators on k-bit numbers -----

  datatype Gate = AND | OR | XOR

  function OnBits(g: Gate, x: nat, y: nat): (r: nat)
    requires x < 2 && y < 2
    ensures r < 2
  {
    match g
    case AND => if x == 1 then y else 0
    case OR => if x == 1 then 1 else y
    case XOR => if x == y then 0 else 1
  }

  /** Applies a gate to each of the low k bits of x and y. */
  function Bitwise(k: nat, g: Gate, x: nat, y: nat): (r: nat)
    ensures r < Pow2(k)
    decreases k, x, y
  {
    if k == 0 then 0
    else 2 * Bitwise(k - 1, g, x / 2, y / 2) + OnBits(g, x % 2, y % 2)
  }

  /** The bitwise complement of a k-bit number. */
  function Complement(k: nat, x: nat): (r: nat)
    requires x < Pow2(k)
    ensures r < Pow2(k)
  {
    Pow2(k) - 1 - x
  }

  /** The number whose high part is a and whose low n-bit part is b, where p is 2^n. */
  function Concat(a: nat, b: nat, p: nat): (x: nat)
  {
    a * p + b
  }

  /** Splitting operands at bit k splits the result at bit k. */
  lemma {:induction false} BitwiseSplit(k: nat, m: nat, g: Gate, a: nat, b: nat, c: nat, d: nat)
    requires b < Pow2(k) && d < Pow2(k)
    ensures Bitwise(k + m, g, Concat(a, b, Pow2(k)), Concat(c, d, Pow2(k)))
         == Concat(Bitwise(m, g, a, c), Bitwise(k, g, b, d), Pow2(k))
  {
    if k == 0 {
    } else {
      var p := Pow2(k - 1);
      ConcatHalves(a, b, p);
      ConcatHalves(c, d, p);
      BitwiseSplit(k - 1, m, g, a, b / 2, c, d / 2);
      ConcatHalves(Bitwise(m, g, a, c), Bitwise(k, g, b, d), p);
      BitwiseHalves(k, g, b, d);
      BitwiseHalves(k + m, g, Concat(a, b, 2 * p), Concat(c, d, 2 * p));
    }
  }

  lemma ConcatHalves(a: nat, b: nat, p: nat)
    ensures Concat(a, b, 2 * p) / 2 == Concat(a, b / 2, p)
    ensures Concat(a, b, 2 * p) % 2 == b % 2
  {
    assert a * (2 * p) == 2 * (a * p);
  }

  lemma BitwiseHalves(k: nat, g: Gate, x: nat, y: nat)
    requires k > 0
    ensures Bitwise(k, g, x, y) / 2 == Bitwise(k - 1, g, x / 2, y / 2)
    ensures Bitwise(k, g, x, y) % 2 == OnBits(g, x % 2, y % 2)
  {
  }

  lemma {:induction false} OrZero(k: nat, x: nat)
    requires x < Pow2(k)
    ensures Bitwise(k, OR, x, 0) == x
    ensures Bitwise(k, OR, 0, x) == x
  {
    if k == 0 {
    } else {
      OrZero(k - 1, x / 2);
    }
  }

  /** The OR of two numbers that share no bit is their sum. */
  lemma OrIsSum(k: nat, m: nat, lo: nat, hi: nat)
    requires lo < Pow2(k) && hi < Pow2(m)
    ensures Bitwise(k + m, OR, lo, Concat(hi, 0, Pow2(k))) == Concat(hi, lo, Pow2(k))
    ensures Bitwise(k + m, OR, Concat(hi, 0, Pow2(k)), lo) == Concat(hi, lo, Pow2(k))
  {
    assert Concat(0, lo, Pow2(k)) == lo;
    BitwiseSplit(k, m, OR, 0, lo, hi, 0);
    BitwiseSplit(k, m, OR, hi, 0, 0, lo);
    OrZero(k, lo);
    OrZero(m, hi);
  }

  /** The bundle's Ch, z ^ (x & (y ^ z)), is (x AND y) XOR (NOT x AND z). */
  lemma {:induction false} ChoiceForms(k: nat, x: nat, y: nat, z: nat)
    requires x < Pow2(k) && y < Pow2(k) && z < Pow2(k)
    ensures Bitwise(k, XOR, z, Bitwise(k, AND, x, Bitwise(k, XOR, y, z)))
         == Bitwise(k, XOR, Bitwise(k, AND, x, y), Bitwise(k, AND, Complement(k, x), z))
  {
    if k == 0 {
    } else {
      ChoiceForms(k - 1, x / 2, y / 2, z / 2);
      ComplementHalves(k, x);
      hide Bitwise, Complement;
      var notX, yz, xy := Complement(k, x), Bitwise(k, XOR, y, z), Bitwise(k, AND, x, y);
      BitwiseHalves(k, XOR, y, z);
      BitwiseHalves(k, AND, x, yz);
      BitwiseHalves(k, XOR, z, Bitwise(k, AND, x, yz));
      BitwiseHalves(k, AND, x, y);
      BitwiseHalves(k, AND, notX, z);
      BitwiseHalves(k, XOR, xy, Bitwise(k, AND, notX, z));
    }
  }

  lemma ComplementHalves(k: nat, x: nat)
    requires k > 0 && x < Pow2(k)
    ensures Complement(k, x) / 2 == Complement(k - 1, x / 2)
    ensures Complement(k, x) % 2 == 1 - x % 2
  {
    assert Complement(k, x) == 2 * Complement(k - 1, x / 2) + (1 - x % 2);
  }

  lemma MajorityOfBits(x: nat, y: nat, z: nat)
    requires x < 2 && y < 2 && z < 2
    ensures OnBits(OR, OnBits(AND, x, y), OnBits(AND, z, OnBits(OR, x, y)))
         == OnBits(XOR, OnBits(XOR, OnBits(AND, x, y), OnBits(AND, x, z)), OnBits(AND, y, z))
  {
    if x == 0 && y == 0 {
    } else if x == 1 && y == 1 {
    } else {
    }
  }

  lemma BitwiseOfNone(g: Gate, x: nat, y: nat)
    ensures Bitwise(0, g, x, y) == 0
  {
  }

  /** The bundle's Maj, (x & y) | (z & (x | y)), is the XOR of the three pairwise ANDs. */
  lemma {:induction false} MajorityForms(k: nat, x: nat, y: nat, z: nat)
    ensures Bitwise(k, OR, Bitwise(k, AND, x, y), Bitwise(k, AND, z, Bitwise(k, OR, x, y)))
         == Bitwise(k, XOR, Bitwise(k, XOR, Bitwise(k, AND, x, y), Bitwise(k, AND, x, z)), Bitwise(k, AND, y, z))
  {
    hide Bitwise, OnBits;
    var xy, xz, yz, either := Bitwise(k, AND, x, y), Bitwise(k, AND, x, z), Bitwise(k, AND, y, z), Bitwise(k, OR, x, y);
    if k == 0 {
      BitwiseOfNone(OR, xy, Bitwise(k, AND, z, either));
      BitwiseOfNone(XOR, Bitwise(k, XOR, xy, xz), yz);
    } else {
      MajorityForms(k - 1, x / 2, y / 2, z / 2);
      MajorityOfBits(x % 2, y % 2, z % 2);
      BitwiseHalves(k, AND, x, y);
      BitwiseHalves(k, AND, x, z);
      BitwiseHalves(k, AND, y, z);
      BitwiseHalves(k, OR, x, y);
      BitwiseHalves(k, AND, z, either);
      BitwiseHalves(k, XOR, xy, xz);
      BitwiseHalves(k, OR, xy, Bitwise(k, AND, z, either));
      BitwiseHalves(k, XOR, Bitwise(k, XOR, xy, xz), yz);
      SameHalves(Bitwise(k, OR, xy, Bitwise(k, AND, z, either)), Bitwise(k, XOR, Bitwise(k, XOR, xy, xz), yz));
    }
  }

  lemma SameHalves(a: nat, b: nat)
    requires a / 2 == b / 2 && a % 2 == b % 2
    ensures a == b
  {
  }

  lemma {:induction false} AndAllOnes(k: nat, x: nat)
    requires x < Pow2(k)
    ensures Bitwise(k, AND, Pow2(k) - 1, x) == x
  {
    if k == 0 {
    } else {
      AndAllOnes(k - 1, x / 2);
      assert (Pow2(k) - 1) / 2 == Pow2(k - 1) - 1 && (Pow2(k) - 1) % 2 == 1;
    }
  }

  lemma {:induction false} AndZero(k: nat, x: nat)
    ensures Bitwise(k, AND, 0, x) == 0
  {
    if k == 0 {
    } else {
      AndZero(k - 1, x / 2);
    }
  }

  // ----- The operators as written in the bundle -----

  /** A gate applied to two numbers read as unsigned, and the result read as signed. */
  function BitGate(g: Gate, x: int, y: int): (r: int)
    ensures IsInt32(r)
    ensures U32(r) == Bitwise(32, g, U32(x), U32(y))
  {
    hide Bitwise;
    Pow2Of32();
    I32(Bitwise(32, g, U32(x), U32(y)))
  }

  /** x ^ y */
  function BitXor(x: int, y: int): (r: int) {
    BitGate(XOR, x, y)
  }

  /** x & y */
  function BitAnd(x: int, y: int): (r: int) {
    BitGate(AND, x, y)
  }

  /** x | y */
  function BitOr(x: int, y: int): (r: int) {
    BitGate(OR, x, y)
  }

  /** x >>> n */
  function ShiftRightZero(x: int, n: nat): (r: nat)
    requires n < 32
    ensures U32(r) == r == Quotient(U32(x), Pow2(n))
  {
    Quotient(U32(x), Pow2(n))
  }

  /** x << n */
  function ShiftLeft(x: int, n: nat): (r: int)
    requires n < 32
    ensures IsInt32(r)
  {
    I32(U32(x) * Pow2(n))
  }

  /** Masking a number with 2^k - 1 keeps its low k bits. */
  lemma MaskBits(k: nat, m: nat, x: nat)
    ensures Bitwise(k + m, AND, Pow2(k) - 1, x) == x % Pow2(k)
    ensures Bitwise(k + m, AND, x, Pow2(k) - 1) == x % Pow2(k)
  {
    hide Bitwise;
    var p := Pow2(k);
    var q, r := Quotient(x, p), x % p;
    SplitAt(x, p);
    BitwiseSplit(k, m, AND, 0, p - 1, q, r);
    AndZero(m, q);
    AndAllOnes(k, r);
    AndCommutes(k + m, p - 1, x);
    assert Concat(0, p - 1, p) == p - 1 && Concat(0, r, p) == r;
  }

  lemma SplitAt(x: nat, p: nat)
    requires p > 0
    ensures x == Concat(Quotient(x, p), x % p, p)
  {
  }

  lemma {:induction false} AndCommutes(k: nat, x: nat, y: nat)
    ensures Bitwise(k, AND, x, y) == Bitwise(k, AND, y, x)
  {
    if k == 0 {
    } else {
      AndCommutes(k - 1, x / 2, y / 2);
    }
  }

  lemma SmallWord(x: nat)
    requires x < TWO_31
    ensures U32(x) == x && I32(x) == x
  {
  }

  /** `x & mask` for a mask of k ones. */
  lemma MaskIsRemainder(k: nat, mask: nat, x: nat)
    requires k < 32 && mask == Pow2(k) - 1 && mask < TWO_31 && x < TWO_31
    ensures x % Pow2(k) <= x
    ensures BitAnd(mask, x) == x % Pow2(k)
    ensures BitAnd(x, mask) == x % Pow2(k)
  {
    hide Bitwise, U32, I32;
    MaskBits(k, 32 - k, x);
    SplitAt(x, Pow2(k));
    hide Quotient;
    SmallWord(mask);
    SmallWord(x);
    SmallWord(x % Pow2(k));
  }

  /** `lo | tag` for a k-bit number and a multiple of 2^k. */
  lemma OrIsTag(k: nat, lo: nat, hi: nat, tag: nat)
    requires k < 32 && lo < Pow2(k) && hi < Pow2(32 - k)
    requires tag == Concat(hi, 0, Pow2(k)) && tag + lo < TWO_31
    ensures BitOr(lo, tag) == tag + lo
    ensures BitOr(tag, lo) == tag + lo
  {
    hide Bitwise, U32, I32;
    OrIsSum(k, 32 - k, lo, hi);
    assert Concat(hi, lo, Pow2(k)) == tag + lo;
    SmallWord(lo);
    SmallWord(tag);
    SmallWord(tag + lo);
  }
}
