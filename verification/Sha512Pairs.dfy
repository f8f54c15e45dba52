/** 64-bit words held as two 32-bit halves: the functions of module 7816 and what they mean. */
module Sha512Pairs {
  import opened JsNumbers
  import opened Fips180
  import opened Sha2Words

  const TWO_64 := 0x1_0000_0000_0000_0000

  /** The 64-bit word whose halves are h and l, each read as an unsigned 32-bit number. */
  function Join(h: int, l: int): (x: nat)
  {
    Concat(U32(h), U32(l), TWO_32)
  }

  // ----- The bundle's functions, under the names sha.js gives them -----

  function Sigma0(x: int, xl: int): (r: int)
    ensures IsWord(r)
  {
    BitXor(BitXor(Funnel(x, xl, 28), Funnel(xl, x, 2)), Funnel(xl, x, 7))
  }

  function Sigma1(x: int, xl: int): (r: int)
    ensures IsWord(r)
  {
    BitXor(BitXor(Funnel(x, xl, 14), Funnel(x, xl, 18)), Funnel(xl, x, 9))
  }

  function Gamma0(x: int, xl: int): (r: int)
    ensures IsWord(r)
  {
    BitXor(BitXor(Funnel(x, xl, 1), Funnel(x, xl, 8)), ShiftRightZero(x, 7))
  }

  function Gamma0l(x: int, xl: int): (r: int)
    ensures IsWord(r)
  {
    BitXor(BitXor(Funnel(x, xl, 1), Funnel(x, xl, 8)), Funnel(x, xl, 7))
  }

  function Gamma1(x: int, xl: int): (r: int)
    ensures IsWord(r)
  {
    BitXor(BitXor(Funnel(x, xl, 19), Funnel(xl, x, 29)), ShiftRightZero(x, 6))
  }

  function Gamma1l(x: int, xl: int): (r: int)
    ensures IsWord(r)
  {
    BitXor(BitXor(Funnel(x, xl, 19), Funnel(xl, x, 29)), Funnel(x, xl, 6))
  }

  function GetCarry(a: int, b: int): (c: int)
    ensures 0 <= c <= 1
  {
    if U32(a) < U32(b) then 1 else 0
  }

  // ----- What they mean -----

  /** Adding halves with the carry read off the wrapped low sum is addition modulo 2^64,
      whichever of the two addends the carry test compares with. */
  lemma AddPairs(h1: int, l1: int, h2: int, l2: int)
    requires IsWord(h1) && IsWord(l1) && IsWord(h2) && IsWord(l2)
    ensures var lo := Truncate(l1 + l2);
            && Join(Truncate(h1 + h2 + GetCarry(lo, l1)), lo) == (Join(h1, l1) + Join(h2, l2)) % TWO_64
            && Join(Truncate(h1 + h2 + GetCarry(lo, l2)), lo) == (Join(h1, l1) + Join(h2, l2)) % TWO_64
  {
    hide U32, I32, Truncate;
    var lo := Truncate(l1 + l2);
    WrapOnce(l1, l2, 0);
    var c := GetCarry(lo, l1);
    var hi := Truncate(h1 + h2 + c);
    WrapOnce(h1, h2, c);
    var d := if U32(h1) + U32(h2) + c < TWO_32 then 0 else 1;
    assert U32(lo) == U32(l1) + U32(l2) - c * TWO_32;
    assert U32(hi) == U32(h1) + U32(h2) + c - d * TWO_32;
    assert Join(h1, l1) + Join(h2, l2) == d * TWO_64 + Join(hi, lo);
    assert GetCarry(lo, l2) == c;
  }

  lemma WrapOnce(x: int, y: int, c: nat)
    requires c < 2
    ensures U32(x + y + c) == if U32(x) + U32(y) + c < TWO_32 then U32(x) + U32(y) + c else U32(x) + U32(y) + c - TWO_32
  {
  }

  /** A gate applied to both halves is the gate applied to the 64-bit words. */
  lemma JoinGates(h1: int, l1: int, h2: int, l2: int)
    ensures Join(BitXor(h1, h2), BitXor(l1, l2)) == Bitwise(64, XOR, Join(h1, l1), Join(h2, l2))
    ensures Join(BitAnd(h1, h2), BitAnd(l1, l2)) == Bitwise(64, AND, Join(h1, l1), Join(h2, l2))
    ensures Join(BitOr(h1, h2), BitOr(l1, l2)) == Bitwise(64, OR, Join(h1, l1), Join(h2, l2))
  {
    Pow2Of32();
    BitwiseSplit(32, 32, XOR, U32(h1), U32(l1), U32(h2), U32(l2));
    BitwiseSplit(32, 32, AND, U32(h1), U32(l1), U32(h2), U32(l2));
    BitwiseSplit(32, 32, OR, U32(h1), U32(l1), U32(h2), U32(l2));
  }

  /** Cutting at bit n < 32 a number with halves h and l, where p * q == 2^32 and p == 2^n. */
  lemma CutLow(h: nat, l: nat, p: nat, q: nat)
    requires p > 0 && q > 0 && p * q == TWO_32
    ensures var x := Concat(h, l, TWO_32);
            && x % p == l % p
            && x / p == Concat(h / p, Concat(h % p, l / p, q), TWO_32)
  {
    var x := Concat(h, l, TWO_32);
    var d := h * q + l / p;
    assert x == d * p + l % p by {
      assert (h * q) * p == h * (p * q);
      assert l == (l / p) * p + l % p;
      assert d * p == (h * q) * p + (l / p) * p;
    }
    DivMod(x, p, d, l % p);
    assert h * q == (h / p) * TWO_32 + (h % p) * q by {
      assert h == (h / p) * p + h % p;
      assert h * q == ((h / p) * p) * q + (h % p) * q;
      assert ((h / p) * p) * q == (h / p) * (p * q);
    }
  }

  /** Rotating right by less than 32 places. */
  lemma RotateShort(h: int, l: int, n: nat)
    requires 0 < n < 32
    ensures RotR(64, Join(h, l), n) == Join(Funnel(h, l, n), Funnel(l, h, n))
  {
    var x, p, q := Join(h, l), Pow2(n), Pow2(32 - n);
    Pow2Of32();
    Pow2Add(n, 32 - n);
    Pow2Add(32, 32 - n);
    JoinBelow(h, l);
    OrOfShifts(64, x, x, n);
    CutLow(U32(h), U32(l), p, q);
    FunnelMeaning(h, l, n);
    FunnelMeaning(l, h, n);
    Regroup(U32(l) % p, U32(h) / p, Concat(U32(h) % p, U32(l) / p, q), q);
  }

  lemma Regroup(a: nat, b: nat, c: nat, q: nat)
    ensures Concat(a, Concat(b, c, TWO_32), TWO_32 * q) == Concat(Concat(a, b, q), c, TWO_32)
  {
    assert a * (TWO_32 * q) == (a * q) * TWO_32;
    assert (a * q + b) * TWO_32 == (a * q) * TWO_32 + b * TWO_32;
  }

  /** Shifting right by less than 32 places. */
  lemma ShiftShort(h: int, l: int, n: nat)
    requires 0 < n < 32
    ensures ShR(Join(h, l), n) == Join(ShiftRightZero(h, n), Funnel(l, h, n))
  {
    hide U32, Funnel;
    Pow2Of32();
    Pow2Add(n, 32 - n);
    CutLow(U32(h), U32(l), Pow2(n), Pow2(32 - n));
    FunnelMeaning(l, h, n);
  }

  /** Rotating right by more than 32 places swaps the roles of the halves. */
  lemma RotateLong(h: int, l: int, n: nat)
    requires 32 < n < 64
    ensures RotR(64, Join(h, l), n) == Join(Funnel(l, h, n - 32), Funnel(h, l, n - 32))
  {
    var x, m := Join(h, l), n - 32;
    var p, q := Pow2(m), Pow2(32 - m);
    Pow2Of32();
    Pow2Add(m, 32 - m);
    Pow2Add(32, m);
    JoinBelow(h, l);
    OrOfShifts(64, x, x, n);
    CutHigh(U32(h), U32(l), p);
    CutLow(U32(l), 0, p, q);
    FunnelMeaning(l, h, m);
    FunnelMeaning(h, l, m);
    SwapHalves(U32(h), U32(l), p, q);
  }

  lemma JoinBelow(h: int, l: int)
    ensures Pow2(64) == TWO_64
    ensures Join(h, l) < Pow2(64)
  {
    Pow2Of32();
    Pow2Add(32, 32);
  }

  /** Cutting at a bit above 32. */
  lemma CutHigh(h: nat, l: nat, p: nat)
    requires p > 0 && l < TWO_32
    ensures var x := Concat(h, l, TWO_32);
            && x % (TWO_32 * p) == Concat(h % p, l, TWO_32)
            && x / (TWO_32 * p) == h / p
  {
    var x, d, r := Concat(h, l, TWO_32), h / p, h % p;
    assert x == d * (TWO_32 * p) + Concat(r, l, TWO_32) by {
      assert h == d * p + r;
      assert (d * p) * TWO_32 == d * (TWO_32 * p);
    }
    DivMod(x, TWO_32 * p, d, Concat(r, l, TWO_32));
  }

  lemma SwapHalves(h: nat, l: nat, p: nat, q: nat)
    requires p > 0 && q > 0 && p * q == TWO_32
    ensures Concat(Concat(h % p, l, TWO_32), h / p, q)
         == Concat(Concat(h % p, l / p, q), Concat(l % p, h / p, q), TWO_32)
  {
    var a, d, r := h % p, l / p, l % p;
    assert l * q == d * TWO_32 + r * q by {
      assert l == d * p + r;
      assert (d * p) * q == d * (p * q);
      assert (d * p + r) * q == (d * p) * q + r * q;
    }
    assert (a * TWO_32 + l) * q == (a * q) * TWO_32 + l * q;
  }

  // ----- The sigma, choice and majority functions on halves -----

  lemma SigmaPairs(h: int, l: int)
    ensures Join(Sigma0(h, l), Sigma0(l, h)) == UpperSigma(64, SHA512.upper0, Join(h, l))
    ensures Join(Sigma1(h, l), Sigma1(l, h)) == UpperSigma(64, SHA512.upper1, Join(h, l))
  {
    RotateShort(h, l, 28);
    RotateLong(h, l, 34);
    RotateLong(h, l, 39);
    JoinGates(Funnel(h, l, 28), Funnel(l, h, 28), Funnel(l, h, 2), Funnel(h, l, 2));
    JoinGates(BitXor(Funnel(h, l, 28), Funnel(l, h, 2)), BitXor(Funnel(l, h, 28), Funnel(h, l, 2)),
              Funnel(l, h, 7), Funnel(h, l, 7));
    RotateShort(h, l, 14);
    RotateShort(h, l, 18);
    RotateLong(h, l, 41);
    JoinGates(Funnel(h, l, 14), Funnel(l, h, 14), Funnel(h, l, 18), Funnel(l, h, 18));
    JoinGates(BitXor(Funnel(h, l, 14), Funnel(h, l, 18)), BitXor(Funnel(l, h, 14), Funnel(l, h, 18)),
              Funnel(l, h, 9), Funnel(h, l, 9));
  }

  lemma GammaPairs(h: int, l: int)
    ensures Join(Gamma0(h, l), Gamma0l(l, h)) == LowerSigma(64, SHA512.lower0, Join(h, l))
    ensures Join(Gamma1(h, l), Gamma1l(l, h)) == LowerSigma(64, SHA512.lower1, Join(h, l))
  {
    RotateShort(h, l, 1);
    RotateShort(h, l, 8);
    ShiftShort(h, l, 7);
    JoinGates(Funnel(h, l, 1), Funnel(l, h, 1), Funnel(h, l, 8), Funnel(l, h, 8));
    JoinGates(BitXor(Funnel(h, l, 1), Funnel(h, l, 8)), BitXor(Funnel(l, h, 1), Funnel(l, h, 8)),
              ShiftRightZero(h, 7), Funnel(l, h, 7));
    RotateShort(h, l, 19);
    RotateLong(h, l, 61);
    ShiftShort(h, l, 6);
    JoinGates(Funnel(h, l, 19), Funnel(l, h, 19), Funnel(l, h, 29), Funnel(h, l, 29));
    JoinGates(BitXor(Funnel(h, l, 19), Funnel(l, h, 29)), BitXor(Funnel(l, h, 19), Funnel(h, l, 29)),
              ShiftRightZero(h, 6), Funnel(l, h, 6));
  }

  lemma ChooseMajorityPairs(h1: int, l1: int, h2: int, l2: int, h3: int, l3: int)
    ensures Join(h1, l1) < Pow2(64)
    ensures Join(Choose(h1, h2, h3), Choose(l1, l2, l3)) == Ch(64, Join(h1, l1), Join(h2, l2), Join(h3, l3))
    ensures Join(Majority(h1, h2, h3), Majority(l1, l2, l3)) == Maj(64, Join(h1, l1), Join(h2, l2), Join(h3, l3))
  {
    JoinBelow(h1, l1);
    JoinBelow(h2, l2);
    JoinBelow(h3, l3);
    JoinGates(h2, l2, h3, l3);
    JoinGates(h1, l1, BitXor(h2, h3), BitXor(l2, l3));
    JoinGates(h3, l3, BitAnd(h1, BitXor(h2, h3)), BitAnd(l1, BitXor(l2, l3)));
    ChoiceForms(64, Join(h1, l1), Join(h2, l2), Join(h3, l3));
    JoinGates(h1, l1, h2, l2);
    JoinGates(h3, l3, BitOr(h1, h2), BitOr(l1, l2));
    JoinGates(BitAnd(h1, h2), BitAnd(l1, l2), BitAnd(h3, BitOr(h1, h2)), BitAnd(l3, BitOr(l1, l2)));
    MajorityForms(64, Join(h1, l1), Join(h2, l2), Join(h3, l3));
  }
}
