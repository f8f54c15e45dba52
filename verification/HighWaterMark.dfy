/** Module 9481, `R`: a larger high-water mark is the next power of two, found by smearing the top bit downward. */
module HighWaterMark {
  import opened JsNumbers

  const MAX := 0x4000_0000

  /** `R` */
  function Raised(n: int): (r: int)
    requires n > 0
  {
    if n >= MAX then MAX else Smeared(n - 1) + 1
  }

  /** The five steps n |= n >>> s. */
  function Smeared(n: nat): (r: int) {
    var a := Smear(n, 1);
    var b := Smear(a, 2);
    var c := Smear(b, 4);
    var d := Smear(c, 8);
    Smear(d, 16)
  }

  function Smear(n: int, s: nat): (r: int)
    requires s < 32
  {
    BitOr(n, ShiftRightZero(n, s))
  }

  // ----- One step doubles the row of ones at the top -----

  /** x has k bits, and the top m of them are ones: all of them, if m is k or more. */
  predicate TopOnes(x: nat, k: nat, m: nat)
    decreases k
  {
    if m == 0 then x < Pow2(k)
    else if k <= m then x == Pow2(k) - 1
    else TopOnes(x / 2, k - 1, m)
  }

  lemma {:induction false} TopOnesFits(x: nat, k: nat, m: nat)
    requires TopOnes(x, k, m)
    ensures x < Pow2(k)
    decreases k
  {
    if m != 0 && k > m {
      TopOnesFits(x / 2, k - 1, m);
    }
  }

  lemma {:induction false} OrOnes(k: nat, y: nat)
    requires y < Pow2(k)
    ensures Bitwise(k, OR, Pow2(k) - 1, y) == Pow2(k) - 1
  {
    if k == 0 {
    } else {
      OrOnes(k - 1, y / 2);
      assert (Pow2(k) - 1) / 2 == Pow2(k - 1) - 1 && (Pow2(k) - 1) % 2 == 1;
    }
  }

  /** A bit within the top row is a one. */
  lemma {:induction false} BitInRow(x: nat, k: nat, m: nat, j: nat)
    requires TopOnes(x, k, m) && k <= j + m && j < k
    ensures Quotient(x, Pow2(j)) % 2 == 1
    decreases k
  {
    if j == 0 {
      assert x == Pow2(k) - 1;
      assert Quotient(x, Pow2(0)) == x;
    } else {
      if k <= m {
        assert (Pow2(k) - 1) / 2 == Pow2(k - 1) - 1;
      }
      BitInRow(x / 2, k - 1, m, j - 1);
      QuotientOfHalf(x, j);
    }
  }

  lemma HalfThenDivide(x: nat, p: nat)
    requires p > 0
    ensures (x / 2) / p == x / (2 * p)
  {
    var q, r := (x / 2) / p, (x / 2) % p;
    assert x / 2 == q * p + r;
    assert q * (2 * p) == 2 * (q * p);
    DivMod(x, 2 * p, q, 2 * r + x % 2);
  }

  lemma DivideThenHalf(x: nat, p: nat)
    requires p > 0
    ensures (x / p) / 2 == x / (2 * p)
  {
    var q, r := x / p, x % p;
    var d, b := q / 2, q % 2;
    assert (2 * d + b) * p == d * (2 * p) + b * p;
    MulMonotone(1, b, p);
    MulMonotone(b, 0, p);
    DivMod(x, 2 * p, d, b * p + r);
  }

  lemma QuotientOfHalf(x: nat, j: nat)
    requires j > 0
    ensures Quotient(x, Pow2(j)) == Quotient(x / 2, Pow2(j - 1))
  {
    HalfThenDivide(x, Pow2(j - 1));
  }

  lemma HalfOfQuotient(x: nat, j: nat)
    ensures Quotient(x, Pow2(j)) / 2 == Quotient(x / 2, Pow2(j))
  {
    HalfThenDivide(x, Pow2(j));
    DivideThenHalf(x, Pow2(j));
  }

  lemma QuotientFits(x: nat, k: nat, m: nat)
    requires x < Pow2(k)
    ensures Quotient(x, Pow2(m)) < Pow2(k)
  {
  }

  lemma {:induction false} SmearDoubles(x: nat, k: nat, m: nat)
    requires TopOnes(x, k, m) && m > 0
    ensures TopOnes(Bitwise(k, OR, x, Quotient(x, Pow2(m))), k, 2 * m)
    decreases k
  {
    var y := Quotient(x, Pow2(m));
    TopOnesFits(x, k, m);
    if k <= m {
      QuotientFits(x, k, m);
      OrOnes(k, y);
    } else {
      var z := Bitwise(k, OR, x, y);
      SmearDoubles(x / 2, k - 1, m);
      HalfOfQuotient(x, m);
      BitwiseHalves(k, OR, x, y);
      hide Bitwise;
      if k <= 2 * m {
        BitInRow(x, k, m, m);
        assert z / 2 == Pow2(k - 1) - 1 && z % 2 == 1;
      }
    }
  }

  // ----- The whole of it -----

  lemma {:induction false} OrBound(k: nat, more: nat, x: nat, y: nat)
    requires x < Pow2(k) && y < Pow2(k)
    ensures Bitwise(k + more, OR, x, y) == Bitwise(k, OR, x, y)
  {
    if k == 0 {
      OrOfZeros(more);
    } else {
      OrBound(k - 1, more, x / 2, y / 2);
    }
  }

  lemma {:induction false} OrOfZeros(n: nat)
    ensures Bitwise(n, OR, 0, 0) == 0
  {
    if n == 0 {
    } else {
      OrOfZeros(n - 1);
    }
  }

  /** The bundle's expression is the OR of the k bits. */
  lemma SmearBits(x: nat, k: nat, s: nat)
    requires k < 32 && x < Pow2(k) && s < 32
    ensures Smear(x, s) == Bitwise(k, OR, x, Quotient(x, Pow2(s)))
  {
    hide Bitwise, Pow2, Quotient;
    PowerIsSmall(k);
    SmallWord(x);
    QuotientFits(x, k, s);
    OrBound(k, 32 - k, x, Quotient(x, Pow2(s)));
    SmallWord(Quotient(x, Pow2(s)));
    SmallWord(Bitwise(k, OR, x, Quotient(x, Pow2(s))));
  }

  lemma PowerIsSmall(k: nat)
    requires k < 32
    ensures Pow2(k) <= TWO_31
  {
    Pow2Of32();
    PowerGrows(k, 31);
  }

  lemma {:induction false} PowerGrows(k: nat, n: nat)
    requires k <= n
    ensures Pow2(k) <= Pow2(n)
  {
    if k < n {
      PowerGrows(k, n - 1);
    }
  }

  lemma SmearKeeps(x: nat, k: nat, s: nat)
    requires k < 32 && 0 < s < 32 && TopOnes(x, k, s)
    ensures Smear(x, s) >= 0 && TopOnes(Smear(x, s), k, 2 * s)
  {
    hide Bitwise, Pow2, Quotient, Smear, TopOnes;
    TopOnesFits(x, k, s);
    SmearBits(x, k, s);
    SmearDoubles(x, k, s);
  }

  lemma SmearedIsOnes(x: nat, k: nat)
    requires k < 32 && TopOnes(x, k, 1)
    ensures Smeared(x) == Pow2(k) - 1
  {
    hide Smear, TopOnes;
    var a := Smear(x, 1);
    SmearKeeps(x, k, 1);
    var b := Smear(a, 2);
    SmearKeeps(a, k, 2);
    var c := Smear(b, 4);
    SmearKeeps(b, k, 4);
    var d := Smear(c, 8);
    SmearKeeps(c, k, 8);
    var e := Smear(d, 16);
    SmearKeeps(d, k, 16);
    AllOnes(e, k, 32);
  }

  lemma AllOnes(x: nat, k: nat, m: nat)
    requires TopOnes(x, k, m) && k <= m
    ensures x == Pow2(k) - 1
  {
  }

  /** The number of bits of x. */
  function Width(x: nat): (k: nat) {
    if x == 0 then 0 else 1 + Width(x / 2)
  }

  lemma {:induction false} WidthIsExact(x: nat)
    ensures x < Pow2(Width(x)) && TopOnes(x, Width(x), 1)
    ensures x > 0 ==> Pow2(Width(x) - 1) <= x
  {
    if x == 0 {
    } else {
      WidthIsExact(x / 2);
      if x == 1 {
      } else {
        assert Width(x) > 1;
      }
    }
  }

  lemma {:induction false} WidthIsSmall(x: nat, k: nat)
    requires x < Pow2(k)
    ensures Width(x) <= k
  {
    if x > 0 {
      WidthIsSmall(x / 2, k - 1);
    }
  }

  lemma RaisedIsPower(n: int)
    requires 0 < n < MAX
    ensures Raised(n) == Pow2(Width(n - 1))
    ensures n == 1 ==> Width(n - 1) == 0
  {
    hide Pow2, Smeared, TopOnes;
    WidthIsExact(n - 1);
    MaxIsPower();
    WidthIsSmall(n - 1, 30);
    SmearedIsOnes(n - 1, Width(n - 1));
  }

  /** Below 2^30 the new mark is the least power of two that is not less than n; from there on it is 2^30. */
  lemma RaisedIsLeastPower(n: int)
    requires n > 0
    ensures n >= MAX ==> Raised(n) == MAX
    ensures n < MAX ==> exists k: nat :: Raised(n) == Pow2(k)
    ensures n < MAX ==> Raised(n) >= n && forall j: nat :: Pow2(j) >= n ==> Pow2(j) >= Raised(n)
  {
    hide Pow2, TopOnes, Smeared, Width;
    if n < MAX {
      RaisedIsPower(n);
      hide Raised;
      WidthIsExact(n - 1);
      var k := Width(n - 1);
      forall j: nat | Pow2(j) >= n ensures Pow2(j) >= Pow2(k) {
        if j < k {
          PowerGrows(j, k - 1);
        } else {
          PowerGrows(k, j);
        }
      }
    }
  }

  lemma MaxIsPower()
    ensures Pow2(30) == MAX
  {
    Pow2Of32();
  }
}
