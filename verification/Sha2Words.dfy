/** The 32-bit word functions that modules 7499 (SHA-256) and 7816 (SHA-512) both define, and
    what a pair of opposite shifts joined by `|` means. */
module Sha2Words {
  import opened JsNumbers
  import opened Fips180

  function Choose(x: int, y: int, z: int): (r: int)
    ensures IsWord(r)
  {
    BitXor(z, BitAnd(x, BitXor(y, z)))
  }

  function Majority(x: int, y: int, z: int): (r: int)
    ensures IsWord(r)
  {
    BitOr(BitAnd(x, y), BitAnd(z, BitOr(x, y)))
  }

  /** x >>> n | y << 32 - n */
  function Funnel(x: int, y: int, n: nat): (r: int)
    requires 0 < n < 32
  {
    BitOr(ShiftRightZero(x, n), ShiftLeft(y, 32 - n))
  }

  /** The OR of a right shift and a left shift by the complementary amount joins disjoint fields. */
  lemma OrOfShifts(w: nat, h: nat, l: nat, n: nat)
    requires n < w && h < Pow2(w)
    ensures Bitwise(w, OR, ShR(h, n), ShL(w, l, w - n)) == Concat(l % Pow2(n), ShR(h, n), Pow2(w - n))
  {
    var p, q := Pow2(n), Pow2(w - n);
    Pow2Add(n, w - n);
    assert ShL(w, l, w - n) == Concat(l % p, 0, q) by { ModScaled(l, p, q); }
    assert h / p < q by { QuotientBound(h, p, q); }
    OrIsSum(w - n, n, h / p, l % p);
  }

  lemma ModScaled(l: nat, p: nat, q: nat)
    requires p > 0 && q > 0
    ensures p * q > 0 && (l * q) % (p * q) == (l % p) * q
  {
    var d, r := l / p, l % p;
    assert l * q == d * (p * q) + r * q by {
      assert l == d * p + r;
      assert (d * p) * q == d * (p * q);
    }
    assert r * q < p * q;
    DivMod(l * q, p * q, d, r * q);
  }

  lemma QuotientBound(h: nat, p: nat, q: nat)
    requires p > 0 && h < p * q
    ensures h / p < q
  {
    var d := h / p;
    assert d * p <= h;
    if d >= q {
      MulMonotone(d, q, p);
    }
  }

  /** The unsigned reading of a funnel shift. */
  lemma FunnelMeaning(x: int, y: int, n: nat)
    requires 0 < n < 32
    ensures U32(Funnel(x, y, n)) == Concat(U32(y) % Pow2(n), U32(x) / Pow2(n), Pow2(32 - n))
  {
    Pow2Of32();
    OrOfShifts(32, U32(x), U32(y), n);
    assert U32(ShiftLeft(y, 32 - n)) == ShL(32, U32(y), 32 - n);
  }

  /** A word funnelled with itself is rotated. */
  lemma FunnelIsRotation(x: int, n: nat)
    requires 0 < n < 32
    ensures U32(Funnel(x, x, n)) == RotR(32, U32(x), n)
  {
    Pow2Of32();
    FunnelMeaning(x, x, n);
    OrOfShifts(32, U32(x), U32(x), n);
  }

  /** On single words the bundle's Ch and Maj are the ones FIPS 180-4 writes. */
  lemma ChooseMajorityWords(x: int, y: int, z: int)
    ensures U32(x) < Pow2(32)
    ensures U32(Choose(x, y, z)) == Ch(32, U32(x), U32(y), U32(z))
    ensures U32(Majority(x, y, z)) == Maj(32, U32(x), U32(y), U32(z))
  {
    Pow2Of32();
    ChoiceForms(32, U32(x), U32(y), U32(z));
    MajorityForms(32, U32(x), U32(y), U32(z));
  }
}
