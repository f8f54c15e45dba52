/** The integer accessors of Buffer of any width (module 8764): readUIntLE to writeIntBE. */
module IntegerFields {
  import opened JsNumbers
  import opened Bytes

  // ----- Two's complement -----

  /** Byte number i of x, counted from the lowest, of the two's complement for a negative x. */
  function ByteOf(x: int, i: nat): (b: Byte) {
    (x / Pow256(i)) % 256
  }

  /** The number whose little-endian bytes are s. */
  function LeValue(s: seq<Byte>): (x: nat) {
    if s == [] then 0 else LeValue(s[..|s| - 1]) + s[|s| - 1] * Pow256(|s| - 1)
  }

  /** Half the numbers of a field of w bytes. */
  function Half(w: nat): (h: nat)
    requires w > 0
    ensures 2 * h == Pow256(w)
  {
    128 * Pow256(w - 1)
  }

  function Signed(v: nat, w: nat): (x: int)
    requires w > 0
  {
    if v >= Half(w) then v - Pow256(w) else v
  }

  predicate FitsSigned(x: int, w: nat)
    requires w > 0
  {
    var h: int := Half(w);
    -h <= x < h
  }

  /** The field holds the bytes of x, lowest first. */
  predicate HoldsLE(s: seq<Byte>, x: int) {
    forall i :: 0 <= i < |s| ==> s[i] == ByteOf(x, i)
  }

  /** The field holds the bytes of x, lowest last. */
  predicate HoldsBE(s: seq<Byte>, x: int) {
    forall i :: 0 <= i < |s| ==> s[i] == ByteOf(x, |s| - 1 - i)
  }

  // ----- Arithmetic -----

  /** The remainder for one byte more. */
  lemma RemainderStep(x: int, i: nat)
    ensures x % Pow256(i + 1) == x % Pow256(i) + (ByteOf(x, i) as int) * Pow256(i)
    ensures x / Pow256(i + 1) == (x / Pow256(i)) / 256
  {
    SplitTwice(x, Pow256(i));
  }

  lemma SplitTwice(x: int, p: nat)
    requires p > 0
    ensures x % (256 * p) == x % p + ((x / p) % 256) * p
    ensures x / (256 * p) == (x / p) / 256
  {
    var q, b, d := x / p, (x / p) % 256, (x / p) / 256;
    var r := b * p + x % p;
    assert q == 256 * d + b;
    assert q * p == d * (256 * p) + b * p by { assert (256 * d + b) * p == d * (256 * p) + b * p; }
    assert x == d * (256 * p) + r;
    MulMonotone(255, b, p);
    MulMonotone(b, 0, p);
    assert 0 <= r < 256 * p;
    DivMod(x, 256 * p, d, r);
  }

  /** Truncation toward zero, as `>> 0` does to the quotient. */
  function Truncated(x: int, m: nat): (q: int)
    requires m > 0
  {
    if x >= 0 then x / m else -((-x) / m)
  }

  /** Truncating and flooring differ exactly for a negative number that is not a multiple. */
  lemma TruncatedIsFloor(x: int, m: nat)
    requires m > 0
    ensures Truncated(x, m) - (if x < 0 && x % m != 0 then 1 else 0) == x / m
  {
    if x < 0 {
      var q, r := x / m, x % m;
      assert x == q * m + r;
      if r == 0 {
        assert -x == (-q) * m + 0 by { assert (-q) * m == -(q * m); }
        DivMod(-x, m, -q, 0);
      } else {
        assert -x == (-q - 1) * m + (m - r) by { assert (-q - 1) * m == -(q * m) - m; }
        DivMod(-x, m, -q - 1, m - r);
      }
    }
  }

  /** `255 & x` */
  lemma LowByte(x: int)
    ensures BitAnd(255, x) == x % 256
    ensures BitAnd(x, 255) == x % 256
  {
    hide Bitwise, Pow2;
    assert Pow2(8) == 256 by { PowerOfEight(); }
    MaskBits(8, 24, U32(x));
    SmallWord(U32(x) % 256);
    LowByteOfWord(x);
  }

  lemma PowerOfEight()
    ensures Pow2(8) == 256
  {
  }

  lemma LowByteOfWord(x: int)
    ensures U32(x) % 256 == x % 256
  {
  }

  lemma LowByteOfInt32(x: int, o: int)
    ensures (I32(x) - o) % 256 == (x - o) % 256
  {
  }

  // ----- Reading back -----

  /** The bytes of x are its remainder. */
  lemma {:induction false} ValueOfLE(s: seq<Byte>, x: int)
    requires HoldsLE(s, x)
    ensures LeValue(s) == x % Pow256(|s|)
  {
    if s == [] {
    } else {
      var n := |s| - 1;
      ValueOfLE(s[..n], x);
      RemainderStep(x, n);
    }
  }

  lemma {:induction false} QuotientOfQuotient(x: int, i: nat)
    ensures x / Pow256(i + 1) == (x / 256) / Pow256(i)
  {
    if i == 0 {
    } else {
      QuotientOfQuotient(x, i - 1);
      RemainderStep(x, i);
      RemainderStep(x / 256, i - 1);
    }
  }

  lemma ByteOfQuotient(x: int, i: nat)
    ensures ByteOf(x, i + 1) == ByteOf(x / 256, i)
  {
    QuotientOfQuotient(x, i);
  }

  lemma LowRemainder(x: int, n: nat)
    ensures x % Pow256(n + 1) == ((x / 256) % Pow256(n)) * 256 + x % 256
  {
    var p := Pow256(n);
    var d, r := (x / 256) / p, (x / 256) % p;
    assert x == (d * p + r) * 256 + x % 256;
    assert (d * p + r) * 256 == d * (256 * p) + r * 256;
    DivMod(x, 256 * p, d, r * 256 + x % 256);
  }

  /** Big-endian values grow at the low end: the bytes above the lowest are those of x / 256. */
  lemma {:induction false} ValueOfBE(s: seq<Byte>, x: int)
    requires HoldsBE(s, x)
    ensures BeValue(s) == x % Pow256(|s|)
    decreases |s|
  {
    if s == [] {
    } else {
      var n := |s| - 1;
      forall i | 0 <= i < n ensures s[..n][i] == ByteOf(x / 256, n - 1 - i) {
        ByteOfQuotient(x, n - 1 - i);
      }
      ValueOfBE(s[..n], x / 256);
      LowRemainder(x, n);
    }
  }

  /** A signed number that fits is read back from its remainder. */
  lemma SignedRemainder(x: int, w: nat)
    requires w > 0 && FitsSigned(x, w)
    ensures Signed(x % Pow256(w), w) == x
  {
    var p := Pow256(w);
    if x >= 0 {
      DivMod(x, p, 0, x);
    } else {
      DivMod(x, p, -1, x + p);
    }
  }

  /** The other way round: the bytes of the value of a field are the field. */
  lemma {:induction false} BytesOfValueLE(s: seq<Byte>)
    ensures HoldsLE(s, LeValue(s)) && LeValue(s) < Pow256(|s|)
  {
    if s == [] {
    } else {
      var n := |s| - 1;
      var lo, top, p := LeValue(s[..n]), s[n] as int, Pow256(n);
      BytesOfValueLE(s[..n]);
      forall i | 0 <= i < n ensures s[i] == ByteOf(LeValue(s), i) {
        assert s[i] == s[..n][i];
        SameLowBytes(lo, top, n, i);
      }
      DivMod(LeValue(s), p, top, lo);
      MulMonotone(255, top, p);
    }
  }

  /** What is added above byte n does not change the bytes below. */
  lemma SameLowBytes(lo: nat, top: nat, n: nat, i: nat)
    requires i < n
    ensures ByteOf(lo + top * Pow256(n), i) == ByteOf(lo, i)
  {
    hide Pow256, ByteOf;
    var p, rest := Pow256(i), Pow256(n - i - 1);
    PowerAbove(n, i);
    Regrouped(top, rest, p);
    SameByteOf(lo, top * rest, i);
  }

  lemma Regrouped(a: nat, b: nat, p: nat)
    ensures a * ((256 * b) * p) == (256 * (a * b)) * p
  {
  }

  lemma SameByteOf(lo: nat, c: nat, i: nat)
    ensures ByteOf(lo + (256 * c) * Pow256(i), i) == ByteOf(lo, i)
  {
    hide Pow256;
    SameByte(lo, Pow256(i), c);
  }

  lemma PowerAbove(n: nat, i: nat)
    requires i < n
    ensures Pow256(n) == (256 * Pow256(n - i - 1)) * Pow256(i)
  {
    PowerSum(n - i, i);
  }

  lemma SameByte(lo: nat, p: nat, c: nat)
    requires p > 0
    ensures ((lo + (256 * c) * p) / p) % 256 == (lo / p) % 256
  {
    var q, r := lo / p, lo % p;
    assert (q + 256 * c) * p == q * p + (256 * c) * p;
    DivMod(lo + (256 * c) * p, p, q + 256 * c, r);
    SameRemainder(q, c);
  }

  lemma SameRemainder(q: nat, c: nat)
    ensures (q + 256 * c) % 256 == q % 256
  {
  }

  lemma {:induction false} PowerSum(m: nat, n: nat)
    ensures Pow256(m + n) == Pow256(m) * Pow256(n)
  {
    if m == 0 {
    } else {
      PowerSum(m - 1, n);
      assert 256 * (Pow256(m - 1) * Pow256(n)) == (256 * Pow256(m - 1)) * Pow256(n);
    }
  }

  /** What is written into a field that the number fits is what is read from it. */
  lemma SignedRoundTrip(s: seq<Byte>, x: int)
    requires s != [] && FitsSigned(x, |s|)
    ensures HoldsLE(s, x) ==> Signed(LeValue(s), |s|) == x
    ensures HoldsBE(s, x) ==> Signed(BeValue(s), |s|) == x
  {
    hide LeValue, BeValue, Signed, FitsSigned, HoldsLE, HoldsBE;
    SignedRemainder(x, |s|);
    if HoldsLE(s, x) {
      ValueOfLE(s, x);
    }
    if HoldsBE(s, x) {
      ValueOfBE(s, x);
    }
  }

  lemma UnsignedRoundTrip(s: seq<Byte>, x: nat)
    requires x < Pow256(|s|)
    ensures HoldsLE(s, x) ==> LeValue(s) == x
    ensures HoldsBE(s, x) ==> BeValue(s) == x
  {
    hide LeValue, BeValue, HoldsLE, HoldsBE;
    DivMod(x, Pow256(|s|), 0, x);
    if HoldsLE(s, x) {
      ValueOfLE(s, x);
    }
    if HoldsBE(s, x) {
      ValueOfBE(s, x);
    }
  }

  // ----- Writing, at an offset that `>>> 0` makes a 32-bit number -----

  datatype Outcome = Done(value: int) | ValueOutOfBounds | IndexOutOfRange

  /** The checks that come before a write, in their order. */
  function Checked(fits: bool, offset: nat, w: nat, length: nat): (r: Outcome) {
    if !fits then ValueOutOfBounds
    else if offset + w > length then IndexOutOfRange
    else Done(offset + w)
  }

  /** Whether the truncated quotient by the size of i bytes is one too high. */
  function Borrow(x: int, i: nat): (o: int) {
    if x < 0 && x % Pow256(i) != 0 then 1 else 0
  }

  lemma BorrowStep(x: int, i: nat)
    ensures Borrow(x, i + 1) == (if x < 0 && Borrow(x, i) == 0 && ByteOf(x, i) != 0 then 1 else Borrow(x, i))
  {
    hide ByteOf, Pow256;
    RemainderStep(x, i);
    NoCancel(x % Pow256(i), ByteOf(x, i), Pow256(i));
  }

  lemma NoCancel(r: nat, b: nat, p: nat)
    requires p > 0
    ensures r + b * p == 0 <==> r == 0 && b == 0
  {
  }

  lemma FirstByte(x: int)
    ensures BitAnd(255, x) == ByteOf(x, 0) && Borrow(x, 0) == 0
  {
    hide BitAnd;
    LowByte(x);
  }

  /** The stored byte is that of two's complement. */
  lemma StoredByte(x: int, i: nat)
    ensures BitAnd(I32(Truncated(x, Pow256(i))) - Borrow(x, i), 255) == ByteOf(x, i)
  {
    hide BitAnd, I32, Truncated, Pow256;
    LowByte(I32(Truncated(x, Pow256(i))) - Borrow(x, i));
    LowByteOfInt32(Truncated(x, Pow256(i)), Borrow(x, i));
    TruncatedIsFloor(x, Pow256(i));
  }

  /** All but the field is what it was. */
  ghost predicate OutsideKept(now: seq<Byte>, was: seq<Byte>, offset: nat, w: nat) {
    |now| == |was| && forall k :: 0 <= k < |now| && !(offset <= k < offset + w) ==> now[k] == was[k]
  }

  method WriteIntLE(buf: array<Byte>, value: int, offset: int, byteLength: nat) returns (r: Outcome)
    requires 1 <= byteLength <= 6
    modifies buf
    ensures r == Checked(FitsSigned(value, byteLength), U32(offset), byteLength, buf.Length)
    ensures r.Done? ==> HoldsLE(buf[U32(offset)..U32(offset) + byteLength], value)
    ensures if r.Done? then OutsideKept(buf[..], old(buf[..]), U32(offset), byteLength) else buf[..] == old(buf[..])
  {
    hide BitAnd, I32, Truncated, ByteOf, Borrow, U32;
    var at := U32(offset);
    var limit: int := Half(byteLength);
    if value > limit - 1 || value < -limit {
      return ValueOutOfBounds;
    }
    if at + byteLength > buf.Length {
      return IndexOutOfRange;
    }
    var i, mul, sub := 0, 1, 0;
    FirstByte(value);
    buf[at] := BitAnd(255, value);
    i := i + 1;
    while i < byteLength
      invariant 1 <= i <= byteLength && mul == Pow256(i - 1) && sub == Borrow(value, i - 1)
      invariant forall k :: at <= k < at + i ==> buf[k] == ByteOf(value, k - at)
      invariant OutsideKept(buf[..], old(buf[..]), at, byteLength)
    {
      mul := mul * 0x100;
      BorrowStep(value, i - 1);
      if value < 0 && sub == 0 && buf[at + i - 1] != 0 {
        sub := 1;
      }
      StoredByte(value, i);
      buf[at + i] := BitAnd(I32(Truncated(value, mul)) - sub, 255);
      i := i + 1;
    }
    return Done(at + byteLength);
  }

  method WriteIntBE(buf: array<Byte>, value: int, offset: int, byteLength: nat) returns (r: Outcome)
    requires 1 <= byteLength <= 6
    modifies buf
    ensures r == Checked(FitsSigned(value, byteLength), U32(offset), byteLength, buf.Length)
    ensures r.Done? ==> HoldsBE(buf[U32(offset)..U32(offset) + byteLength], value)
    ensures if r.Done? then OutsideKept(buf[..], old(buf[..]), U32(offset), byteLength) else buf[..] == old(buf[..])
  {
    hide BitAnd, I32, Truncated, ByteOf, Borrow, U32;
    var at := U32(offset);
    var limit: int := Half(byteLength);
    if value > limit - 1 || value < -limit {
      return ValueOutOfBounds;
    }
    if at + byteLength > buf.Length {
      return IndexOutOfRange;
    }
    var i: int, mul, sub := byteLength - 1, 1, 0;
    FirstByte(value);
    buf[at + i] := BitAnd(255, value);
    i := i - 1;
    while i >= 0
      invariant -1 <= i <= byteLength - 2
      invariant mul == Pow256(byteLength - 2 - i) && sub == Borrow(value, byteLength - 2 - i)
      invariant forall k :: at + i < k < at + byteLength ==> buf[k] == ByteOf(value, byteLength - 1 - (k - at))
      invariant OutsideKept(buf[..], old(buf[..]), at, byteLength)
    {
      mul := mul * 0x100;
      BorrowStep(value, byteLength - 2 - i);
      if value < 0 && sub == 0 && buf[at + i + 1] != 0 {
        sub := 1;
      }
      StoredByte(value, byteLength - 1 - i);
      buf[at + i] := BitAnd(I32(Truncated(value, mul)) - sub, 255);
      i := i - 1;
    }
    return Done(at + byteLength);
  }

  /** The byte stored for a number that is not negative. */
  lemma StoredUnsignedByte(x: nat, i: nat)
    ensures BitAnd(Truncated(x, Pow256(i)), 255) == ByteOf(x, i)
  {
    hide BitAnd, Pow256;
    LowByte(Truncated(x, Pow256(i)));
  }

  method WriteUIntLE(buf: array<Byte>, value: int, offset: int, byteLength: nat) returns (r: Outcome)
    requires 1 <= byteLength <= 6
    modifies buf
    ensures r == Checked(0 <= value < Pow256(byteLength), U32(offset), byteLength, buf.Length)
    ensures r.Done? ==> HoldsLE(buf[U32(offset)..U32(offset) + byteLength], value)
    ensures if r.Done? then OutsideKept(buf[..], old(buf[..]), U32(offset), byteLength) else buf[..] == old(buf[..])
  {
    hide BitAnd, Truncated, ByteOf, U32;
    var at := U32(offset);
    var maxBytes := Pow256(byteLength) - 1;
    if value > maxBytes || value < 0 {
      return ValueOutOfBounds;
    }
    if at + byteLength > buf.Length {
      return IndexOutOfRange;
    }
    var mul, i := 1, 0;
    FirstByte(value);
    buf[at] := BitAnd(255, value);
    i := i + 1;
    while i < byteLength
      invariant 1 <= i <= byteLength && mul == Pow256(i - 1)
      invariant forall k :: at <= k < at + i ==> buf[k] == ByteOf(value, k - at)
      invariant OutsideKept(buf[..], old(buf[..]), at, byteLength)
    {
      mul := mul * 0x100;
      StoredUnsignedByte(value, i);
      buf[at + i] := BitAnd(Truncated(value, mul), 255);
      i := i + 1;
    }
    return Done(at + byteLength);
  }

  method WriteUIntBE(buf: array<Byte>, value: int, offset: int, byteLength: nat) returns (r: Outcome)
    requires 1 <= byteLength <= 6
    modifies buf
    ensures r == Checked(0 <= value < Pow256(byteLength), U32(offset), byteLength, buf.Length)
    ensures r.Done? ==> HoldsBE(buf[U32(offset)..U32(offset) + byteLength], value)
    ensures if r.Done? then OutsideKept(buf[..], old(buf[..]), U32(offset), byteLength) else buf[..] == old(buf[..])
  {
    hide BitAnd, Truncated, ByteOf, U32;
    var at := U32(offset);
    var maxBytes := Pow256(byteLength) - 1;
    if value > maxBytes || value < 0 {
      return ValueOutOfBounds;
    }
    if at + byteLength > buf.Length {
      return IndexOutOfRange;
    }
    var i: int, mul := byteLength - 1, 1;
    FirstByte(value);
    buf[at + i] := BitAnd(255, value);
    i := i - 1;
    while i >= 0
      invariant -1 <= i <= byteLength - 2 && mul == Pow256(byteLength - 2 - i)
      invariant forall k :: at + i < k < at + byteLength ==> buf[k] == ByteOf(value, byteLength - 1 - (k - at))
      invariant OutsideKept(buf[..], old(buf[..]), at, byteLength)
    {
      mul := mul * 0x100;
      StoredUnsignedByte(value, byteLength - 1 - i);
      buf[at + i] := BitAnd(Truncated(value, mul), 255);
      i := i - 1;
    }
    return Done(at + byteLength);
  }

  // ----- Reading -----

  method ReadUIntLE(buf: array<Byte>, offset: int, byteLength: nat) returns (r: Outcome)
    requires 1 <= byteLength <= 6
    ensures r == if U32(offset) + byteLength > buf.Length then IndexOutOfRange else Done(LeValue(buf[U32(offset)..U32(offset) + byteLength]))
  {
    hide U32;
    var at := U32(offset);
    if at + byteLength > buf.Length {
      return IndexOutOfRange;
    }
    var val, _ := SumLE(buf, at, byteLength);
    return Done(val);
  }

  /** The loop that readUIntLE and readIntLE share, with the size of the field's last byte. */
  method SumLE(buf: array<Byte>, offset: nat, byteLength: nat) returns (val: nat, mul: nat)
    requires 1 <= byteLength && offset + byteLength <= buf.Length
    ensures val == LeValue(buf[offset..offset + byteLength]) && mul == Pow256(byteLength - 1)
  {
    val, mul := buf[offset], 1;
    var i := 1;
    assert buf[offset..offset + 1] == [buf[offset]];
    LeGrows([], buf[offset]);
    while i < byteLength
      invariant 1 <= i <= byteLength && mul == Pow256(i - 1) && val == LeValue(buf[offset..offset + i])
    {
      mul := mul * 0x100;
      LeGrows(buf[offset..offset + i], buf[offset + i]);
      assert buf[offset..offset + i] + [buf[offset + i]] == buf[offset..offset + i + 1];
      val := val + buf[offset + i] * mul;
      i := i + 1;
    }
  }

  lemma LeGrows(s: seq<Byte>, b: Byte)
    ensures LeValue(s + [b]) == LeValue(s) + b * Pow256(|s|)
  {
    assert (s + [b])[..|s|] == s;
  }

  lemma BeGrows(b: Byte, s: seq<Byte>)
    ensures BeValue([b] + s) == b * Pow256(|s|) + BeValue(s)
  {
    BeOfOne(b);
    hide BeValue, Pow256;
    BeValueAppend([b], s);
  }

  lemma BeOfOne(b: Byte)
    ensures BeValue([b]) == b
  {
    assert [b][..0] == [];
  }

  method ReadIntLE(buf: array<Byte>, offset: int, byteLength: nat) returns (r: Outcome)
    requires 1 <= byteLength <= 6
    ensures r == if U32(offset) + byteLength > buf.Length then IndexOutOfRange
                 else Done(Signed(LeValue(buf[U32(offset)..U32(offset) + byteLength]), byteLength))
  {
    hide LeValue, U32;
    var at := U32(offset);
    if at + byteLength > buf.Length {
      return IndexOutOfRange;
    }
    var val: int, mul := SumLE(buf, at, byteLength);
    mul := mul * 0x80;
    if val >= mul {
      val := val - Pow256(byteLength);
    }
    return Done(val);
  }

  method ReadUIntBE(buf: array<Byte>, offset: int, byteLength: nat) returns (r: Outcome)
    requires 1 <= byteLength <= 6
    ensures r == if U32(offset) + byteLength > buf.Length then IndexOutOfRange else Done(BeValue(buf[U32(offset)..U32(offset) + byteLength]))
  {
    hide U32;
    var at := U32(offset);
    if at + byteLength > buf.Length {
      return IndexOutOfRange;
    }
    var val, _ := SumBE(buf, at, byteLength);
    return Done(val);
  }

  /** The loop that readUIntBE and readIntBE share, with the size of the field's first byte. */
  method SumBE(buf: array<Byte>, offset: nat, byteLength: nat) returns (val: nat, mul: nat)
    requires 1 <= byteLength && offset + byteLength <= buf.Length
    ensures val == BeValue(buf[offset..offset + byteLength]) && mul == Pow256(byteLength - 1)
  {
    hide BeValue;
    var left := byteLength - 1;
    val, mul := buf[offset + left], 1;
    assert buf[offset + left..offset + byteLength] == [buf[offset + left]] + [];
    BeGrows(buf[offset + left], []);
    BeOfNothing();
    while left > 0
      invariant 0 <= left < byteLength && mul == Pow256(byteLength - 1 - left)
      invariant val == BeValue(buf[offset + left..offset + byteLength])
    {
      mul := mul * 0x100;
      left := left - 1;
      BeGrows(buf[offset + left], buf[offset + left + 1..offset + byteLength]);
      assert [buf[offset + left]] + buf[offset + left + 1..offset + byteLength] == buf[offset + left..offset + byteLength];
      val := val + buf[offset + left] * mul;
    }
  }

  lemma BeOfNothing()
    ensures BeValue([]) == 0
  {
  }

  method ReadIntBE(buf: array<Byte>, offset: int, byteLength: nat) returns (r: Outcome)
    requires 1 <= byteLength <= 6
    ensures r == if U32(offset) + byteLength > buf.Length then IndexOutOfRange
                 else Done(Signed(BeValue(buf[U32(offset)..U32(offset) + byteLength]), byteLength))
  {
    hide BeValue, U32;
    var at := U32(offset);
    if at + byteLength > buf.Length {
      return IndexOutOfRange;
    }
    var val: int, mul := SumBE(buf, at, byteLength);
    mul := mul * 0x80;
    if val >= mul {
      val := val - Pow256(byteLength);
    }
    return Done(val);
  }
}
