/** Module 8764, function `A`: decoding UTF-8, with U+FFFD for each byte that starts no character. */
module Utf8Decode {
  import opened JsNumbers
  import opened Bytes
  import opened Unicode
  import opened Utf8Codec
  import opened Optional

  /** How many bytes the first byte announces. */
  function Announced(t: Byte): (n: nat)
    ensures 1 <= n <= 4
  {
    if t > 239 then 4 else if t > 223 then 3 else if t > 191 then 2 else 1
  }

  /** 128 == (192 & b) */
  predicate IsContinuation(b: Byte) {
    BitAnd(192, b) == 128
  }

  lemma ContinuationIsTail(b: Byte)
    ensures IsContinuation(b) <==> IsTail(b)
  {
    Pow2Values();
    hide Pow2, BitAnd;
    TopBits(b);
  }

  /** The top two bits of a byte. */
  lemma TopBits(b: Byte)
    ensures BitAnd(192, b) == (b as int) / 64 * 64
  {
    Pow2Of32();
    Pow2Add(6, 26);
    assert Pow2(6) == 64;
    var q, r := (b as int) / 64, (b as int) % 64;
    BitwiseSplit(6, 26, AND, 3, 0, q, r);
    AndZero(6, r);
    TwoOnes(q);
    SmallWord(192);
    SmallWord(b);
    SmallWord(q * 64);
    assert Concat(3, 0, 64) == 192 && Concat(q, r, 64) == b as int && Concat(q, 0, 64) == q * 64;
    hide Bitwise, U32, I32, Pow2;
  }

  lemma TwoOnes(q: nat)
    requires q < 4
    ensures Bitwise(26, AND, 3, q) == q
  {
    Pow2Add(2, 24);
    assert Pow2(2) == 4;
    BitwiseSplit(2, 24, AND, 0, 3, 0, q);
    AndZero(24, 0);
    AndAllOnes(2, q);
    assert Concat(0, 3, 4) == 3 && Concat(0, q, 4) == q;
    hide Bitwise, Pow2;
  }

  /** The code point that `A` reads at the start of b, if it accepts one there. */
  function Accepted(b: seq<Byte>): (l: Option<Scalar>)
    requires b != []
  {
    var t, o := b[0], Announced(b[0]);
    if o > |b| then None
    else if o == 1 then
      if t < 128 then Some(t) else None
    else if o == 2 then
      if IsContinuation(b[1]) then
        var s := TwoBytes(t, b[1]);
        if s > 127 then Some(s) else None
      else None
    else if o == 3 then
      if IsContinuation(b[1]) && IsContinuation(b[2]) then
        var s := ThreeBytes(t, b[1], b[2]);
        if s > 2047 && (s < 55296 || s > 57343) then Some(s) else None
      else None
    else
      if IsContinuation(b[1]) && IsContinuation(b[2]) && IsContinuation(b[3]) then
        var s := FourBytes(t, b[1], b[2], b[3]);
        if s > 65535 && s < 1114112 then Some(s) else None
      else None
  }

  /** One turn of the loop: the code point and how many bytes it takes up. */
  function Step(b: seq<Byte>): (r: (Scalar, nat))
    requires b != []
    ensures 1 <= r.1 <= |b|
  {
    match Accepted(b)
    case None => (REPLACEMENT, 1)
    case Some(l) => (l, Announced(b[0]))
  }

  /** Everything `A` reads out of b. */
  function Decoded(b: seq<Byte>): (cs: seq<Scalar>)
  {
    if b == [] then [] else [Step(b).0] + Decoded(b[Step(b).1..])
  }

  /** The string that `A` returns for b. */
  function A(b: seq<Byte>): (s: seq<Unit>)
  {
    Utf16(Decoded(b))
  }

  // ----- Against RFC 3629 -----

  /** `A` accepts a code point exactly where section 4 of RFC 3629 has a character, and reads its value. */
  lemma AcceptedIsChar(b: seq<Byte>)
    requires b != []
    ensures Accepted(b).Some? <==> CharLength(b) > 0
    ensures Accepted(b).Some? ==> (Announced(b[0]) == CharLength(b) && b[..CharLength(b)] == Utf8Char(Accepted(b).value))
  {
    hide IsContinuation, TwoBytes, ThreeBytes, FourBytes;
    var o := Announced(b[0]);
    if o > |b| {
    } else if o == 1 {
    } else if o == 2 {
      AcceptedTwo(b);
    } else if o == 3 {
      AcceptedThree(b);
    } else {
      AcceptedFour(b);
    }
  }

  lemma AcceptedTwo(b: seq<Byte>)
    requires |b| >= 2 && Announced(b[0]) == 2
    ensures Accepted(b).Some? <==> CharLength(b) == 2
    ensures CharLength(b) == 0 || CharLength(b) == 2
    ensures Accepted(b).Some? ==> b[..2] == Utf8Char(Accepted(b).value)
  {
    hide IsContinuation, TwoBytes, ThreeBytes, FourBytes;
    ContinuationIsTail(b[1]);
    if IsTail(b[1]) {
      var x, y := b[0] as int - 192, b[1] as int - 128;
      assert TwoBytes(b[0], b[1]) == x * 0x40 + y;
    }
  }

  lemma AcceptedThree(b: seq<Byte>)
    requires |b| >= 3 && Announced(b[0]) == 3
    ensures Accepted(b).Some? <==> CharLength(b) == 3
    ensures CharLength(b) == 0 || CharLength(b) == 3
    ensures Accepted(b).Some? ==> b[..3] == Utf8Char(Accepted(b).value)
  {
    hide IsContinuation, TwoBytes, ThreeBytes, FourBytes;
    ContinuationIsTail(b[1]);
    ContinuationIsTail(b[2]);
    if IsTail(b[1]) && IsTail(b[2]) {
      var s := ThreeBytes(b[0], b[1], b[2]);
      var x, y, z := b[0] as int - 224, b[1] as int - 128, b[2] as int - 128;
      assert s == x * 0x1000 + y * 0x40 + z;
      ThreeDigits(x, y, z);
    }
  }

  lemma ThreeDigits(x: nat, y: nat, z: nat)
    requires y < 0x40 && z < 0x40
    ensures var s := x * 0x1000 + y * 0x40 + z;
            s / 0x1000 == x && s / 0x40 % 0x40 == y && s % 0x40 == z
  {
    var s := x * 0x1000 + y * 0x40 + z;
    DivMod(s, 0x40, x * 0x40 + y, z);
    DivMod(s, 0x1000, x, y * 0x40 + z);
    DivMod(s / 0x40, 0x40, x, y);
  }

  lemma AcceptedFour(b: seq<Byte>)
    requires |b| >= 4 && Announced(b[0]) == 4
    ensures Accepted(b).Some? <==> CharLength(b) == 4
    ensures CharLength(b) == 0 || CharLength(b) == 4
    ensures Accepted(b).Some? ==> b[..4] == Utf8Char(Accepted(b).value)
  {
    hide IsContinuation, TwoBytes, ThreeBytes, FourBytes;
    ContinuationIsTail(b[1]);
    ContinuationIsTail(b[2]);
    ContinuationIsTail(b[3]);
    if IsTail(b[1]) && IsTail(b[2]) && IsTail(b[3]) {
      var s := FourBytes(b[0], b[1], b[2], b[3]);
      var x, y, z, u := b[0] as int - 240, b[1] as int - 128, b[2] as int - 128, b[3] as int - 128;
      assert s == x * 0x4_0000 + y * 0x1000 + z * 0x40 + u;
      FourDigits(x, y, z, u);
    }
  }

  lemma FourDigits(x: nat, y: nat, z: nat, u: nat)
    requires y < 0x40 && z < 0x40 && u < 0x40
    ensures var s := x * 0x4_0000 + y * 0x1000 + z * 0x40 + u;
            && s / 0x4_0000 == x && s / 0x1000 % 0x40 == y && s / 0x40 % 0x40 == z && s % 0x40 == u
            && (s > 65535 <==> x > 0 || y >= 16) && (s < 1114112 <==> x < 4 || (x == 4 && y < 16))
  {
    var s := x * 0x4_0000 + y * 0x1000 + z * 0x40 + u;
    DivMod(s, 0x40, x * 0x1000 + y * 0x40 + z, u);
    DivMod(s, 0x1000, x * 0x40 + y, z * 0x40 + u);
    DivMod(s, 0x4_0000, x, y * 0x1000 + z * 0x40 + u);
    DivMod(s / 0x40, 0x40, x * 0x40 + y, z);
    DivMod(s / 0x1000, 0x40, x, y);
  }

  /** In front of other bytes, an encoded character is read back. */
  lemma ReadsChar(c: Scalar, rest: seq<Byte>)
    ensures CharLength(Utf8Char(c) + rest) == |Utf8Char(c)|
    ensures Step(Utf8Char(c) + rest) == (c, |Utf8Char(c)|)
  {
    hide IsContinuation, TwoBytes, ThreeBytes, FourBytes, Accepted;
    var b := Utf8Char(c) + rest;
    CharHasLength(c, rest);
    AcceptedIsChar(b);
    var d := Accepted(b).value;
    assert Utf8Char(c) == b[..|Utf8Char(c)|] == Utf8Char(d);
    Injective(c, d);
  }

  lemma CharHasLength(c: Scalar, rest: seq<Byte>)
    ensures CharLength(Utf8Char(c) + rest) == |Utf8Char(c)|
  {
    var b := Utf8Char(c) + rest;
    if c < 0x80 {
      assert b[0] == c;
    } else if c < 0x800 {
      assert b[0] == 0xC0 + c / 0x40 && b[1] == 0x80 + c % 0x40;
    } else if c < 0x1_0000 {
      assert b[0] == 0xE0 + c / 0x1000 && b[1] == 0x80 + c / 0x40 % 0x40 && b[2] == 0x80 + c % 0x40;
    } else {
      assert b[0] == 0xF0 + c / 0x4_0000 && b[1] == 0x80 + c / 0x1000 % 0x40;
      assert b[2] == 0x80 + c / 0x40 % 0x40 && b[3] == 0x80 + c % 0x40;
    }
  }

  lemma Injective(c: Scalar, d: Scalar)
    requires Utf8Char(c) == Utf8Char(d)
    ensures c == d
  {
    var b := Utf8Char(c);
    Recompose(c);
    Recompose(d);
    hide Utf8Char;
  }

  lemma Recompose(c: Scalar)
    ensures var b := Utf8Char(c);
            c == if |b| == 1 then b[0] as int
                 else if |b| == 2 then (b[0] as int - 0xC0) * 0x40 + (b[1] as int - 0x80)
                 else if |b| == 3 then (b[0] as int - 0xE0) * 0x1000 + (b[1] as int - 0x80) * 0x40 + (b[2] as int - 0x80)
                 else (b[0] as int - 0xF0) * 0x4_0000 + (b[1] as int - 0x80) * 0x1000
                      + (b[2] as int - 0x80) * 0x40 + (b[3] as int - 0x80)
  {
    assert c == c / 0x1000 * 0x1000 + c / 0x40 % 0x40 * 0x40 + c % 0x40;
    assert c == c / 0x4_0000 * 0x4_0000 + c / 0x1000 % 0x40 * 0x1000 + c / 0x40 % 0x40 * 0x40 + c % 0x40;
  }

  // ----- Round trips -----

  lemma {:induction false} DecodesUtf8(cs: seq<Scalar>, rest: seq<Byte>)
    ensures Decoded(Utf8(cs) + rest) == cs + Decoded(rest)
  {
    hide Step, Utf8Char, CharLength;
    if cs == [] {
      assert Utf8(cs) + rest == rest;
    } else {
      var head, tail := Utf8Char(cs[0]), Utf8(cs[1..]) + rest;
      assert Utf8(cs) + rest == head + tail;
      ReadsChar(cs[0], tail);
      assert (head + tail)[|head|..] == tail;
      assert Decoded(head + tail) == [cs[0]] + Decoded(tail);
      DecodesUtf8(cs[1..], rest);
      assert cs == [cs[0]] + cs[1..];
    }
  }

  /** A well-formed byte sequence is the encoding of what `A` reads out of it. */
  lemma {:induction false} WellFormedIsUtf8(b: seq<Byte>)
    requires WellFormed8(b)
    ensures Utf8(Decoded(b)) == b
  {
    if b == [] {
    } else {
      AcceptedIsChar(b);
      var n := CharLength(b);
      hide Accepted, Announced, CharLength;
      WellFormedIsUtf8(b[n..]);
      assert b == b[..n] + b[n..];
      assert Decoded(b)[1..] == Decoded(b[n..]);
    }
  }

  lemma {:induction false} Utf8IsWellFormed(cs: seq<Scalar>)
    ensures WellFormed8(Utf8(cs))
  {
    if cs == [] {
    } else {
      CharHasLength(cs[0], Utf8(cs[1..]));
      Utf8IsWellFormed(cs[1..]);
      hide CharLength;
      assert Utf8(cs)[|Utf8Char(cs[0])|..] == Utf8(cs[1..]);
    }
  }

  lemma {:induction false} Utf16Append(cs: seq<Scalar>, ds: seq<Scalar>)
    ensures Utf16(cs + ds) == Utf16(cs) + Utf16(ds)
  {
    hide Utf16Char;
    if cs == [] {
      assert cs + ds == ds;
    } else {
      Utf16Append(cs[1..], ds);
      assert (cs + ds)[1..] == cs[1..] + ds;
    }
  }

  /** In front of any bytes at all, a well-formed sequence is read on its own. */
  lemma AAppend(b: seq<Byte>, rest: seq<Byte>)
    requires WellFormed8(b)
    ensures A(b + rest) == A(b) + A(rest)
  {
    WellFormedIsUtf8(b);
    DecodesUtf8(Decoded(b), rest);
    Utf16Append(Decoded(b), Decoded(rest));
  }

  /** For any bytes at all, `A` returns a string without unpaired surrogates. */
  lemma ANeverSplitsPairs(b: seq<Byte>)
    ensures WellFormed16(A(b))
  {
    Utf16RoundTrip(Decoded(b));
  }

  // ----- The loop -----

  lemma OneMore(b: seq<Byte>)
    requires b != []
    ensures A(b) == Emitted(Step(b).0) + A(b[Step(b).1..])
  {
    hide Step;
    assert Decoded(b)[1..] == Decoded(b[Step(b).1..]);
  }

  // ----- What `A` is, without its own functions -----

  /** Where no character starts, one byte is read as U+FFFD, whatever it is. */
  lemma ReplacesOneByte(b: seq<Byte>)
    requires b != [] && CharLength(b) == 0
    ensures A(b) == [0xFFFD] + A(b[1..])
  {
    hide A, Accepted, CharLength;
    AcceptedIsChar(b);
    OneMore(b);
    ReplacementUnit();
  }

  lemma ReplacementUnit()
    ensures Emitted(REPLACEMENT) == [0xFFFD]
  {
    hide BitAnd, BitOr;
  }

  /** Where the encoding of a character starts, that character is read. */
  lemma ReadsItsChar(b: seq<Byte>, c: Scalar)
    requires CharLength(b) > 0 && Utf8Char(c) == b[..CharLength(b)]
    ensures A(b) == Utf16Char(c) + A(b[CharLength(b)..])
  {
    hide A, Accepted, CharLength, Emitted, Utf16Char;
    AcceptedIsChar(b);
    Injective(c, Accepted(b).value);
    OneMore(b);
    EmittedIsChar(c);
  }

  lemma EmittedIsChar(c: Scalar)
    ensures Emitted(c) == Utf16Char(c)
  {
  }

  /** A function with these two properties is `A`, on all bytes. */
  lemma {:induction false} NothingElseIsA(f: seq<Byte> -> seq<Unit>, b: seq<Byte>)
    requires f([]) == []
    requires forall x: seq<Byte> | x != [] && CharLength(x) == 0 :: f(x) == [0xFFFD] + f(x[1..])
    requires forall x: seq<Byte>, c: Scalar | CharLength(x) > 0 && Utf8Char(c) == x[..CharLength(x)] ::
               f(x) == Utf16Char(c) + f(x[CharLength(x)..])
    ensures f(b) == A(b)
    decreases |b|
  {
    hide A, CharLength, Utf8Char, Utf16Char, Accepted;
    if b == [] {
      NothingLeft(b);
    } else if CharLength(b) == 0 {
      ReplacesOneByte(b);
      NothingElseIsA(f, b[1..]);
    } else {
      AcceptedIsChar(b);
      var c := Accepted(b).value;
      ReadsItsChar(b, c);
      NothingElseIsA(f, b[CharLength(b)..]);
    }
  }

  /** `A` as written: decodes buf from start on, up to end or the end of buf. */
  method DecodeUtf8(buf: seq<Byte>, start: nat, end: nat) returns (units: seq<Unit>)
    ensures var stop := if end < |buf| then end else |buf|;
            units == if start < stop then A(buf[start..stop]) else []
  {
    hide A;
    var r := if |buf| < end then |buf| else end;
    units := [];
    if start < r {
      units := DecodeLoop(buf, start, r);
    }
  }

  method DecodeLoop(buf: seq<Byte>, start: nat, r: nat) returns (units: seq<Unit>)
    requires start < r <= |buf|
    ensures units == A(buf[start..r])
  {
    hide A, Step, Emitted, Utf16Char, IsContinuation;
    units := [];
    var a := start;
    ghost var left := buf[a..r];
    while a < r
      invariant start <= a <= r && left == buf[a..r]
      invariant A(buf[start..r]) == units + A(left)
      decreases r - a
    {
      var l, o := ReadOne(buf, a, r);
      OneMore(left);
      assert buf[a + o..r] == left[o..];
      left := left[o..];
      units := units + Emitted(l);
      a := a + o;
    }
    NothingLeft(left);
  }

  lemma NothingLeft(b: seq<Byte>)
    requires b == []
    ensures A(b) == []
  {
  }

  /** The body of that loop: `o` bytes are tried, and one byte is replaced if they are not accepted. */
  method ReadOne(buf: seq<Byte>, a: nat, r: nat) returns (l: Scalar, o: nat)
    requires a < r <= |buf|
    ensures (l, o) == Step(buf[a..r])
  {
    hide IsContinuation, TwoBytes, ThreeBytes, FourBytes;
    ghost var b := buf[a..r];
    var t := buf[a];
    var got: Option<Scalar> := None;
    o := if t > 239 then 4 else if t > 223 then 3 else if t > 191 then 2 else 1;
    if a + o <= r {
      if o == 1 {
        if t < 128 { got := Some(t); }
      } else if o == 2 {
        var r1 := buf[a + 1];
        if IsContinuation(r1) {
          var s := TwoBytes(t, r1);
          if s > 127 {
            got := Some(s);
          }
        }
      } else if o == 3 {
        var r1, n := buf[a + 1], buf[a + 2];
        if IsContinuation(r1) && IsContinuation(n) {
          var s := ThreeBytes(t, r1, n);
          if s > 2047 && (s < 55296 || s > 57343) {
            got := Some(s);
          }
        }
      } else {
        var r1, n, u := buf[a + 1], buf[a + 2], buf[a + 3];
        if IsContinuation(r1) && IsContinuation(n) && IsContinuation(u) {
          var s := FourBytes(t, r1, n, u);
          if s > 65535 && s < 1114112 {
            got := Some(s);
          }
        }
      }
    }
    assert got == Accepted(b);
    if got.None? {
      l, o := 65533, 1;
    } else {
      l := got.value;
    }
  }
}
