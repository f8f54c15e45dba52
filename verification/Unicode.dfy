/** Unicode scalar values, UTF-16 strings and UTF-8 byte sequences, as RFC 3629 and the Unicode standard
    define them. Nothing here is taken from the bundle. */
module Unicode {
  import opened Bytes

  /** A UTF-16 code unit; JavaScript strings are sequences of these. */
  type Unit = u: int | 0 <= u < 0x1_0000

  type Scalar = c: int | 0 <= c < 0x11_0000 && !(0xD800 <= c < 0xE000)

  const REPLACEMENT: Scalar := 0xFFFD

  // ----- UTF-16 -----

  predicate IsLead(u: Unit) { 0xD800 <= u < 0xDC00 }

  predicate IsTrail(u: Unit) { 0xDC00 <= u < 0xE000 }

  predicate StartsWithPair(s: seq<Unit>) {
    |s| >= 2 && IsLead(s[0]) && IsTrail(s[1])
  }

  function PairValue(lead: Unit, trail: Unit): (c: Scalar)
    requires IsLead(lead) && IsTrail(trail)
  {
    0x1_0000 + (lead - 0xD800) * 0x400 + (trail - 0xDC00)
  }

  function Utf16Char(c: Scalar): (s: seq<Unit>)
    ensures 1 <= |s| <= 2
  {
    if c < 0x1_0000 then [c] else [0xD800 + (c - 0x1_0000) / 0x400, 0xDC00 + (c - 0x1_0000) % 0x400]
  }

  function Utf16(cs: seq<Scalar>): (s: seq<Unit>)
  {
    if cs == [] then [] else Utf16Char(cs[0]) + Utf16(cs[1..])
  }

  /** No surrogate stands alone. */
  predicate WellFormed16(s: seq<Unit>) {
    s == [] || (if StartsWithPair(s) then WellFormed16(s[2..])
                else !IsLead(s[0]) && !IsTrail(s[0]) && WellFormed16(s[1..]))
  }

  /** The scalar values of a string, with U+FFFD for every unpaired surrogate. */
  function Scalars(s: seq<Unit>): (cs: seq<Scalar>)
    ensures |cs| <= |s|
  {
    if s == [] then []
    else if StartsWithPair(s) then [PairValue(s[0], s[1])] + Scalars(s[2..])
    else if IsLead(s[0]) || IsTrail(s[0]) then [REPLACEMENT] + Scalars(s[1..])
    else [s[0]] + Scalars(s[1..])
  }

  lemma {:induction false} ScalarsRoundTrip(s: seq<Unit>)
    requires WellFormed16(s)
    ensures Utf16(Scalars(s)) == s
  {
    if s == [] {
    } else if StartsWithPair(s) {
      ScalarsRoundTrip(s[2..]);
      assert Utf16Char(PairValue(s[0], s[1])) == [s[0], s[1]];
      assert s == [s[0], s[1]] + s[2..];
    } else {
      ScalarsRoundTrip(s[1..]);
      assert s == [s[0]] + s[1..];
    }
  }

  lemma {:induction false} Utf16RoundTrip(cs: seq<Scalar>)
    ensures WellFormed16(Utf16(cs)) && Scalars(Utf16(cs)) == cs
  {
    if cs == [] {
    } else {
      Utf16RoundTrip(cs[1..]);
      var head, s := Utf16Char(cs[0]), Utf16(cs);
      assert s[|head|..] == Utf16(cs[1..]);
      assert |head| == 2 ==> s[0] == head[0] && s[1] == head[1] && PairValue(s[0], s[1]) == cs[0];
    }
  }

  // ----- UTF-8 -----

  /** Section 3 of RFC 3629. */
  function Utf8Char(c: Scalar): (b: seq<Byte>)
    ensures 1 <= |b| <= 4
  {
    if c < 0x80 then [c]
    else if c < 0x800 then [0xC0 + c / 0x40, 0x80 + c % 0x40]
    else if c < 0x1_0000 then [0xE0 + c / 0x1000, 0x80 + c / 0x40 % 0x40, 0x80 + c % 0x40]
    else [0xF0 + c / 0x4_0000, 0x80 + c / 0x1000 % 0x40, 0x80 + c / 0x40 % 0x40, 0x80 + c % 0x40]
  }

  function Utf8(cs: seq<Scalar>): (b: seq<Byte>)
  {
    if cs == [] then [] else Utf8Char(cs[0]) + Utf8(cs[1..])
  }

  predicate IsTail(b: Byte) { 0x80 <= b < 0xC0 }

  /** Section 4 of RFC 3629: the length of the character that b starts with, or 0 if it starts with none. */
  function CharLength(b: seq<Byte>): (n: nat)
    ensures n <= 4 && n <= |b|
  {
    if |b| >= 1 && b[0] <= 0x7F then 1
    else if |b| >= 2 && 0xC2 <= b[0] <= 0xDF && IsTail(b[1]) then 2
    else if |b| >= 3 && IsTail(b[2])
         && ( (b[0] == 0xE0 && 0xA0 <= b[1] <= 0xBF) || (0xE1 <= b[0] <= 0xEC && IsTail(b[1]))
           || (b[0] == 0xED && 0x80 <= b[1] <= 0x9F) || (0xEE <= b[0] <= 0xEF && IsTail(b[1]))) then 3
    else if |b| >= 4 && IsTail(b[2]) && IsTail(b[3])
         && ( (b[0] == 0xF0 && 0x90 <= b[1] <= 0xBF) || (0xF1 <= b[0] <= 0xF3 && IsTail(b[1]))
           || (b[0] == 0xF4 && 0x80 <= b[1] <= 0x8F)) then 4
    else 0
  }

  /** Section 4 of RFC 3629: a sequence of characters. */
  predicate WellFormed8(b: seq<Byte>) {
    b == [] || (CharLength(b) > 0 && WellFormed8(b[CharLength(b)..]))
  }

  lemma {:induction false} Utf8Append(cs: seq<Scalar>, ds: seq<Scalar>)
    ensures Utf8(cs + ds) == Utf8(cs) + Utf8(ds)
  {
    if cs == [] {
      assert cs + ds == ds;
    } else {
      Utf8Append(cs[1..], ds);
      assert (cs + ds)[1..] == cs[1..] + ds;
    }
  }

  lemma {:induction false} WellFormed8Append(a: seq<Byte>, b: seq<Byte>)
    requires WellFormed8(a)
    ensures WellFormed8(a + b) == WellFormed8(b)
  {
    if a == [] {
      assert a + b == b;
    } else {
      var n := CharLength(a);
      assert CharLength(a + b) == n;
      assert (a + b)[n..] == a[n..] + b;
      WellFormed8Append(a[n..], b);
    }
  }
}
