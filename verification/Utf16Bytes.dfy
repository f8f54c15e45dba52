/** UTF-16LE in bytes: function `C` of module 8764, which writes it, against function `T`, which reads it, and how much of
    it the streaming decoder of module 2553 holds back. */
module Utf16Bytes {
  import opened Bytes
  import opened Unicode
  import opened StringDecoder
  import opened IntegerFields

  /** The low and the high byte of each unit in turn. */
  function LowHigh(s: seq<Unit>): (b: seq<Byte>)
    ensures |b| == 2 * |s|
  {
    if s == [] then [] else LowHigh(s[..|s| - 1]) + [s[|s| - 1] % 256, s[|s| - 1] / 256]
  }

  /** The units for which both bytes fit. */
  function UnitsThatFit(n: nat, room: int): (k: nat)
    ensures k <= n
  {
    if room < 2 then 0 else if room / 2 < n then room / 2 else n
  }

  /** The loop of `C`. On a unit, >> 8 is division by 256. */
  method EncodeUtf16(e: seq<Unit>, room: int) returns (l: seq<Byte>)
    ensures l == LowHigh(e[..UnitsThatFit(|e|, room)])
  {
    var t := room;
    l := [];
    var o := 0;
    while o < |e|
      invariant 0 <= o <= |e| && l == LowHigh(e[..o]) && t == room - 2 * o && (o > 0 ==> t >= 0)
    {
      t := t - 2;
      if t < 0 {
        return;
      }
      var r := e[o];
      assert e[..o + 1][..o] == e[..o];
      l := l + [r % 256, r / 256];
      o := o + 1;
    }
  }

  lemma {:induction false} TLength(b: seq<Byte>)
    ensures |T(b)| == |b| / 2
    decreases |b|
  {
    if |b| >= 2 {
      TLength(b[2..]);
    }
  }

  /** Each unit is the number of two bytes, the low one first. */
  lemma {:induction false} TAt(b: seq<Byte>, i: nat)
    requires 2 * i + 2 <= |b|
    ensures i < |T(b)| && T(b)[i] == LeValue(b[2 * i..2 * i + 2])
    decreases i
  {
    TLength(b);
    if i == 0 {
      TwoBytesValue(b[0..2]);
    } else {
      TAt(b[2..], i - 1);
      assert b[2..][2 * (i - 1)..2 * (i - 1) + 2] == b[2 * i..2 * i + 2];
    }
  }

  lemma TwoBytesValue(s: seq<Byte>)
    requires |s| == 2
    ensures LeValue(s) == s[0] as int + 256 * (s[1] as int)
  {
    assert s[..1][..0] == [] && LeValue([]) == 0;
    assert Pow256(0) == 1 && Pow256(1) == 256 * Pow256(0);
    assert LeValue(s[..1]) == LeValue(s[..1][..0]) + s[0] * Pow256(0);
  }

  /** What `C` writes, `T` reads. */
  lemma {:induction false} UnitsReadBack(s: seq<Unit>)
    ensures T(LowHigh(s)) == s
    decreases |s|
  {
    if s != [] {
      var n := |s| - 1;
      UnitsReadBack(s[..n]);
      var last: seq<Byte> := [s[n] % 256, s[n] / 256];
      TAppend(LowHigh(s[..n]), last);
      TStep(last);
      TooShort(last[2..]);
      assert T(last) == [s[n]];
    }
  }

  /** What `T` reads out of a whole number of units, `C` writes. */
  lemma {:induction false} BytesWrittenBack(b: seq<Byte>)
    requires |b| % 2 == 0
    ensures LowHigh(T(b)) == b
    decreases |b|
  {
    if b == [] {
    } else {
      var n := |b| - 2;
      var front, last := b[..n], b[n..];
      BytesWrittenBack(front);
      TAppend(front, last);
      TStep(last);
      TooShort(last[2..]);
      assert T(last) == [TUnit(last)];
      assert b == front + last;
      assert T(b)[..|T(b)| - 1] == T(front);
    }
  }

  /** An odd byte at the end makes no difference. */
  lemma OddByteIsDropped(b: seq<Byte>)
    requires |b| % 2 == 1
    ensures T(b) == T(b[..|b| - 1])
  {
    hide T;
    var n := |b| - 1;
    assert b == b[..n] + b[n..];
    TAppend(b[..n], b[n..]);
    TooShort(b[n..]);
  }

  // ----- What is held back -----

  /** Nothing but an odd byte and a lead surrogate before it, or one of the two, is held back. */
  predicate OnlyWhatIsCut(h: Held) {
    || h == NOTHING
    || (h.need == 1 && h.total == 2 && |h.bytes| == 1)
    || (h.total == 4 && 1 <= h.need <= 2 && |h.bytes| == 4 - h.need && IsLead(TUnit(h.bytes)))
  }

  lemma TextHoldsLittle(t: seq<Byte>, r: nat)
    requires r < |t|
    ensures OnlyWhatIsCut(Text16(t, r).1)
  {
    var s := T(t[r..]);
    if (|t| - r) % 2 == 0 {
      TLength(t[r..]);
      TAt(t[r..], |s| - 1);
      var last := t[|t| - 2..];
      assert t[r..][2 * (|s| - 1)..2 * (|s| - 1) + 2] == last;
      TwoBytesValue(last);
    }
    hide T, LeValue;
  }

  lemma WriteHoldsLittle(h: Held, t: seq<Byte>)
    requires h.Valid(UTF16LE) && OnlyWhatIsCut(h)
    ensures OnlyWhatIsCut(Written(UTF16LE, h, t).1)
  {
    hide T, Text16, Encoding.OneShot;
    if t != [] {
      if h.need == 0 {
        TextHoldsLittle(t, 0);
      } else if h.need < |t| {
        TextHoldsLittle(t, h.need);
      }
    }
  }

  /** After any chunks an odd byte is held exactly if there is one, and two more only if they are a lead surrogate. */
  lemma {:induction false} HoldsWhatIsCut(chunks: seq<seq<Byte>>)
    ensures var h := Feed(UTF16LE, chunks).1;
            && OnlyWhatIsCut(h) && |h.bytes| % 2 == |Concat(chunks)| % 2
  {
    hide Written, OnlyWhatIsCut, T, Encoding.OneShot;
    FeedConverts(UTF16LE, chunks);
    if chunks == [] {
      NothingIsCut();
    } else {
      var before := chunks[..|chunks| - 1];
      HoldsWhatIsCut(before);
      WriteHoldsLittle(Feed(UTF16LE, before).1, chunks[|chunks| - 1]);
    }
  }

  lemma NothingIsCut()
    ensures OnlyWhatIsCut(NOTHING)
  {
  }
}
