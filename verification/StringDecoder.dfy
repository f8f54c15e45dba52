/** Module 2553: the streaming decoder. Bytes arrive in chunks; a character cut by a chunk boundary is held back. */
module StringDecoder {
  import opened Bytes
  import opened Unicode
  import opened Utf8Decode
  import opened Optional

  // ----- The one-shot conversions of Buffer.toString -----

  /** UTF-16LE (function `T` of module 8764): an odd last byte is dropped. */
  function T(b: seq<Byte>): (s: seq<Unit>) {
    if |b| < 2 then [] else [(b[0] as int) + 256 * (b[1] as int)] + T(b[2..])
  }

  /** The alphabet of section 4 of RFC 4648. */
  function Base64Digit(v: nat): (u: Unit)
    requires v < 64
  {
    if v < 26 then 65 + v else if v < 52 then 97 + v - 26 else if v < 62 then 48 + v - 52 else if v == 62 then 43 else 47
  }

  /** Three bytes make four digits. */
  function Group(b: seq<Byte>): (s: seq<Unit>)
    requires |b| == 3
  {
    [Base64Digit(b[0] / 4), Base64Digit(b[0] % 4 * 16 + b[1] / 16),
     Base64Digit(b[1] % 16 * 4 + b[2] / 64), Base64Digit(b[2] % 64)]
  }

  /** Section 4 of RFC 4648. */
  function Base64(b: seq<Byte>): (s: seq<Unit>) {
    if b == [] then []
    else if |b| == 1 then
      [Base64Digit(b[0] / 4), Base64Digit(b[0] % 4 * 16), 61, 61]
    else if |b| == 2 then
      [Base64Digit(b[0] / 4), Base64Digit(b[0] % 4 * 16 + b[1] / 16), Base64Digit(b[1] % 16 * 4), 61]
    else
      Group(b[..3]) + Base64(b[3..])
  }

  datatype Encoding = UTF8 | UTF16LE | BASE64
  {
    function Capacity(): (n: nat) { if BASE64? then 3 else 4 }

    /** What toString makes of b in this encoding. */
    function OneShot(b: seq<Byte>): (s: seq<Unit>) {
      match this
      case UTF8 => A(b)
      case UTF16LE => T(b)
      case BASE64 => Base64(b)
    }
  }

  // ----- What one call does, as functions of the held bytes -----

  /** lastNeed, lastTotal and the bytes of lastChar that count; need is 0 when nothing is held. */
  datatype Held = Held(need: nat, total: nat, bytes: seq<Byte>)
  {
    predicate Valid(e: Encoding) {
      if need == 0 then this == NOTHING
      else need < total <= e.Capacity() && |bytes| == total - need
    }
  }

  const NOTHING := Held(0, 0, [])

  /** Function `o`: 0 for ASCII, the length a lead byte announces, -1 for a continuation byte, -2 otherwise.
      On bytes, >> n is division by 2^n. */
  function CheckByte(b: Byte): (n: int) {
    if b <= 127 then 0
    else if b / 32 == 6 then 2
    else if b / 16 == 14 then 3
    else if b / 8 == 30 then 4
    else if b / 64 == 2 then -1
    else -2
  }

  /** The total and the number of missing bytes of a character cut off at the end of t, looking no further
      back than r and at most three bytes. */
  function CheckIncomplete(t: seq<Byte>, r: nat): (c: (nat, nat))
    requires r < |t|
    ensures c.1 > 0 ==> c.1 < c.0 <= 4 && c.0 - c.1 <= |t| - r
  {
    var n := |t| - 1;
    var a := CheckByte(t[n]);
    if a >= 0 then (a, if a > 0 then a - 1 else 0)
    else if n - 1 < r || a == -2 then (0, 0)
    else
      var a2 := CheckByte(t[n - 1]);
      if a2 >= 0 then (a2, if a2 > 0 then a2 - 2 else 0)
      else if n - 2 < r || a2 == -2 then (0, 0)
      else
        var a3 := CheckByte(t[n - 2]);
        if a3 > 0 then (if a3 == 2 then (0, 0) else (a3, a3 - 3))
        else (0, 0)
  }

  /** `text` for UTF-8. */
  function Text8(t: seq<Byte>, r: nat): (p: (seq<Unit>, Held))
    requires r < |t|
    ensures p.1.Valid(UTF8)
  {
    var (total, need) := CheckIncomplete(t, r);
    if need == 0 then (A(t[r..]), NOTHING)
    else
      var n := |t| - (total - need);
      (A(t[r..n]), Held(need, total, t[n..]))
  }

  /** `text` for UTF-16LE: an odd byte or a final lead surrogate is held back. */
  function Text16(t: seq<Byte>, r: nat): (p: (seq<Unit>, Held))
    requires r < |t|
    ensures p.1.Valid(UTF16LE)
  {
    if (|t| - r) % 2 == 0 then
      var s := T(t[r..]);
      if s != [] && IsLead(s[|s| - 1]) then (s[..|s| - 1], Held(2, 4, t[|t| - 2..]))
      else (s, NOTHING)
    else (T(t[r..|t| - 1]), Held(1, 2, t[|t| - 1..]))
  }

  /** `text` for base64: what is over a multiple of three bytes is held back. */
  function Text64(t: seq<Byte>, r: nat): (p: (seq<Unit>, Held))
    requires r < |t|
    ensures p.1.Valid(BASE64)
  {
    var m := (|t| - r) % 3;
    if m == 0 then (Base64(t[r..]), NOTHING)
    else (Base64(t[r..|t| - m]), Held(3 - m, 3, t[|t| - m..]))
  }

  /** `text`: decodes t from r on, and holds back what the encoding cannot finish. */
  function TextSplit(e: Encoding, t: seq<Byte>, r: nat): (p: (seq<Unit>, Held))
    requires r < |t|
    ensures p.1.Valid(e)
  {
    match e
    case UTF8 => Text8(t, r)
    case UTF16LE => Text16(t, r)
    case BASE64 => Text64(t, r)
  }

  /** How many bytes of t a failed continuation check has consumed, if it fails. */
  function CheckExtraBytes(need: nat, t: seq<Byte>): (failed: Option<nat>)
    requires need > 0 && t != []
    ensures failed.Some? ==> failed.value < |t|
  {
    if !IsContinuation(t[0]) then Some(0)
    else if need > 1 && |t| > 1 then
      if !IsContinuation(t[1]) then Some(1)
      else if need > 2 && |t| > 2 && !IsContinuation(t[2]) then Some(2)
      else None
    else None
  }

  /** `fillLast`: either a string and how many bytes of t went into it, or more bytes held. */
  datatype Filled = Complete(text: seq<Unit>, used: nat) | Waiting(held: Held)

  function LastFilled(e: Encoding, h: Held, t: seq<Byte>): (f: Filled)
    requires h.Valid(e) && h.need > 0 && t != []
    ensures f.Complete? ==> f.used <= |t|
    ensures f.Waiting? ==> f.held.Valid(e) && f.held.need > 0
  {
    var failed := if e.UTF8? then CheckExtraBytes(h.need, t) else None;
    if failed.Some? then Complete([REPLACEMENT], failed.value)
    else if h.need <= |t| then Complete(e.OneShot(h.bytes + t[..h.need]), h.need)
    else Waiting(Held(h.need - |t|, h.total, h.bytes + t))
  }

  /** `write` */
  function Written(e: Encoding, h: Held, t: seq<Byte>): (p: (seq<Unit>, Held))
    requires h.Valid(e)
    ensures p.1.Valid(e)
  {
    if t == [] then ([], h)
    else if h.need > 0 then
      match LastFilled(e, h, t)
      case Waiting(held) => ([], held)
      case Complete(text, used) =>
        if used < |t| then
          var (rest, held) := TextSplit(e, t, used);
          (text + rest, held)
        else (text, NOTHING)
    else TextSplit(e, t, 0)
  }

  /** What `end` adds for the bytes still held. */
  function Flush(e: Encoding, h: Held): (s: seq<Unit>)
    requires h.Valid(e)
  {
    if h.need == 0 then []
    else if e.UTF8? then [REPLACEMENT]
    else e.OneShot(h.bytes)
  }

  // ----- Whole runs -----

  function Concat(chunks: seq<seq<Byte>>): (b: seq<Byte>) {
    if chunks == [] then [] else Concat(chunks[..|chunks| - 1]) + chunks[|chunks| - 1]
  }

  /** The strings that `write` returns for the chunks in turn, joined, and what is held in the end. */
  function Feed(e: Encoding, chunks: seq<seq<Byte>>): (p: (seq<Unit>, Held))
    ensures p.1.Valid(e)
  {
    if chunks == [] then ([], NOTHING)
    else
      var (out, h) := Feed(e, chunks[..|chunks| - 1]);
      var (more, held) := Written(e, h, chunks[|chunks| - 1]);
      (out + more, held)
  }

  /** Everything the decoder returns for the chunks, `end` included. */
  function Streamed(e: Encoding, chunks: seq<seq<Byte>>): (s: seq<Unit>) {
    Feed(e, chunks).0 + Flush(e, Feed(e, chunks).1)
  }

  // ----- UTF-16LE and base64: any bytes, any chunks -----

  /** n bytes are a whole number of code units, or of base64 groups. */
  predicate Whole(e: Encoding, n: nat) {
    if e.BASE64? then n % 3 == 0 else n % 2 == 0
  }

  lemma WholeSum(e: Encoding, m: nat, n: nat)
    requires Whole(e, m) && Whole(e, n)
    ensures Whole(e, m + n)
  {
  }

  predicate Aligned(e: Encoding, h: Held) {
    h.Valid(e) && (h.need > 0 ==> Whole(e, h.total))
  }

  function TUnit(b: seq<Byte>): (u: Unit)
    requires |b| >= 2
  {
    (b[0] as int) + 256 * (b[1] as int)
  }

  lemma {:induction false} TAppend(a: seq<Byte>, b: seq<Byte>)
    requires Whole(UTF16LE, |a|)
    ensures T(a + b) == T(a) + T(b)
  {
    if a == [] {
      assert a + b == b;
    } else {
      assert Whole(UTF16LE, |a[2..]|);
      TAppend(a[2..], b);
      var c := a + b;
      assert c[2..] == a[2..] + b && c[0] == a[0] && c[1] == a[1];
      TStep(a);
      TStep(c);
      hide T, Whole;
    }
  }

  lemma TStep(b: seq<Byte>)
    requires |b| >= 2
    ensures T(b) == [TUnit(b)] + T(b[2..])
  {
  }

  lemma TooShort(b: seq<Byte>)
    requires |b| < 2
    ensures T(b) == []
  {
  }

  lemma {:induction false} Base64Append(a: seq<Byte>, b: seq<Byte>)
    requires Whole(BASE64, |a|)
    ensures Base64(a + b) == Base64(a) + Base64(b)
  {
    if a == [] {
      assert a + b == b;
    } else {
      assert Whole(BASE64, |a[3..]|);
      Base64Append(a[3..], b);
      var c := a + b;
      assert c[3..] == a[3..] + b && c[..3] == a[..3];
      GroupStep(a);
      GroupStep(c);
      hide Base64, Whole, Group;
    }
  }

  lemma GroupStep(b: seq<Byte>)
    requires |b| >= 3
    ensures Base64(b) == Group(b[..3]) + Base64(b[3..])
  {
    hide Base64Digit, Group;
  }

  lemma OneShotAppend(e: Encoding, a: seq<Byte>, b: seq<Byte>)
    requires !e.UTF8? && Whole(e, |a|)
    ensures e.OneShot(a + b) == e.OneShot(a) + e.OneShot(b)
  {
    hide T, Base64;
    if e.UTF16LE? { TAppend(a, b); } else { Base64Append(a, b); }
  }

  /** What is held is the end of the bytes seen, and the rest has been converted. */
  predicate Converts(e: Encoding, seen: seq<Byte>, out: seq<Unit>, h: Held) {
    && Aligned(e, h)
    && |h.bytes| <= |seen| && Whole(e, |seen| - |h.bytes|)
    && seen[|seen| - |h.bytes|..] == h.bytes
    && out == e.OneShot(seen[..|seen| - |h.bytes|])
  }

  lemma CheckOfSlice(t: seq<Byte>, r: nat)
    requires r < |t|
    ensures CheckIncomplete(t, r) == CheckIncomplete(t[r..], 0)
  {
    hide CheckByte;
    var z, n := t[r..], |t| - 1;
    assert z[|z| - 1] == t[n];
    if n - 1 < r {
    } else {
      assert z[|z| - 2] == t[n - 1];
      if n - 2 < r {
      } else {
        assert z[|z| - 3] == t[n - 2];
      }
    }
  }

  lemma SliceOfSlice(t: seq<Byte>, r: nat, k: nat)
    requires r < |t| && k <= |t| - r
    ensures var z := t[r..];
            t[r..|t| - k] == z[0..|z| - k] && t[|t| - k..] == z[|z| - k..]
  {
  }

  /** `text` looks at nothing before r. */
  lemma Text8OfSlice(t: seq<Byte>, r: nat)
    requires r < |t|
    ensures Text8(t, r) == Text8(t[r..], 0)
  {
    hide A, CheckIncomplete;
    var z := t[r..];
    assert z[0..] == z;
    CheckOfSlice(t, r);
    var (total, need) := CheckIncomplete(t, r);
    if need > 0 {
      SliceOfSlice(t, r, total - need);
    }
  }

  lemma Text16OfSlice(t: seq<Byte>, r: nat)
    requires r < |t|
    ensures Text16(t, r) == Text16(t[r..], 0)
  {
    hide T;
    var z := t[r..];
    assert z[0..] == z;
    if (|t| - r) % 2 == 0 {
      assert |z| % 2 == 0 && t[|t| - 2..] == z[|z| - 2..];
    } else {
      assert |z| % 2 == 1 && t[r..|t| - 1] == z[0..|z| - 1] && t[|t| - 1..] == z[|z| - 1..];
    }
  }

  lemma Text64OfSlice(t: seq<Byte>, r: nat)
    requires r < |t|
    ensures Text64(t, r) == Text64(t[r..], 0)
  {
    hide Base64;
    var z := t[r..];
    assert z[0..] == z;
    var m := |z| % 3;
    assert t[r..|t| - m] == z[0..|z| - m] && t[|t| - m..] == z[|z| - m..];
  }

  lemma TextConverts(e: Encoding, t: seq<Byte>, r: nat)
    requires !e.UTF8? && r < |t|
    ensures Converts(e, t[r..], TextSplit(e, t, r).0, TextSplit(e, t, r).1)
  {
    hide Text64, Text16, Converts;
    if e.BASE64? {
      Text64OfSlice(t, r);
      TextConverts64(t[r..]);
    } else {
      Text16OfSlice(t, r);
      TextConverts16(t[r..]);
    }
  }

  lemma TextConverts64(z: seq<Byte>)
    requires z != []
    ensures Converts(BASE64, z, Text64(z, 0).0, Text64(z, 0).1)
  {
    hide Base64;
    var m := |z| % 3;
    assert z[0..|z| - m] == z[..|z| - m];
    assert z[0..] == z[..|z|] == z && z[|z|..] == [];
  }

  lemma TextConverts16(z: seq<Byte>)
    requires z != []
    ensures Converts(UTF16LE, z, Text16(z, 0).0, Text16(z, 0).1)
  {
    assert z[0..] == z[..|z|] == z && z[|z|..] == [];
    if |z| % 2 == 1 {
      OddConverts16(z);
    } else if T(z) != [] && IsLead(T(z)[|T(z)| - 1]) {
      LeadHeldBack(z);
      hide T;
      assert Text16(z, 0) == (T(z[..|z| - 2]), Held(2, 4, z[|z| - 2..]));
    } else {
      hide T;
      assert Text16(z, 0) == (T(z), NOTHING);
    }
  }

  lemma OddConverts16(z: seq<Byte>)
    requires |z| % 2 == 1
    ensures Converts(UTF16LE, z, Text16(z, 0).0, Text16(z, 0).1)
  {
    hide T;
    assert z[0..|z| - 1] == z[..|z| - 1];
  }

  lemma LeadHeldBack(z: seq<Byte>)
    requires Whole(UTF16LE, |z|) && T(z) != []
    ensures |z| >= 2 && T(z)[..|T(z)| - 1] == T(z[..|z| - 2])
  {
    var head, last := z[..|z| - 2], z[|z| - 2..];
    assert z == head + last;
    TAppend(head, last);
    assert last[2..] == [];
    assert |T(last)| == 1;
  }

  lemma Extend(e: Encoding, seen: seq<Byte>, out: seq<Unit>, h: Held, t: seq<Byte>, more: seq<Unit>, held: Held)
    requires !e.UTF8? && Converts(e, seen, out, h) && Converts(e, h.bytes + t, more, held)
    ensures Converts(e, seen + t, out + more, held)
  {
    hide Whole, Encoding.OneShot, Aligned;
    var y, w := seen[..|seen| - |h.bytes|], h.bytes + t;
    var v := w[..|w| - |held.bytes|];
    assert seen + t == y + w;
    assert (seen + t)[..|seen + t| - |held.bytes|] == y + v;
    assert (seen + t)[|seen + t| - |held.bytes|..] == w[|w| - |held.bytes|..];
    OneShotAppend(e, y, v);
    WholeSum(e, |y|, |v|);
  }

  lemma WriteConverts(e: Encoding, h: Held, t: seq<Byte>)
    requires !e.UTF8? && Aligned(e, h)
    ensures Converts(e, h.bytes + t, Written(e, h, t).0, Written(e, h, t).1)
  {
    var w := h.bytes + t;
    if h.need > 0 && t != [] && h.need <= |t| {
      WriteFills(e, h, t);
    } else if h.need == 0 && t != [] {
      hide TextSplit;
      TextConverts(e, t, 0);
      assert t[0..] == t == w;
    } else {
      hide TextSplit;
      assert e.OneShot([]) == [] && Written(e, h, t).0 == [] && Written(e, h, t).1.bytes == w;
      assert w[..0] == [] && w[|w| - |w|..] == w;
      assert Whole(e, 0);
    }
  }

  lemma WriteFills(e: Encoding, h: Held, t: seq<Byte>)
    requires !e.UTF8? && Aligned(e, h) && 0 < h.need <= |t|
    ensures Converts(e, h.bytes + t, Written(e, h, t).0, Written(e, h, t).1)
  {
    hide TextSplit, Encoding.OneShot, CheckExtraBytes;
    var first := h.bytes + t[..h.need];
    assert |first| == h.total && Whole(e, |first|) && Whole(e, 0);
    assert first[..|first|] == first && first[|first|..] == [];
    if h.need < |t| {
      TextConverts(e, t, h.need);
      assert h.bytes + t == first + t[h.need..];
      assert NOTHING.bytes + t[h.need..] == t[h.need..];
      Extend(e, first, e.OneShot(first), NOTHING, t[h.need..], TextSplit(e, t, h.need).0, TextSplit(e, t, h.need).1);
    } else {
      assert first == h.bytes + t;
    }
  }

  /** However a byte sequence is cut into chunks, the stream is the one-shot conversion of the whole. */
  lemma {:induction false} FeedConverts(e: Encoding, chunks: seq<seq<Byte>>)
    requires !e.UTF8?
    ensures Converts(e, Concat(chunks), Feed(e, chunks).0, Feed(e, chunks).1)
  {
    if chunks == [] {
    } else {
      var before, last := chunks[..|chunks| - 1], chunks[|chunks| - 1];
      FeedConverts(e, before);
      var (out, h) := Feed(e, before);
      WriteConverts(e, h, last);
      Extend(e, Concat(before), out, h, last, Written(e, h, last).0, Written(e, h, last).1);
    }
  }

  lemma StreamedIsOneShot(e: Encoding, chunks: seq<seq<Byte>>)
    requires !e.UTF8?
    ensures Streamed(e, chunks) == e.OneShot(Concat(chunks))
  {
    FeedConverts(e, chunks);
    var seen, h := Concat(chunks), Feed(e, chunks).1;
    var y := seen[..|seen| - |h.bytes|];
    assert seen == y + h.bytes;
    OneShotAppend(e, y, h.bytes);
  }

  // ----- UTF-8: the prefixes of well-formed text -----

  /** h is the beginning, but not all, of a character. */
  ghost predicate IsCut(h: seq<Byte>) {
    h != [] && exists t: seq<Byte> :: CharLength(h + t) > |h|
  }

  /** How many bytes of x are whole characters, from the start. */
  function WholeChars(x: seq<Byte>): (n: nat)
    ensures n <= |x|
  {
    if CharLength(x) == 0 then 0 else CharLength(x) + WholeChars(x[CharLength(x)..])
  }

  /** x is the beginning of some well-formed byte sequence: whole characters, then perhaps a cut one. */
  ghost predicate IsPrefix(x: seq<Byte>) {
    x[WholeChars(x)..] == [] || IsCut(x[WholeChars(x)..])
  }

  lemma {:induction false} WholeCharsWellFormed(x: seq<Byte>)
    ensures WellFormed8(x[..WholeChars(x)])
  {
    var n := CharLength(x);
    if n > 0 {
      WholeCharsWellFormed(x[n..]);
      var y := x[..WholeChars(x)];
      assert y[n..] == x[n..][..WholeChars(x[n..])];
      CharLengthOfPrefix(x, y);
    }
  }

  /** Whether a character starts a sequence depends on its own bytes only. */
  lemma CharLengthOfPrefix(x: seq<Byte>, y: seq<Byte>)
    requires y <= x && 0 < CharLength(x) <= |y|
    ensures CharLength(y) == CharLength(x)
  {
  }

  lemma {:induction false} WholeCharsAppend(y: seq<Byte>, z: seq<Byte>)
    requires WellFormed8(y)
    ensures WholeChars(y + z) == |y| + WholeChars(z)
  {
    if y == [] {
      assert y + z == z;
    } else {
      var n := CharLength(y);
      assert CharLength(y + z) == n by { CharLengthExtends(y, z); }
      assert (y + z)[n..] == y[n..] + z;
      WholeCharsAppend(y[n..], z);
    }
  }

  lemma CharLengthExtends(y: seq<Byte>, z: seq<Byte>)
    requires CharLength(y) > 0
    ensures CharLength(y + z) == CharLength(y)
  {
  }

  /** The shape of a cut character: a lead byte that announces more bytes than there are, then continuations. */
  lemma CutShape(h: seq<Byte>)
    requires IsCut(h)
    ensures |h| < CheckByte(h[0]) <= 4 && CheckByte(h[0]) == Announced(h[0])
    ensures forall i :: 1 <= i < |h| ==> IsTail(h[i])
    ensures CharLength(h) == 0
  {
    var t: seq<Byte> :| CharLength(h + t) > |h|;
    CharShape(h + t);
    if CharLength(h) > 0 {
      CharLengthExtends(h, t);
    }
  }

  lemma CharShape(b: seq<Byte>)
    requires CharLength(b) > 0
    ensures CheckByte(b[0]) == if CharLength(b) == 1 then 0 else CharLength(b)
    ensures CharLength(b) > 1 ==> Announced(b[0]) == CharLength(b)
    ensures forall i :: 1 <= i < CharLength(b) ==> IsTail(b[i])
  {
  }

  /** The bytes that end z: its last whole character, or the cut one. */
  lemma {:induction false} LastPiece(z: seq<Byte>) returns (w: seq<Byte>, p: seq<Byte>)
    requires z != [] && IsPrefix(z)
    ensures z == w + p && p != []
    ensures WholeChars(z) == |z| ==> CharLength(p) == |p|
    ensures WholeChars(z) < |z| ==> IsCut(p) && w == z[..WholeChars(z)] && p == z[WholeChars(z)..]
    decreases |z|
  {
    var n := CharLength(z);
    if n == 0 {
      w, p := [], z;
    } else if n == |z| {
      assert z[n..] == [];
      w, p := [], z;
    } else {
      var rest := z[n..];
      assert rest[WholeChars(rest)..] == z[WholeChars(z)..];
      var v, q := LastPiece(rest);
      w, p := z[..n] + v, q;
      assert z == z[..n] + rest;
      if WholeChars(z) < |z| {
        assert z[..WholeChars(z)] == z[..n] + rest[..WholeChars(rest)];
      }
    }
  }

  /** Looking back from the end, `text` finds exactly a cut character, if there is one. */
  lemma FindsCut(z: seq<Byte>)
    requires z != [] && IsPrefix(z)
    ensures var (total, need), h := CheckIncomplete(z, 0), z[WholeChars(z)..];
            if h == [] then need == 0 else need > 0 && total == Announced(h[0]) && total - need == |h|
  {
    hide CheckByte, CharLength, IsTail, Announced, WholeChars, CheckIncomplete;
    var w, p := LastPiece(z);
    if WholeChars(z) == |z| {
      CharShape(p);
      TailsAreMinusOne(p);
      LooksBack(w, p, if |p| == 1 then 0 else |p|);
    } else {
      CutShape(p);
      TailsAreMinusOne(p);
      LooksBack(w, p, Announced(p[0]));
    }
  }

  lemma TailsAreMinusOne(p: seq<Byte>)
    requires forall i :: 1 <= i < |p| ==> IsTail(p[i])
    ensures forall i :: 1 <= i < |p| ==> CheckByte(p[i]) == -1
  {
  }

  /** What CheckIncomplete finds when the last piece starts with a byte that announces c. */
  lemma LooksBack(w: seq<Byte>, p: seq<Byte>, c: nat)
    requires 1 <= |p| <= 4 && CheckByte(p[0]) == c <= 4
    requires forall i :: 1 <= i < |p| ==> CheckByte(p[i]) == -1
    requires c == 0 ==> |p| == 1
    requires c > 0 ==> 2 <= c && |p| <= c
    ensures var (total, need) := CheckIncomplete(w + p, 0);
            if c == 0 || |p| == c then need == 0 else need == c - |p| && total == c
  {
    hide CheckByte;
    var z := w + p;
    var n := |z| - 1;
    assert z[n] == p[|p| - 1];
    if |p| >= 2 {
      assert z[n - 1] == p[|p| - 2];
    }
    if |p| >= 3 {
      assert z[n - 2] == p[|p| - 3];
    }
  }

  /** How the decoder holds the cut character h, or nothing. */
  function HeldOf(h: seq<Byte>): (r: Held) {
    if h == [] || Announced(h[0]) <= |h| then NOTHING else Held(Announced(h[0]) - |h|, Announced(h[0]), h)
  }

  lemma TextHoldsCut(z: seq<Byte>)
    requires z != [] && IsPrefix(z)
    ensures Text8(z, 0) == (A(z[..WholeChars(z)]), HeldOf(z[WholeChars(z)..]))
  {
    hide A, CheckIncomplete, WholeChars, Announced;
    FindsCut(z);
    assert z[0..] == z;
    var k := WholeChars(z);
    if z[k..] == [] {
      assert z[..k] == z;
    } else {
      assert z[0..k] == z[..k];
    }
  }

  lemma CutIsValid(h: seq<Byte>)
    requires h == [] || IsCut(h)
    ensures HeldOf(h).Valid(UTF8)
    ensures h != [] ==> HeldOf(h).need > 0
  {
    if h != [] {
      CutShape(h);
    }
  }

  /** Continuation bytes never fail the check. */
  lemma TailsPass(need: nat, t: seq<Byte>)
    requires need > 0 && t != []
    requires forall i :: 0 <= i < |t| && i < need ==> IsTail(t[i])
    ensures CheckExtraBytes(need, t) == None
  {
    hide IsContinuation;
    ContinuationIsTail(t[0]);
    if |t| > 1 { ContinuationIsTail(t[1]); }
    if |t| > 2 { ContinuationIsTail(t[2]); }
  }

  /** A chunk completes a cut character, or adds to it. */
  lemma FillsCut(h: seq<Byte>, t: seq<Byte>)
    requires IsCut(h) && t != [] && IsPrefix(h + t)
    ensures HeldOf(h).Valid(UTF8) && HeldOf(h).need > 0
    ensures var n, f := CharLength(h + t), LastFilled(UTF8, HeldOf(h), t);
            if n > 0 then |h| < n && f == Complete(A((h + t)[..n]), n - |h|)
            else IsCut(h + t) && f == Waiting(HeldOf(h + t))
  {
    CutIsValid(h);
    CutShape(h);
    var b, need := h + t, HeldOf(h).need;
    assert b[0] == h[0];
    assert forall i :: 0 <= i < |t| ==> b[|h| + i] == t[i];
    if CharLength(b) > 0 {
      CharShape(b);
      assert CharLength(b) == Announced(h[0]);
      assert h + t[..need] == b[..CharLength(b)];
    } else {
      assert b[0..] == b;
      CutShape(b);
    }
    TailsPass(need, t);
    hide CharLength, A, CheckExtraBytes;
  }

  /** One `write` with a cut character held. */
  lemma WriteOnPrefix(h: seq<Byte>, t: seq<Byte>)
    requires (h == [] || IsCut(h)) && IsPrefix(h + t)
    ensures HeldOf(h).Valid(UTF8)
    ensures var x := h + t;
            Written(UTF8, HeldOf(h), t) == (A(x[..WholeChars(x)]), HeldOf(x[WholeChars(x)..]))
  {
    CutIsValid(h);
    var x := h + t;
    if t == [] {
      assert x == h;
      if h != [] { CutShape(h); }
      NothingWhole(x);
    } else if h == [] {
      assert x == t;
      hide Text8, A;
      TextHoldsCut(t);
    } else {
      FillsCut(h, t);
      var n := CharLength(x);
      if n == 0 {
        NothingWhole(x);
      } else {
        FilledThenText(h, t);
      }
    }
  }

  lemma NothingWhole(x: seq<Byte>)
    requires CharLength(x) == 0
    ensures WholeChars(x) == 0 && x[WholeChars(x)..] == x && A(x[..WholeChars(x)]) == []
  {
  }

  /** Behind well-formed text, the whole characters of z and their decoding come after those of y. */
  lemma JoinChars(y: seq<Byte>, z: seq<Byte>)
    requires WellFormed8(y)
    ensures var x, k := y + z, WholeChars(z);
            && WholeChars(x) == |y| + k && x[WholeChars(x)..] == z[k..]
            && A(x[..WholeChars(x)]) == A(y) + A(z[..k])
  {
    hide A, WholeChars, WellFormed8;
    WholeCharsAppend(y, z);
    SplitBehind(y, z, WholeChars(z));
    AAppend(y, z[..WholeChars(z)]);
  }

  lemma SplitBehind(y: seq<Byte>, z: seq<Byte>, k: nat)
    requires k <= |z|
    ensures (y + z)[|y| + k..] == z[k..] && (y + z)[..|y| + k] == y + z[..k]
  {
  }

  lemma OneCharIsWellFormed(c: seq<Byte>)
    requires CharLength(c) == |c| > 0
    ensures WellFormed8(c)
  {
    assert c[|c|..] == [];
  }

  lemma FilledThenText(h: seq<Byte>, t: seq<Byte>)
    requires IsCut(h) && t != [] && IsPrefix(h + t) && CharLength(h + t) > 0
    ensures HeldOf(h).Valid(UTF8)
    ensures var x := h + t;
            Written(UTF8, HeldOf(h), t) == (A(x[..WholeChars(x)]), HeldOf(x[WholeChars(x)..]))
  {
    hide A, WholeChars, CharLength, LastFilled, Text8, HeldOf, IsCut, WellFormed8, Held.Valid;
    FillsCut(h, t);
    var x := h + t;
    var n := CharLength(x);
    var used, c, rest := n - |h|, x[..n], x[n..];
    CharLengthOfPrefix(x, c);
    OneCharIsWellFormed(c);
    assert x == c + rest && t[used..] == rest;
    JoinChars(c, rest);
    EmptyText();
    if used < |t| {
      Text8OfSlice(t, used);
      TextHoldsCut(rest);
    } else {
      assert rest == [] && rest[WholeChars(rest)..] == [] && rest[..WholeChars(rest)] == [];
    }
  }

  lemma EmptyText()
    ensures A([]) == [] && WholeChars([]) == 0 && HeldOf([]) == NOTHING
  {
  }

  /** A whole character at the front makes no difference to being a prefix. */
  lemma PrefixBehindChar(x: seq<Byte>)
    requires CharLength(x) > 0
    ensures IsPrefix(x) <==> IsPrefix(x[CharLength(x)..])
  {
    var n := CharLength(x);
    hide CharLength, IsCut;
    assert x[WholeChars(x)..] == x[n..][WholeChars(x[n..])..];
  }

  lemma PrefixWithoutChar(x: seq<Byte>)
    requires CharLength(x) == 0
    ensures IsPrefix(x) <==> x == [] || IsCut(x)
  {
    hide CharLength, IsCut;
    assert x[0..] == x;
  }

  lemma CutOfLonger(a: seq<Byte>, b: seq<Byte>)
    requires a != [] && CharLength(a) == 0 && IsPrefix(a + b)
    ensures IsCut(a)
  {
    var x := a + b;
    var n := CharLength(x);
    if n > 0 {
      if n <= |a| {
        CharLengthOfPrefix(x, a);
      }
    } else {
      PrefixWithoutChar(x);
      hide CharLength, IsPrefix;
      var t: seq<Byte> :| CharLength(x + t) > |x|;
      assert x + t == a + (b + t);
    }
  }

  lemma {:induction false} PrefixOfPrefix(a: seq<Byte>, b: seq<Byte>)
    requires IsPrefix(a + b)
    ensures IsPrefix(a)
    decreases |a|
  {
    hide CharLength, IsCut, IsPrefix;
    if CharLength(a) > 0 {
      var n := CharLength(a);
      CharLengthExtends(a, b);
      PrefixBehindChar(a + b);
      assert (a + b)[n..] == a[n..] + b;
      PrefixOfPrefix(a[n..], b);
      PrefixBehindChar(a);
    } else if a != [] {
      CutOfLonger(a, b);
      PrefixWithoutChar(a);
    } else {
      PrefixWithoutChar(a);
    }
  }

  /** On a prefix of well-formed text, cut into chunks anywhere, the strings returned so far are the one-shot
      decoding of the whole characters, and what is held is exactly the cut one. */
  lemma {:induction false} FeedOnPrefix(chunks: seq<seq<Byte>>)
    requires IsPrefix(Concat(chunks))
    ensures var x := Concat(chunks);
            Feed(UTF8, chunks) == (A(x[..WholeChars(x)]), HeldOf(x[WholeChars(x)..]))
  {
    hide A, WholeChars, Written, CharLength, WellFormed8, HeldOf, IsCut;
    if chunks == [] {
      EmptyText();
      assert Concat(chunks)[..0] == Concat(chunks) == [];
    } else {
      var before, last := chunks[..|chunks| - 1], chunks[|chunks| - 1];
      PrefixOfPrefix(Concat(before), last);
      FeedOnPrefix(before);
      var x := Concat(before);
      var y, h := x[..WholeChars(x)], x[WholeChars(x)..];
      WholeCharsWellFormed(x);
      assert x == y + h && x + last == y + (h + last);
      FeedStep(y, h, last);
    }
  }

  lemma FeedStep(y: seq<Byte>, h: seq<Byte>, last: seq<Byte>)
    requires WellFormed8(y) && (h == [] || IsCut(h)) && IsPrefix(y + (h + last))
    ensures HeldOf(h).Valid(UTF8)
    ensures var z, (more, held) := y + (h + last), Written(UTF8, HeldOf(h), last);
            A(y) + more == A(z[..WholeChars(z)]) && held == HeldOf(z[WholeChars(z)..])
  {
    JoinChars(y, h + last);
    var z := h + last;
    assert IsPrefix(z);
    hide A, WholeChars, Written, CharLength, WellFormed8, HeldOf, IsCut;
    WriteOnPrefix(h, last);
  }

  function Replacements(n: nat): (s: seq<Unit>)
    ensures |s| == n
  {
    if n == 0 then [] else [REPLACEMENT] + Replacements(n - 1)
  }

  lemma {:induction false} TailsDecode(b: seq<Byte>)
    requires forall i :: 0 <= i < |b| ==> IsTail(b[i])
    ensures A(b) == Replacements(|b|)
  {
    if b == [] {
    } else {
      AcceptedIsChar(b);
      TailsDecode(b[1..]);
      OneMore(b);
      assert Utf16Char(REPLACEMENT) == [REPLACEMENT];
    }
  }

  /** Read in one shot, every byte of a cut character is replaced. */
  lemma CutDecodes(h: seq<Byte>)
    requires IsCut(h)
    ensures A(h) == Replacements(|h|)
  {
    CutShape(h);
    AcceptedIsChar(h);
    TailsDecode(h[1..]);
    OneMore(h);
    assert Utf16Char(REPLACEMENT) == [REPLACEMENT];
  }

  /** Both outputs for whole characters y and a cut one h. */
  lemma BothOutputs(chunks: seq<seq<Byte>>)
    requires IsPrefix(Concat(chunks))
    ensures var x := Concat(chunks);
            var y, h := x[..WholeChars(x)], x[WholeChars(x)..];
            && Streamed(UTF8, chunks) == A(y) + (if h == [] then [] else [REPLACEMENT])
            && A(x) == A(y) + Replacements(|h|)
  {
    hide WellFormed8, WholeChars, A, Feed, Concat, IsCut, Encoding.OneShot, HeldOf, Replacements;
    FeedOnPrefix(chunks);
    var x := Concat(chunks);
    var y, h := x[..WholeChars(x)], x[WholeChars(x)..];
    WholeCharsWellFormed(x);
    assert x == y + h;
    AAppend(y, h);
    CutIsValid(h);
    if h == [] {
      EmptyText();
      TailsDecode([]);
    } else {
      CutDecodes(h);
    }
  }

  /** The stream, `end` included, against the one-shot decoding: they agree exactly when at most one byte of a
      cut character is left over. */
  lemma StreamedAgainstOneShot(chunks: seq<seq<Byte>>)
    requires IsPrefix(Concat(chunks))
    ensures var x := Concat(chunks);
            Streamed(UTF8, chunks) == A(x) <==> |x| - WholeChars(x) <= 1
  {
    hide WholeChars, A, Streamed, Concat, IsCut, IsPrefix;
    BothOutputs(chunks);
    assert Replacements(1) == [REPLACEMENT] + Replacements(0) == [REPLACEMENT];
  }

  lemma AllWhole(x: seq<Byte>)
    ensures WellFormed8(x) ==> WholeChars(x) == |x|
  {
    if WellFormed8(x) {
      WholeCharsAppend(x, []);
      assert x + [] == x;
      EmptyText();
    }
  }

  lemma WellFormedIsPrefix(x: seq<Byte>)
    requires WellFormed8(x)
    ensures IsPrefix(x)
  {
    AllWhole(x);
    hide WellFormed8, WholeChars, IsCut;
    assert x[|x|..] == [];
  }

  /** A prefix is what can be completed to well-formed text. */
  lemma PrefixMeaning(x: seq<Byte>)
    ensures IsPrefix(x) <==> exists t: seq<Byte> :: WellFormed8(x + t)
  {
    if IsPrefix(x) {
      var t := Completion(x);
      assert WellFormed8(x + t);
    }
    if t: seq<Byte> :| WellFormed8(x + t) {
      WellFormedIsPrefix(x + t);
      PrefixOfPrefix(x, t);
    }
  }

  lemma Completion(x: seq<Byte>) returns (t: seq<Byte>)
    requires IsPrefix(x)
    ensures WellFormed8(x + t)
  {
    hide WholeChars, WellFormed8, CharLength;
    var y, h := x[..WholeChars(x)], x[WholeChars(x)..];
    WholeCharsWellFormed(x);
    assert x == y + h;
    if h == [] {
      t := [];
      assert x + t == y;
    } else {
      var u: seq<Byte> :| CharLength(h + u) > |h|;
      var n := CharLength(h + u);
      var c := (h + u)[..n];
      CharLengthOfPrefix(h + u, c);
      OneCharIsWellFormed(c);
      WellFormed8Append(y, c);
      t := u[..n - |h|];
      assert h + t == c && x + t == y + c;
    }
  }

  /** On well-formed text the stream is the one-shot decoding, wherever it is cut. */
  lemma StreamedOnWellFormed(chunks: seq<seq<Byte>>)
    requires WellFormed8(Concat(chunks))
    ensures Streamed(UTF8, chunks) == A(Concat(chunks))
  {
    hide WholeChars, A, Streamed, Concat, IsPrefix, WellFormed8;
    WellFormedIsPrefix(Concat(chunks));
    AllWhole(Concat(chunks));
    StreamedAgainstOneShot(chunks);
  }

  /** Two bytes of a three-byte character at the end: one replacement from `end`, two from the one-shot decoder. */
  lemma CutOfTwoDiffers()
    ensures var x: seq<Byte> := [0xE2, 0x82];
            Streamed(UTF8, [x]) != A(x)
  {
    var x: seq<Byte> := [0xE2, 0x82];
    var euro: seq<Byte> := x + [0xAC];
    assert CharLength(euro) == 3 && CharLength(x) == 0;
    NothingWhole(x);
    hide CharLength, WholeChars;
    assert IsCut(x);
    assert [x][..0] == [];
    assert Concat([x]) == Concat([]) + x == x;
    StreamedAgainstOneShot([x]);
  }

  // ----- The decoder object -----

  /** Function `T` of module 8764 as written. */
  method DecodeUtf16(n: seq<Byte>) returns (s: seq<Unit>)
    ensures s == T(n)
  {
    hide T;
    s := [];
    var e := 0;
    assert n[0..] == n;
    while e < |n| - 1
      invariant 0 <= e <= |n|
      invariant T(n) == s + T(n[e..])
    {
      assert n[e..][2..] == n[e + 2..];
      TStep(n[e..]);
      s := s + [(n[e] as int) + 256 * (n[e + 1] as int)];
      e := e + 2;
    }
    TooShort(n[e..]);
  }

  /** Buffer.toString(encoding, start, end) */
  method ToString(e: Encoding, b: seq<Byte>, start: nat, end: nat) returns (s: seq<Unit>)
    requires start <= end <= |b|
    ensures s == e.OneShot(b[start..end])
  {
    match e
    case UTF8 =>
      s := DecodeUtf8(b, start, end);
      if start == end {
        assert b[start..end] == [];
        EmptyText();
      }
    case UTF16LE =>
      s := DecodeUtf16(b[start..end]);
    case BASE64 =>
      s := Base64(b[start..end]);
  }

  lemma Text64Is(t: seq<Byte>, r: nat, n: nat)
    requires r < |t| && n == (|t| - r) % 3
    ensures n <= |t| - r
    ensures Text64(t, r) == if n == 0 then (Base64(t[r..]), NOTHING) else (Base64(t[r..|t| - n]), Held(3 - n, 3, t[|t| - n..]))
  {
    hide Base64;
  }

  class Decoder {
    const encoding: Encoding
    const lastChar: array<Byte>
    var lastNeed: nat
    var lastTotal: nat

    /** On all inputs, malformed ones too: a pending character misses at least one byte and has at least one. */
    ghost predicate Valid()
      reads this
    {
      && lastChar.Length == encoding.Capacity()
      && (lastNeed > 0 ==> lastNeed < lastTotal <= lastChar.Length)
    }

    ghost function State(): (h: Held)
      requires Valid()
      reads this, lastChar
      ensures h.Valid(encoding)
    {
      if lastNeed == 0 then NOTHING else Held(lastNeed, lastTotal, lastChar[..lastTotal - lastNeed])
    }

    constructor (e: Encoding)
      ensures Valid() && encoding == e && State() == NOTHING && fresh(lastChar)
    {
      encoding := e;
      lastNeed, lastTotal := 0, 0;
      lastChar := new Byte[e.Capacity()];
    }

    /** Copies src into lastChar from `at` on. */
    method CopyToLast(at: nat, src: seq<Byte>)
      requires at + |src| <= lastChar.Length
      modifies lastChar
      ensures lastChar[..at + |src|] == old(lastChar[..at]) + src
    {
      var i := 0;
      while i < |src|
        invariant 0 <= i <= |src|
        invariant lastChar[..at] == old(lastChar[..at])
        invariant lastChar[at..at + i] == src[..i]
      {
        lastChar[at + i] := src[i];
        i := i + 1;
      }
      assert lastChar[..at + |src|] == lastChar[..at] + lastChar[at..at + |src|];
    }

    /** The continuation check before filling: on failure, lastNeed becomes the number of bytes consumed. */
    method ExtraBytes(t: seq<Byte>) returns (failed: bool)
      requires lastNeed > 0 && t != []
      modifies this`lastNeed
      ensures failed == CheckExtraBytes(old(lastNeed), t).Some?
      ensures lastNeed == if failed then CheckExtraBytes(old(lastNeed), t).value else old(lastNeed)
    {
      hide IsContinuation;
      if !IsContinuation(t[0]) {
        lastNeed := 0;
        return true;
      }
      if lastNeed > 1 && |t| > 1 {
        if !IsContinuation(t[1]) {
          lastNeed := 1;
          return true;
        }
        if lastNeed > 2 && |t| > 2 {
          if !IsContinuation(t[2]) {
            lastNeed := 2;
            return true;
          }
        }
      }
      return false;
    }

    /** `fillLast`. When it returns a string, lastNeed is how many bytes of t went into it. */
    method FillLast(t: seq<Byte>) returns (r: Option<seq<Unit>>)
      requires Valid() && lastNeed > 0 && t != []
      modifies this`lastNeed, lastChar
      ensures lastChar.Length == encoding.Capacity()
      ensures var f := LastFilled(encoding, old(State()), t);
              if r.Some? then f == Complete(r.value, lastNeed) else Valid() && f == Waiting(State())
    {
      hide CheckExtraBytes, Encoding.OneShot;
      ghost var h := State();
      var p := lastTotal - lastNeed;
      if encoding.UTF8? {
        var failed := ExtraBytes(t);
        if failed {
          return Some([REPLACEMENT]);
        }
      }
      if lastNeed <= |t| {
        CopyToLast(p, t[..lastNeed]);
        assert lastChar[..lastTotal] == h.bytes + t[..h.need];
        var text := ToString(encoding, lastChar[..], 0, lastTotal);
        assert lastChar[..][0..lastTotal] == lastChar[..lastTotal];
        return Some(text);
      }
      CopyToLast(p, t);
      lastNeed := lastNeed - |t|;
      return None;
    }

    /** `text`: nothing is held when it is called, and r is inside t. */
    method Text(t: seq<Byte>, r: nat) returns (s: seq<Unit>)
      requires Valid() && lastNeed == 0 && r < |t|
      modifies this`lastNeed, this`lastTotal, lastChar
      ensures Valid() && (s, State()) == TextSplit(encoding, t, r)
    {
      hide Text8, Text16, Text64;
      match encoding
      case UTF8 => s := Text8Of(t, r);
      case UTF16LE => s := Text16Of(t, r);
      case BASE64 => s := Text64Of(t, r);
    }

    method Text8Of(t: seq<Byte>, r: nat) returns (s: seq<Unit>)
      requires Valid() && lastNeed == 0 && r < |t| && encoding.UTF8?
      modifies this`lastNeed, this`lastTotal, lastChar
      ensures Valid() && (s, State()) == Text8(t, r)
    {
      hide CheckByte, CheckIncomplete, A;
      var (total, need) := CheckIncomplete(t, r);
      lastNeed := need;
      if lastNeed == 0 {
        s := DecodeUtf8(t, r, |t|);
        assert t[r..|t|] == t[r..];
      } else {
        lastTotal := total;
        var end := |t| - (total - lastNeed);
        CopyToLast(0, t[end..]);
        assert lastChar[..lastTotal - lastNeed] == t[end..];
        s := DecodeUtf8(t, r, end);
        if r == end {
          assert t[r..end] == [];
          EmptyText();
        }
      }
    }

    method Text16Of(t: seq<Byte>, r: nat) returns (s: seq<Unit>)
      requires Valid() && lastNeed == 0 && r < |t| && encoding.UTF16LE?
      modifies this`lastNeed, this`lastTotal, lastChar
      ensures Valid() && (s, State()) == Text16(t, r)
    {
      hide T;
      if (|t| - r) % 2 == 0 {
        s := DecodeUtf16(t[r..]);
        if s != [] {
          var c := s[|s| - 1];
          if 55296 <= c <= 56319 {
            lastNeed, lastTotal := 2, 4;
            lastChar[0], lastChar[1] := t[|t| - 2], t[|t| - 1];
            s := s[..|s| - 1];
            assert lastChar[..2] == t[|t| - 2..];
          }
        }
      } else {
        lastNeed, lastTotal := 1, 2;
        lastChar[0] := t[|t| - 1];
        assert lastChar[..1] == t[|t| - 1..];
        s := DecodeUtf16(t[r..|t| - 1]);
      }
    }

    method Text64Of(t: seq<Byte>, r: nat) returns (s: seq<Unit>)
      requires Valid() && lastNeed == 0 && r < |t| && encoding.BASE64?
      modifies this`lastNeed, this`lastTotal, lastChar
      ensures Valid() && (s, State()) == Text64(t, r)
    {
      hide Base64, Text64;
      var n := (|t| - r) % 3;
      Text64Is(t, r, n);
      if n == 0 {
        s := Base64(t[r..]);
      } else {
        lastNeed, lastTotal := 3 - n, 3;
        if n == 1 {
          lastChar[0] := t[|t| - 1];
          assert lastChar[..1] == t[|t| - 1..];
        } else {
          lastChar[0], lastChar[1] := t[|t| - 2], t[|t| - 1];
          assert lastChar[..2] == t[|t| - 2..];
        }
        s := Base64(t[r..|t| - n]);
      }
    }

    /** `write` */
    method Write(t: seq<Byte>) returns (s: seq<Unit>)
      requires Valid()
      modifies this`lastNeed, this`lastTotal, lastChar
      ensures Valid() && (s, State()) == Written(encoding, old(State()), t)
    {
      hide LastFilled, TextSplit, Encoding.Capacity;
      if |t| == 0 {
        return [];
      }
      var r := 0;
      s := [];
      if lastNeed > 0 {
        var filled := FillLast(t);
        if filled.None? {
          return [];
        }
        s := filled.value;
        r := lastNeed;
        lastNeed := 0;
      }
      if r < |t| {
        var rest := Text(t, r);
        assert [] + rest == rest;
        s := s + rest;
      }
    }

    /** `end`, with an optional last chunk. The held bytes stay; the caller is done with the decoder. */
    method End(t: seq<Byte>) returns (s: seq<Unit>)
      requires Valid()
      modifies this`lastNeed, this`lastTotal, lastChar
      ensures Valid()
      ensures var (out, h) := Written(encoding, old(State()), t);
              s == out + Flush(encoding, h) && State() == h
    {
      hide Encoding.OneShot, LastFilled, TextSplit;
      s := [];
      if |t| > 0 {
        s := Write(t);
      }
      if lastNeed > 0 {
        if encoding.UTF8? {
          s := s + [REPLACEMENT];
        } else {
          var held := ToString(encoding, lastChar[..], 0, lastTotal - lastNeed);
          assert lastChar[..][0..lastTotal - lastNeed] == lastChar[..lastTotal - lastNeed];
          s := s + held;
        }
      }
    }
  }

  /** A whole stream through the object: one `write` for each chunk, then `end`. */
  method DecodeStream(e: Encoding, chunks: seq<seq<Byte>>) returns (s: seq<Unit>)
    ensures s == Streamed(e, chunks)
  {
    hide Written, Flush;
    var d := new Decoder(e);
    s := [];
    var i := 0;
    while i < |chunks|
      invariant 0 <= i <= |chunks|
      invariant fresh(d) && fresh(d.lastChar) && d.encoding == e && d.Valid()
      invariant (s, d.State()) == Feed(e, chunks[..i])
    {
      assert chunks[..i + 1][..i] == chunks[..i];
      var more := d.Write(chunks[i]);
      s := s + more;
      i := i + 1;
    }
    assert chunks[..i] == chunks;
    ghost var h := d.State();
    var last := d.End([]);
    WritesNothing(e, h);
    s := s + last;
  }

  lemma WritesNothing(e: Encoding, h: Held)
    requires h.Valid(e)
    ensures Written(e, h, []) == ([], h)
  {
  }
}
