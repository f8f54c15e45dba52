/** What the streaming decoder of module 2553 makes of any bytes, well-formed or not: the one-shot decoding, but for
    how many U+FFFD stand in a row. */
module IllFormedText {
  import opened Bytes
  import opened Unicode
  import opened Utf8Decode
  import opened StringDecoder

  // ----- Strings up to the length of runs of U+FFFD -----

  /** s with every run of U+FFFD cut down to one. */
  function Collapse(s: seq<Unit>): (r: seq<Unit>)
    ensures s == [] <==> r == []
    ensures s != [] ==> r[0] == s[0]
  {
    if s == [] then []
    else if |s| >= 2 && s[0] == s[1] == REPLACEMENT then Collapse(s[1..])
    else [s[0]] + Collapse(s[1..])
  }

  /** Joins two collapsed strings. */
  function Glue(a: seq<Unit>, b: seq<Unit>): (r: seq<Unit>) {
    if a != [] && b != [] && a[|a| - 1] == b[0] == REPLACEMENT then a + b[1..] else a + b
  }

  lemma {:induction false} CollapseAppend(a: seq<Unit>, b: seq<Unit>)
    ensures Collapse(a + b) == Glue(Collapse(a), Collapse(b))
    decreases |a|
  {
    if a == [] {
      assert a + b == b;
    } else if |a| == 1 {
      assert (a + b)[1..] == b && Collapse(a) == a by { assert a[1..] == []; }
    } else {
      CollapseAppend(a[1..], b);
      assert (a + b)[1..] == a[1..] + b;
      if a[0] == a[1] == REPLACEMENT {
      } else {
        GlueBehind(a[0], Collapse(a[1..]), Collapse(b));
      }
    }
  }

  lemma GlueBehind(u: Unit, a: seq<Unit>, b: seq<Unit>)
    requires a != []
    ensures Glue([u] + a, b) == [u] + Glue(a, b)
  {
    assert ([u] + a)[|a|] == a[|a| - 1];
    if b != [] {
      assert [u] + (a + b[1..]) == [u] + a + b[1..];
    }
    assert [u] + (a + b) == [u] + a + b;
  }

  predicate Same(a: seq<Unit>, b: seq<Unit>) {
    Collapse(a) == Collapse(b)
  }

  lemma SameAppend(a: seq<Unit>, b: seq<Unit>, c: seq<Unit>, d: seq<Unit>)
    requires Same(a, b) && Same(c, d)
    ensures Same(a + c, b + d)
  {
    hide Collapse, Glue;
    CollapseAppend(a, c);
    CollapseAppend(b, d);
  }

  lemma {:induction false} ReplacementsCollapse(n: nat)
    requires n > 0
    ensures Same([REPLACEMENT], Replacements(n))
  {
    if n > 1 {
      ReplacementsCollapse(n - 1);
      var s := Replacements(n);
      assert s[1..] == Replacements(n - 1) && s[1] == REPLACEMENT;
    }
  }

  // ----- Where the one-shot decoder can be cut -----

  /** b begins a character that needs more bytes: a byte that announces so many, and continuation bytes. */
  predicate Begun(b: seq<Byte>, total: nat) {
    && b != [] && CheckByte(b[0]) == total && |b| < total <= 4
    && (forall i :: 1 <= i < |b| ==> IsTail(b[i]))
  }

  /** A character that reaches from b into y. */
  lemma Crossing(b: seq<Byte>, y: seq<Byte>)
    requires b != [] && CharLength(b + y) > |b|
    ensures Begun(b, CharLength(b + y)) && y != [] && IsTail(y[0])
  {
    CharShape(b + y);
    var z := b + y;
    assert z[0] == b[0] && z[|b|] == y[0];
    assert forall i :: 1 <= i < |b| ==> IsTail(z[i]) && z[i] == b[i];
    hide CharLength, CheckByte, IsTail;
  }

  /** What is read at the start of b does not depend on what follows, unless a character reaches into it. */
  lemma StepStays(b: seq<Byte>, y: seq<Byte>)
    requires b != [] && CharLength(b + y) <= |b|
    ensures Step(b + y) == Step(b)
  {
    hide Accepted, CharLength, Announced;
    AcceptedIsChar(b);
    AcceptedIsChar(b + y);
    var n := CharLength(b + y);
    if n > 0 {
      CharLengthOfPrefix(b + y, b);
      assert (b + y)[..n] == b[..n];
      Injective(Accepted(b).value, Accepted(b + y).value);
    } else if CharLength(b) > 0 {
      CharLengthExtends(b, y);
    }
  }

  /** No character reaches from x into y. */
  ghost predicate NothingCrosses(x: seq<Byte>, y: seq<Byte>) {
    forall i :: 0 <= i < |x| ==> CharLength(x[i..] + y) <= |x| - i
  }

  lemma {:induction false} DecodedApart(x: seq<Byte>, y: seq<Byte>)
    requires NothingCrosses(x, y)
    ensures Decoded(x + y) == Decoded(x) + Decoded(y)
    decreases |x|
  {
    hide Step, CharLength;
    if x == [] {
      assert x + y == y;
    } else {
      assert x[0..] == x;
      StepStays(x, y);
      var n := Step(x).1;
      assert (x + y)[n..] == x[n..] + y;
      forall i | 0 <= i < |x[n..]| ensures CharLength(x[n..][i..] + y) <= |x[n..]| - i {
        assert x[n..][i..] == x[n + i..];
      }
      DecodedApart(x[n..], y);
    }
  }

  lemma DecodesApart(x: seq<Byte>, y: seq<Byte>)
    requires NothingCrosses(x, y)
    ensures A(x + y) == A(x) + A(y)
  {
    hide Decoded, NothingCrosses;
    DecodedApart(x, y);
    Utf16Append(Decoded(x), Decoded(y));
  }

  /** A byte that is no continuation byte is always a place to cut. */
  lemma BeforeNoTail(x: seq<Byte>, y: seq<Byte>)
    requires y == [] || !IsTail(y[0])
    ensures A(x + y) == A(x) + A(y)
  {
    hide CharLength, IsTail, A;
    forall i | 0 <= i < |x| ensures CharLength(x[i..] + y) <= |x| - i {
      if CharLength(x[i..] + y) > |x| - i {
        Crossing(x[i..], y);
      }
    }
    DecodesApart(x, y);
  }

  /** Whatever follows x, it is decoded on its own. */
  ghost predicate EndsWhole(x: seq<Byte>) {
    forall y: seq<Byte> :: A(x + y) == A(x) + A(y)
  }

  /** No beginning of a character at the end. */
  ghost predicate NothingBegun(z: seq<Byte>) {
    forall i, total: nat :: 0 <= i < |z| ==> !Begun(z[i..], total)
  }

  lemma NothingBegunEndsWhole(z: seq<Byte>)
    requires NothingBegun(z)
    ensures EndsWhole(z)
  {
    hide CharLength, A, Begun;
    forall y: seq<Byte> ensures A(z + y) == A(z) + A(y) {
      forall i | 0 <= i < |z| ensures CharLength(z[i..] + y) <= |z| - i {
        if CharLength(z[i..] + y) > |z| - i {
          Crossing(z[i..], y);
        }
      }
      DecodesApart(z, y);
    }
  }

  lemma EndsWholeAppend(x: seq<Byte>, z: seq<Byte>)
    requires EndsWhole(z)
    requires forall y: seq<Byte> :: A(x + (z + y)) == A(x) + A(z + y)
    ensures EndsWhole(x + z) && A(x + z) == A(x) + A(z)
  {
    hide A;
    assert z + [] == z;
    forall y: seq<Byte> ensures A(x + z + y) == A(x + z) + A(y) {
      assert x + z + y == x + (z + y);
      assert A(z + y) == A(z) + A(y);
    }
  }

  // ----- What `text` reports -----

  /** If `text` finds nothing to hold back, no character has begun at the end. */
  lemma NothingReported(z: seq<Byte>)
    requires z != [] && CheckIncomplete(z, 0).1 == 0
    ensures NothingBegun(z)
  {
    hide CheckByte, CheckIncomplete, IsTail;
    forall i, total: nat | 0 <= i < |z| ensures !Begun(z[i..], total) {
      if Begun(z[i..], total) {
        var p := z[i..];
        assert z == z[..i] + p;
        TailsAreMinusOne(p);
        CheckByteValues(p[0]);
        LooksBack(z[..i], p, total);
      }
    }
  }

  lemma CheckByteValues(b: Byte)
    ensures -2 <= CheckByte(b) <= 4 && CheckByte(b) != 1
    ensures CheckByte(b) == -1 <==> IsTail(b)
    ensures CheckByte(b) > 0 ==> Announced(b) == CheckByte(b)
  {
  }

  /** What it holds back is the beginning of a character. */
  lemma ReportedIsBegun(z: seq<Byte>)
    requires z != [] && CheckIncomplete(z, 0).1 > 0
    ensures var (total, need) := CheckIncomplete(z, 0);
            Begun(z[|z| - (total - need)..], total)
  {
    hide CheckByte, IsTail;
    var n := |z| - 1;
    CheckByteValues(z[n]);
    if CheckByte(z[n]) >= 0 {
    } else {
      CheckByteValues(z[n - 1]);
      assert z[n - 1..][1] == z[n];
      if CheckByte(z[n - 1]) < 0 {
        CheckByteValues(z[n - 2]);
        var p := z[n - 2..];
        assert |p| == 3 && p[0] == z[n - 2] && p[1] == z[n - 1] && p[2] == z[n];
      }
    }
  }

  /** `text` decodes a front part; what it holds back, if anything, is the beginning of a character. */
  lemma TextSplits(z: seq<Byte>)
    requires z != []
    ensures var (s, held) := Text8(z, 0);
            && |held.bytes| <= |z| && z == z[..|z| - |held.bytes|] + held.bytes
            && s == A(z[..|z| - |held.bytes|])
            && (held.need == 0 ==> EndsWhole(z))
            && (held.need > 0 ==> Begun(held.bytes, held.total))
  {
    hide A, CheckIncomplete, Begun, EndsWhole, NothingBegun;
    var (total, need) := CheckIncomplete(z, 0);
    assert z[0..] == z == z[..|z|];
    if need == 0 {
      NothingReported(z);
      NothingBegunEndsWhole(z);
    } else {
      ReportedIsBegun(z);
      var n := |z| - (total - need);
      assert z[0..n] == z[..n] && z == z[..n] + z[n..];
    }
  }

  // ----- The state of the decoder -----

  /** The output stands for the bytes before those held, where the one-shot decoder can be cut. */
  ghost predicate Stands(seen: seq<Byte>, out: seq<Unit>, h: Held) {
    && |h.bytes| <= |seen| && seen[|seen| - |h.bytes|..] == h.bytes
    && Same(out, A(seen[..|seen| - |h.bytes|]))
    && (if h.need > 0 then Begun(h.bytes, h.total) else h == NOTHING && EndsWhole(seen))
  }

  lemma StandsNow(done: seq<Byte>, out: seq<Unit>, h: Held)
    requires Same(out, A(done))
    requires if h.need > 0 then Begun(h.bytes, h.total) else h == NOTHING && EndsWhole(done)
    ensures Stands(done + h.bytes, out, h)
  {
    hide A, Same, Begun, EndsWhole;
    var seen := done + h.bytes;
    assert seen[|seen| - |h.bytes|..] == h.bytes && seen[..|seen| - |h.bytes|] == done;
    assert h.bytes == [] ==> seen == done;
  }

  /** A lead byte is no continuation byte. */
  lemma BegunHasLead(h: seq<Byte>, total: nat)
    requires Begun(h, total)
    ensures !IsTail(h[0])
  {
    CheckByteValues(h[0]);
  }

  /** Going on with a piece z, at a place where the one-shot decoder can be cut before it. */
  lemma TextStands(done: seq<Byte>, out: seq<Unit>, z: seq<Byte>)
    requires z != [] && Same(out, A(done))
    requires EndsWhole(done) || !IsTail(z[0])
    ensures var (s, held) := Text8(z, 0);
            Stands(done + z, out + s, held)
  {
    hide A, Text8, Same, Begun, EndsWhole, IsTail, Stands;
    TextSplits(z);
    var (s, held) := Text8(z, 0);
    var v := z[..|z| - |held.bytes|];
    CutsBefore(done, v, z);
    SameItself(s);
    SameAppend(out, A(done), s, A(v));
    if held.need == 0 {
      assert v == z;
      WholeBehind(done, z);
      StandsNow(done + z, out + s, held);
      assert done + z + [] == done + z;
    } else {
      StandsNow(done + v, out + s, held);
      assert done + v + held.bytes == done + z;
    }
  }

  lemma SameItself(s: seq<Unit>)
    ensures Same(s, s)
  {
  }

  /** The cut before z is one before any beginning of z. */
  lemma CutsBefore(done: seq<Byte>, v: seq<Byte>, z: seq<Byte>)
    requires v <= z && z != []
    requires EndsWhole(done) || !IsTail(z[0])
    ensures A(done + v) == A(done) + A(v)
  {
    hide A, IsTail;
    if !EndsWhole(done) {
      BeforeNoTail(done, v);
    }
  }

  lemma WholeBehind(done: seq<Byte>, z: seq<Byte>)
    requires z != [] && EndsWhole(z)
    requires EndsWhole(done) || !IsTail(z[0])
    ensures EndsWhole(done + z)
  {
    hide A, IsTail;
    forall y: seq<Byte> ensures A(done + (z + y)) == A(done) + A(z + y) {
      CutsBefore(done, z + y, z + y);
    }
    EndsWholeAppend(done, z);
  }

  // ----- Filling up a character -----

  /** The bytes of an unfinished character, read in one shot, are replaced one by one. */
  lemma BegunDecodes(c: seq<Byte>, total: nat)
    requires Begun(c, total)
    ensures A(c) == Replacements(|c|)
  {
    hide Accepted, Replacements, IsContinuation;
    CheckByteValues(c[0]);
    AcceptedIsChar(c);
    assert CharLength(c) == 0 by {
      if CharLength(c) > 0 { CharShape(c); }
    }
    TailsDecode(c[1..]);
    OneMore(c);
    ReplacementsStep(|c|);
  }

  lemma ReplacementsStep(n: nat)
    requires n > 0
    ensures Replacements(n) == Utf16Char(REPLACEMENT) + Replacements(n - 1)
  {
  }

  /** With all announced bytes there, accepted or not, nothing has begun. */
  lemma FullEndsWhole(c: seq<Byte>)
    requires c != [] && CheckByte(c[0]) == |c| > 0
    requires forall i :: 1 <= i < |c| ==> IsTail(c[i])
    ensures EndsWhole(c)
  {
    hide CheckByte, IsTail, EndsWhole;
    forall i, total: nat | 0 <= i < |c| ensures !Begun(c[i..], total) {
      CheckByteValues(c[i]);
      if i == 0 {
        assert c[0..] == c;
      }
    }
    NothingBegunEndsWhole(c);
  }

  /** The continuation check fails exactly at the first byte among those needed that is no continuation byte. */
  lemma FailsAt(need: nat, t: seq<Byte>)
    requires 0 < need <= 3 && t != []
    ensures match CheckExtraBytes(need, t)
            case None => forall j :: 0 <= j < need && j < |t| ==> IsTail(t[j])
            case Some(i) => i < need && (forall j :: 0 <= j < i ==> IsTail(t[j])) && !IsTail(t[i])
  {
    hide IsContinuation, IsTail;
    ContinuationIsTail(t[0]);
    if |t| > 1 { ContinuationIsTail(t[1]); }
    if |t| > 2 { ContinuationIsTail(t[2]); }
  }

  /** More continuation bytes behind the beginning of a character. */
  lemma BegunGrows(h: seq<Byte>, total: nat, t: seq<Byte>)
    requires Begun(h, total) && |h| + |t| <= total
    requires forall j :: 0 <= j < |t| ==> IsTail(t[j])
    ensures var c := h + t;
            && CheckByte(c[0]) == total && (forall i :: 1 <= i < |c| ==> IsTail(c[i]))
            && (|c| < total ==> Begun(c, total))
  {
    hide IsTail, CheckByte;
  }

  /** A character given up: one U+FFFD, and the rest of the chunk begins with no continuation byte. */
  lemma GivenUp(done: seq<Byte>, out: seq<Unit>, h: Held, t: seq<Byte>, i: nat)
    requires h.Valid(UTF8) && h.need > 0 && Begun(h.bytes, h.total) && Same(out, A(done))
    requires i < |t| && i < h.need && (forall j :: 0 <= j < i ==> IsTail(t[j])) && !IsTail(t[i])
    ensures var (s, held) := Text8(t[i..], 0);
            Stands(done + h.bytes + t, out + [REPLACEMENT] + s, held)
  {
    hide A, Same, Text8, IsTail, Stands, Begun, CheckByte;
    var c := h.bytes + t[..i];
    BegunGrows(h.bytes, h.total, t[..i]);
    BegunHasLead(h.bytes, h.total);
    BeforeNoTail(done, c);
    BegunDecodes(c, h.total);
    ReplacementsCollapse(|c|);
    SameAppend(out, A(done), [REPLACEMENT], A(c));
    TextStands(done + c, out + [REPLACEMENT], t[i..]);
    assert done + h.bytes + t == done + c + t[i..] by { assert t == t[..i] + t[i..]; }
  }

  /** However much of a character is given up, it gives one U+FFFD, and what follows is decoded as by a new decoder. */
  lemma GivenUpOnce(h: Held, t: seq<Byte>, i: nat)
    requires h.Valid(UTF8) && h.need > 0 && i < |t| && i < h.need
    requires (forall j :: 0 <= j < i ==> IsTail(t[j])) && !IsTail(t[i])
    ensures var (out, held) := Written(UTF8, NOTHING, t[i..]);
            Written(UTF8, h, t) == ([REPLACEMENT] + out, held)
  {
    hide Text8, IsTail;
    FailsAt(h.need, t);
    Text8OfSlice(t, i);
    hide CheckExtraBytes;
  }

  /** At the end, too, what is held gives one U+FFFD. */
  lemma FlushedOnce(chunks: seq<seq<Byte>>)
    ensures var (out, h) := Feed(UTF8, chunks);
            Streamed(UTF8, chunks) == if h == NOTHING then out else out + [REPLACEMENT]
  {
    hide Written, Concat;
  }

  /** A character completed, or at least all its bytes: they are decoded as in one shot. */
  lemma Completed(done: seq<Byte>, out: seq<Unit>, h: Held, t: seq<Byte>)
    requires h.Valid(UTF8) && h.need > 0 && Begun(h.bytes, h.total) && Same(out, A(done))
    requires h.need <= |t| && forall j :: 0 <= j < h.need ==> IsTail(t[j])
    ensures var c := h.bytes + t[..h.need];
            && Same(out + A(c), A(done + c)) && EndsWhole(done + c)
            && done + h.bytes + t == done + c + t[h.need..]
  {
    hide A, Same, IsTail, CheckByte, EndsWhole;
    var c := h.bytes + t[..h.need];
    BegunHasLead(h.bytes, h.total);
    BegunGrows(h.bytes, h.total, t[..h.need]);
    BeforeNoTail(done, c);
    SameItself(A(c));
    SameAppend(out, A(done), A(c), A(c));
    FullEndsWhole(c);
    WholeBehind(done, c);
    assert t == t[..h.need] + t[h.need..];
    hide Begun;
  }

  lemma FillStands(done: seq<Byte>, out: seq<Unit>, h: Held, t: seq<Byte>)
    requires h.Valid(UTF8) && h.need > 0 && Begun(h.bytes, h.total) && Same(out, A(done)) && t != []
    ensures var (more, held) := Written(UTF8, h, t);
            Stands(done + h.bytes + t, out + more, held)
  {
    hide A, Same, IsTail, Stands, Begun, CheckByte, EndsWhole, Text8, CheckExtraBytes;
    FailsAt(h.need, t);
    match CheckExtraBytes(h.need, t)
    case Some(i) =>
      Text8OfSlice(t, i);
      GivenUp(done, out, h, t, i);
      var (s, held) := Text8(t[i..], 0);
      assert out + ([REPLACEMENT] + s) == out + [REPLACEMENT] + s;
    case None =>
      if h.need <= |t| {
        Completed(done, out, h, t);
        var c := h.bytes + t[..h.need];
        if h.need < |t| {
          Text8OfSlice(t, h.need);
          TextStands(done + c, out + A(c), t[h.need..]);
          var (s, held) := Text8(t[h.need..], 0);
          assert out + (A(c) + s) == out + A(c) + s;
        } else {
          StandsNow(done + c, out + A(c), NOTHING);
          assert done + c + [] == done + c && t[h.need..] == [];
        }
      } else {
        BegunGrows(h.bytes, h.total, t);
        var held := Held(h.need - |t|, h.total, h.bytes + t);
        StandsNow(done, out, held);
        assert out + [] == out && done + (h.bytes + t) == done + h.bytes + t;
      }
  }

  /** One `write`. */
  lemma WriteStands(seen: seq<Byte>, out: seq<Unit>, h: Held, t: seq<Byte>)
    requires h.Valid(UTF8) && Stands(seen, out, h)
    ensures var (more, held) := Written(UTF8, h, t);
            Stands(seen + t, out + more, held)
  {
    hide A, Same, Text8, EndsWhole, Begun;
    var done := seen[..|seen| - |h.bytes|];
    assert seen == done + h.bytes;
    if t == [] {
      assert seen + t == seen && out + [] == out;
    } else if h.need > 0 {
      FillStands(done, out, h, t);
    } else {
      assert done == seen;
      TextStands(seen, out, t);
    }
  }

  lemma {:induction false} FeedStands(chunks: seq<seq<Byte>>)
    ensures Stands(Concat(chunks), Feed(UTF8, chunks).0, Feed(UTF8, chunks).1)
  {
    hide A, Written, Stands, EndsWhole;
    if chunks == [] {
      NothingYet();
    } else {
      var before, last := chunks[..|chunks| - 1], chunks[|chunks| - 1];
      FeedStands(before);
      WriteStands(Concat(before), Feed(UTF8, before).0, Feed(UTF8, before).1, last);
    }
  }

  lemma NothingYet()
    ensures Stands([], [], NOTHING)
  {
    EmptyText();
    hide A;
    forall y: seq<Byte> ensures A([] + y) == A([]) + A(y) {
      assert [] + y == y;
    }
  }

  /** For any bytes and any chunks, the stream with its `end` is the one-shot decoding up to the length of runs of
      U+FFFD. */
  lemma StreamedUpToRuns(chunks: seq<seq<Byte>>)
    ensures Collapse(Streamed(UTF8, chunks)) == Collapse(A(Concat(chunks)))
  {
    hide A, Feed, Concat, Collapse, EndsWhole, Begun;
    FeedStands(chunks);
    var seen := Concat(chunks);
    var (out, h) := Feed(UTF8, chunks);
    var done := seen[..|seen| - |h.bytes|];
    assert seen == done + h.bytes;
    if h.need > 0 {
      BegunHasLead(h.bytes, h.total);
      BeforeNoTail(done, h.bytes);
      BegunDecodes(h.bytes, h.total);
      ReplacementsCollapse(|h.bytes|);
      SameAppend(out, A(done), [REPLACEMENT], A(h.bytes));
    } else {
      assert out + [] == out && done == seen;
    }
  }
}
