/** Module 8764, function `H`: encoding a string as UTF-8, within a budget of bytes. */
module Utf8Encode {
  import opened JsNumbers
  import opened Bytes
  import opened Unicode
  import opened Utf8Codec
  import opened Utf8Decode
  import opened Optional

  const MARK: seq<Byte> := [239, 191, 189]

  /** What `H` pushes for one code unit, and the surrogate it holds afterwards, when it holds `lead` before. */
  function Push(r: Unit, lead: Option<Unit>, isLast: bool): (p: (seq<seq<Byte>>, Option<Unit>))
    requires lead.Some? ==> IsLead(lead.value)
    ensures p.1.Some? ==> IsLead(p.1.value)
  {
    if r > 55295 && r < 57344 then
      if lead.None? then
        if r > 56319 || isLast then ([MARK], None) else ([], Some(r))
      else if r < 56320 then ([MARK], Some(r))
      else ([Encoded(JoinPair(lead.value, r))], None)
    else if lead.Some? then ([MARK, Encoded(r)], None)
    else ([Encoded(r)], None)
  }

  /** What `H` pushes for s, one element per push, when `lead` is the surrogate it is holding. */
  function Pushes(s: seq<Unit>, lead: Option<Unit>): (p: seq<seq<Byte>>)
    requires lead.Some? ==> IsLead(lead.value)
  {
    if s == [] then []
    else
      var (now, next) := Push(s[0], lead, |s| == 1);
      now + Pushes(s[1..], next)
  }

  lemma UnfoldOnce(s: seq<Unit>, lead: Option<Unit>)
    requires s != [] && (lead.Some? ==> IsLead(lead.value))
    ensures var (now, next) := Push(s[0], lead, |s| == 1);
            Pushes(s, lead) == now + Pushes(s[1..], next)
  {
    hide Push;
  }

  lemma UnfoldSurrogate(s: seq<Unit>, lead: Option<Unit>)
    requires s != [] && (lead.Some? ==> IsLead(lead.value)) && s[0] > 55295 && s[0] < 57344
    ensures var r, p := s[0], Pushes(s, lead);
            if lead.None? then
              if r > 56319 || |s| == 1 then p == [MARK] + Pushes(s[1..], None) else p == Pushes(s[1..], Some(r))
            else if r < 56320 then p == [MARK] + Pushes(s[1..], Some(r))
            else p == [Encoded(JoinPair(lead.value, r))] + Pushes(s[1..], None)
  {
    hide Encoded, JoinPair, Pushes;
    UnfoldOnce(s, lead);
    if lead.None? {
      if s[0] > 56319 || |s| == 1 {
      } else {
      }
    } else if s[0] < 56320 {
    } else {
    }
  }

  lemma UnfoldOther(s: seq<Unit>, lead: Option<Unit>)
    requires s != [] && (lead.Some? ==> IsLead(lead.value)) && !(s[0] > 55295 && s[0] < 57344)
    ensures var r, p := s[0], Pushes(s, lead);
            if lead.Some? then p == [MARK] + ([Encoded(r)] + Pushes(s[1..], None))
            else p == [Encoded(r)] + Pushes(s[1..], None)
  {
    hide Encoded, JoinPair, Pushes;
    UnfoldOnce(s, lead);
    if lead.Some? {
      assert [MARK, Encoded(s[0])] + Pushes(s[1..], None) == [MARK] + ([Encoded(s[0])] + Pushes(s[1..], None));
    }
  }

  /** One step of Pushes. */
  lemma Unfold(s: seq<Unit>, lead: Option<Unit>)
    requires s != [] && (lead.Some? ==> IsLead(lead.value))
    ensures var r, p := s[0], Pushes(s, lead);
            if r > 55295 && r < 57344 then
              if lead.None? then
                if r > 56319 || |s| == 1 then p == [MARK] + Pushes(s[1..], None) else p == Pushes(s[1..], Some(r))
              else if r < 56320 then p == [MARK] + Pushes(s[1..], Some(r))
              else p == [Encoded(JoinPair(lead.value, r))] + Pushes(s[1..], None)
            else if lead.Some? then p == [MARK] + ([Encoded(r)] + Pushes(s[1..], None))
            else p == [Encoded(r)] + Pushes(s[1..], None)
  {
    hide Encoded, JoinPair, Pushes;
    if s[0] > 55295 && s[0] < 57344 {
      UnfoldSurrogate(s, lead);
    } else {
      UnfoldOther(s, lead);
    }
  }

  function Total(p: seq<seq<Byte>>): (n: nat) {
    if p == [] then 0 else |p[0]| + Total(p[1..])
  }

  function Flatten(p: seq<seq<Byte>>): (b: seq<Byte>)
    ensures |b| == Total(p)
  {
    if p == [] then [] else p[0] + Flatten(p[1..])
  }

  /** The longest run of pushes that fits into a budget of t bytes. */
  function Fit(p: seq<seq<Byte>>, t: int): (b: seq<Byte>)
  {
    if p == [] || |p[0]| > t then [] else p[0] + Fit(p[1..], t - |p[0]|)
  }

  lemma {:induction false} FitsWhole(p: seq<seq<Byte>>, t: int)
    ensures Total(p) <= t ==> Fit(p, t) == Flatten(p)
  {
    if p == [] {
    } else {
      FitsWhole(p[1..], t - |p[0]|);
    }
  }

  /** A budget never cuts a character: what fits is the bytes of the first k pushes, within the budget, and
      one more push would not fit. */
  lemma {:induction false} FitIsMaximal(p: seq<seq<Byte>>, t: nat) returns (k: nat)
    ensures k <= |p| && Fit(p, t) == Flatten(p[..k])
    ensures Total(p[..k]) <= t
    ensures k < |p| ==> Total(p[..k]) + |p[k]| > t
  {
    if p == [] || |p[0]| > t {
      k := 0;
    } else {
      var j := FitIsMaximal(p[1..], t - |p[0]|);
      k := j + 1;
      assert p[..k][1..] == p[1..][..j];
    }
  }

  /** `H` without a budget. */
  function H(s: seq<Unit>): (b: seq<Byte>)
  {
    Flatten(Pushes(s, None))
  }

  /** `t || 1/0`: no limit, and a limit of 0, are infinite. */
  function Bound(limit: Option<nat>): (t: Option<nat>) {
    if limit == Some(0) then None else limit
  }

  /** `H` with a limit. */
  function Limited(s: seq<Unit>, limit: Option<nat>): (b: seq<Byte>) {
    match Bound(limit)
    case None => H(s)
    case Some(t) => Fit(Pushes(s, None), t)
  }

  /** A limit of 0 does not limit anything: one character is written in spite of it. */
  lemma ZeroIsNoLimit()
    ensures Limited([0x78], Some(0)) == [120]
  {
    var s: seq<Unit> := [0x78];
    assert s[1..] == [];
    Unfold(s, None);
    assert Pushes(s, None) == [[120]];
    assert [[120 as Byte]][1..] == [];
  }

  /** The result stays within a given limit exactly when the limit is not 0 or there is nothing to write. */
  lemma WithinExactlyWhen(s: seq<Unit>, t: nat)
    ensures |Limited(s, Some(t))| <= t <==> t > 0 || s == []
  {
    if t > 0 {
      FitStaysWithin(Pushes(s, None), t);
    } else if s != [] {
      SomethingIsPushed(s, None);
    }
  }

  lemma {:induction false} FitStaysWithin(p: seq<seq<Byte>>, t: nat)
    ensures |Fit(p, t)| <= t
  {
    if p == [] || |p[0]| > t {
    } else {
      FitStaysWithin(p[1..], t - |p[0]|);
    }
  }

  /** Whatever is held, every string makes a byte. */
  lemma SomethingIsPushed(s: seq<Unit>, lead: Option<Unit>)
    requires s != [] && (lead.Some? ==> IsLead(lead.value))
    ensures Total(Pushes(s, lead)) > 0
    decreases |s|
  {
    hide Encoded, JoinPair, Pushes;
    Unfold(s, lead);
    var r, rest := s[0], s[1..];
    if r > 55295 && r < 57344 && lead.None? && r <= 56319 && |s| > 1 {
      SomethingIsPushed(rest, Some(r));
    } else {
      TotalOfFirst(Pushes(s, lead));
      if !(r > 55295 && r < 57344) {
        EncodedIsNotEmpty(r);
      } else if lead.Some? && r >= 56320 {
        EncodedIsNotEmpty(JoinPair(lead.value, r));
      }
    }
  }

  lemma TotalOfFirst(p: seq<seq<Byte>>)
    ensures p != [] && p[0] != [] ==> Total(p) > 0
  {
  }

  lemma EncodedIsNotEmpty(r: Scalar)
    ensures Encoded(r) != []
  {
    hide Encoded;
  }

  // ----- Against the Unicode definitions -----

  function Chars(cs: seq<Scalar>): (p: seq<seq<Byte>>)
    ensures |p| == |cs|
  {
    if cs == [] then [] else [Utf8Char(cs[0])] + Chars(cs[1..])
  }

  lemma {:induction false} FlattenChars(cs: seq<Scalar>)
    ensures Flatten(Chars(cs)) == Utf8(cs)
  {
    if cs == [] {
    } else {
      FlattenChars(cs[1..]);
    }
  }

  predicate EndsWithLead(s: seq<Unit>) {
    s != [] && IsLead(s[|s| - 1])
  }

  /** The last two units are both lead surrogates. */
  predicate EndsWithTwoLeads(s: seq<Unit>) {
    |s| >= 2 && IsLead(s[|s| - 1]) && IsLead(s[|s| - 2])
  }

  function DropLast<T>(p: seq<T>, drop: bool): (q: seq<T>) {
    if drop && p != [] then p[..|p| - 1] else p
  }

  /** While a lead surrogate is held, the pushes are the characters of it and the rest, except that a lead
      surrogate still held at the end is never pushed. */
  lemma {:induction false} PushesHolding(s: seq<Unit>, lead: Unit)
    requires IsLead(lead)
    ensures Pushes(s, Some(lead)) == DropLast(Chars(Scalars([lead] + s)), s == [] || EndsWithTwoLeads([lead] + s))
    decreases |s|, 0
  {
    if s == [] {
      assert ([lead] + s)[1..] == [];
      assert Scalars([lead] + s) == [REPLACEMENT] + Scalars([]);
      MarkIsReplacement();
    } else if IsLead(s[0]) {
      PushesHolding(s[1..], s[0]);
      assert s == [s[0]] + s[1..];
      HoldingThenLead(s, lead);
    } else {
      PushesFree(s[1..]);
      if IsTrail(s[0]) {
        HoldingThenTrail(s, lead);
      } else {
        HoldingThenOther(s, lead);
      }
    }
  }

  lemma HoldingThenLead(s: seq<Unit>, lead: Unit)
    requires IsLead(lead) && s != [] && IsLead(s[0])
    requires Pushes(s[1..], Some(s[0])) == DropLast(Chars(Scalars(s)), s[1..] == [] || EndsWithTwoLeads(s))
    ensures Pushes(s, Some(lead)) == DropLast(Chars(Scalars([lead] + s)), s == [] || EndsWithTwoLeads([lead] + s))
  {
    hide Utf8Char, Encoded, DropLast;
    var whole := [lead] + s;
    assert whole[1..] == s;
    MarkIsReplacement();
    assert Scalars(whole) == [REPLACEMENT] + Scalars(s);
    ConsDrop(MARK, Chars(Scalars(s)), s[1..] == [] || EndsWithTwoLeads(s));
  }

  lemma HoldingThenTrail(s: seq<Unit>, lead: Unit)
    requires IsLead(lead) && s != [] && IsTrail(s[0])
    requires Pushes(s[1..], None) == DropLast(Chars(Scalars(s[1..])), EndsWithTwoLeads(s[1..]))
    ensures Pushes(s, Some(lead)) == DropLast(Chars(Scalars([lead] + s)), s == [] || EndsWithTwoLeads([lead] + s))
  {
    hide Utf8Char, Encoded, DropLast, PairValue, JoinPair;
    var whole, rest := [lead] + s, s[1..];
    assert whole[2..] == rest;
    assert EndsWithTwoLeads(whole) == EndsWithTwoLeads(rest);
    TwoLeadsHaveScalars(rest);
    ConsDrop(Utf8Char(PairValue(lead, s[0])), Chars(Scalars(rest)), EndsWithTwoLeads(rest));
  }

  lemma HoldingThenOther(s: seq<Unit>, lead: Unit)
    requires IsLead(lead) && s != [] && !IsTrail(s[0]) && !IsLead(s[0])
    requires Pushes(s[1..], None) == DropLast(Chars(Scalars(s[1..])), EndsWithTwoLeads(s[1..]))
    ensures Pushes(s, Some(lead)) == DropLast(Chars(Scalars([lead] + s)), s == [] || EndsWithTwoLeads([lead] + s))
  {
    hide Utf8Char, Encoded, DropLast, Pushes, JoinPair, PairValue, Scalars, EndsWithTwoLeads, Chars;
    var whole, r, rest := [lead] + s, s[0], s[1..];
    assert whole[1..] == s;
    var drop, tail := EndsWithTwoLeads(rest), Chars(Scalars(rest));
    Unfold(s, Some(lead));
    LoneLeadThenOther(whole);
    TwoLeadsHaveScalars(rest);
    MarkIsReplacement();
    ConsDrop(Utf8Char(r), tail, drop);
    ConsDrop(MARK, [Utf8Char(r)] + tail, drop);
  }

  lemma LoneLeadThenOther(whole: seq<Unit>)
    requires |whole| >= 2 && IsLead(whole[0]) && !IsTrail(whole[1]) && !IsLead(whole[1])
    ensures EndsWithTwoLeads(whole) == EndsWithTwoLeads(whole[1..][1..])
    ensures Chars(Scalars(whole)) == [Utf8Char(REPLACEMENT)] + ([Utf8Char(whole[1])] + Chars(Scalars(whole[1..][1..])))
  {
    hide Utf8Char;
    var s := whole[1..];
    var rest := s[1..];
    assert Scalars(whole) == [REPLACEMENT] + Scalars(s) && Scalars(s) == [whole[1]] + Scalars(rest);
    CharsFirst(REPLACEMENT, Scalars(s));
    CharsFirst(whole[1], Scalars(rest));
  }

  lemma CharsFirst(c: Scalar, cs: seq<Scalar>)
    ensures Chars([c] + cs) == [Utf8Char(c)] + Chars(cs)
  {
    hide Utf8Char;
    assert ([c] + cs)[1..] == cs;
  }

  lemma MarkIsReplacement()
    ensures Utf8Char(REPLACEMENT) == MARK
  {
  }

  lemma TwoLeadsHaveScalars(s: seq<Unit>)
    ensures EndsWithTwoLeads(s) ==> Chars(Scalars(s)) != []
  {
  }

  lemma ConsDrop<T>(x: T, p: seq<T>, drop: bool)
    requires drop ==> p != []
    ensures [x] + DropLast(p, drop) == DropLast([x] + p, drop)
  {
  }

  lemma {:induction false} PushesFree(s: seq<Unit>)
    ensures Pushes(s, None) == DropLast(Chars(Scalars(s)), EndsWithTwoLeads(s))
    decreases |s|, 1
  {
    if s == [] {
    } else if !IsLead(s[0]) {
      PushesFree(s[1..]);
      FreeStep(s);
    } else if |s| == 1 {
      MarkIsReplacement();
      assert Scalars(s) == [REPLACEMENT] + Scalars([]);
    } else {
      PushesHolding(s[1..], s[0]);
      assert s == [s[0]] + s[1..];
    }
  }

  lemma FreeStep(s: seq<Unit>)
    requires s != [] && !IsLead(s[0])
    requires Pushes(s[1..], None) == DropLast(Chars(Scalars(s[1..])), EndsWithTwoLeads(s[1..]))
    ensures Pushes(s, None) == DropLast(Chars(Scalars(s)), EndsWithTwoLeads(s))
  {
    hide Utf8Char, Encoded, DropLast, PairValue, JoinPair, Pushes;
    var rest := s[1..];
    Unfold(s, None);
    MarkIsReplacement();
    TwoLeadsHaveScalars(rest);
    assert EndsWithTwoLeads(s) == EndsWithTwoLeads(rest);
    ConsDrop(if IsTrail(s[0]) then MARK else Utf8Char(s[0]), Chars(Scalars(rest)), EndsWithTwoLeads(rest));
  }

  /** `H` writes every character, with U+FFFD for every unpaired surrogate, exactly when the string does not
      end with two lead surrogates. */
  lemma EncodesExactlyWhen(s: seq<Unit>)
    ensures H(s) == Utf8(Scalars(s)) <==> !EndsWithTwoLeads(s)
  {
    PushesFree(s);
    var p := Chars(Scalars(s));
    FlattenChars(Scalars(s));
    if EndsWithTwoLeads(s) {
      TwoLeadsHaveScalars(s);
      FlattenDropsLast(p);
      CharsNonEmpty(Scalars(s));
    }
  }

  /** With two lead surrogates at the end, what is written is the encoding of all characters but the last. */
  lemma TheLastIsLost(s: seq<Unit>)
    requires EndsWithTwoLeads(s)
    ensures var cs := Scalars(s);
            cs != [] && H(s) == Utf8(cs[..|cs| - 1])
  {
    hide EndsWithTwoLeads, Scalars;
    TwoLeadsHaveScalars(s);
    PushesFree(s);
    var cs := Scalars(s);
    CharsOfPrefix(cs, |cs| - 1);
    FlattenChars(cs[..|cs| - 1]);
  }

  lemma {:induction false} CharsOfPrefix(cs: seq<Scalar>, k: nat)
    requires k <= |cs|
    ensures |Chars(cs)| == |cs| && Chars(cs)[..k] == Chars(cs[..k])
    decreases |cs|
  {
    if cs == [] {
    } else if k == 0 {
      CharsOfPrefix(cs[1..], 0);
    } else {
      CharsOfPrefix(cs[1..], k - 1);
      assert cs[..k][1..] == cs[1..][..k - 1];
    }
  }

  /** With a limit other than 0, what is written is the encoding of as many whole characters as fit. */
  lemma WritesWholeCharacters(s: seq<Unit>, t: nat) returns (k: nat)
    requires t > 0 && !EndsWithTwoLeads(s)
    ensures var cs := Scalars(s);
            && k <= |cs| && Limited(s, Some(t)) == Utf8(cs[..k]) && |Utf8(cs[..k])| <= t
            && (k < |cs| ==> |Utf8(cs[..k + 1])| > t)
  {
    hide EndsWithTwoLeads, Scalars, Utf8, Chars, Fit, Pushes;
    PushesFree(s);
    var cs := Scalars(s);
    var p := Chars(cs);
    k := FitIsMaximal(p, t);
    CharsOfPrefix(cs, k);
    FlattenChars(cs[..k]);
    if k < |cs| {
      CharsOfPrefix(cs, k + 1);
      FlattenChars(cs[..k + 1]);
      FlattenDropsLast(p[..k + 1]);
      assert p[..k + 1][..k] == p[..k];
    }
  }

  lemma {:induction false} FlattenDropsLast(p: seq<seq<Byte>>)
    requires p != []
    ensures Total(p) == Total(p[..|p| - 1]) + |p[|p| - 1]|
  {
    if |p| == 1 {
      assert p[..0] == [];
    } else {
      FlattenDropsLast(p[1..]);
      assert p[..|p| - 1][1..] == p[1..][..|p| - 2];
    }
  }

  lemma {:induction false} CharsNonEmpty(cs: seq<Scalar>)
    ensures forall q <- Chars(cs) :: |q| >= 1
  {
    if cs == [] {
    } else {
      CharsNonEmpty(cs[1..]);
    }
  }

  /** The string of two lead surrogates loses one: three bytes, where two replacement characters take six. */
  lemma TwoLeadsLoseOne()
    ensures H([0xD800, 0xD800]) == [239, 191, 189]
    ensures Utf8(Scalars([0xD800, 0xD800])) == [239, 191, 189, 239, 191, 189]
  {
    var s: seq<Unit> := [0xD800, 0xD800];
    MarkIsReplacement();
    assert s[1..] == [0xD800] && s[1..][1..] == [];
    assert Pushes(s, None) == Pushes(s[1..], Some(0xD800)) == [MARK];
    assert Flatten([MARK][1..]) == [];
    assert Scalars([0xD800]) == [REPLACEMENT] + Scalars([]);
    assert Scalars(s) == [REPLACEMENT] + Scalars([0xD800]) == [REPLACEMENT, REPLACEMENT];
    assert Utf8([REPLACEMENT]) == MARK + Utf8([]);
    assert [REPLACEMENT, REPLACEMENT][1..] == [REPLACEMENT];
  }

  lemma {:induction false} WellFormedEnds(s: seq<Unit>)
    requires WellFormed16(s)
    ensures !EndsWithTwoLeads(s) && !EndsWithLead(s)
  {
    if s == [] {
    } else if StartsWithPair(s) {
      WellFormedEnds(s[2..]);
    } else {
      WellFormedEnds(s[1..]);
    }
  }

  /** Decoding an encoded string gives the string back. */
  lemma StringRoundTrip(s: seq<Unit>)
    requires WellFormed16(s)
    ensures WellFormed8(H(s)) && A(H(s)) == s
  {
    WellFormedEnds(s);
    EncodesExactlyWhen(s);
    var cs := Scalars(s);
    DecodesUtf8(cs, []);
    assert Utf8(cs) + [] == Utf8(cs) && cs + Decoded([]) == cs;
    ScalarsRoundTrip(s);
    Utf8IsWellFormed(cs);
  }

  /** Encoding a decoded byte sequence gives the bytes back. */
  lemma BytesRoundTrip(b: seq<Byte>)
    requires WellFormed8(b)
    ensures H(A(b)) == b
  {
    WellFormedIsUtf8(b);
    Utf16RoundTrip(Decoded(b));
    WellFormedEnds(A(b));
    EncodesExactlyWhen(A(b));
  }

  // ----- The loop -----

  /** l, and what still fits of p into a budget of u; nothing does once the budget is overdrawn. */
  function Outcome(l: seq<Byte>, p: seq<seq<Byte>>, u: int): (b: seq<Byte>) {
    l + if u >= 0 then Fit(p, u) else []
  }

  lemma PushOne(l: seq<Byte>, x: seq<Byte>, p: seq<seq<Byte>>, u: int)
    ensures var v := u - |x|;
            Outcome(l, [x] + p, u) == Outcome(if v > -1 then l + x else l, p, v)
    ensures Total([x] + p) == |x| + Total(p)
  {
    assert ([x] + p)[1..] == p;
  }

  /** `H` as written. Without a limit, or with 0 for one, the budget is infinite; the loop ends once it is overdrawn. */
  method EncodeUtf8(e: seq<Unit>, limit: Option<nat>) returns (l: seq<Byte>)
    ensures l == Limited(e, limit)
  {
    hide Encoded, JoinPair, Utf8Char, PairValue, Pushes, Outcome, Fit, Total;
    ghost var all := Pushes(e, None);
    var bounded := limit.Some? && limit.value != 0;
    ghost var budget := if bounded then limit.value else Total(all);
    StartsWhole(all, budget);
    ghost var u: int := budget;
    var t: int := if bounded then limit.value else 0;
    var n := |e|;
    l := [];
    var a: Option<Unit> := None;
    var o := 0;
    assert e[0..] == e;
    while o < n
      invariant 0 <= o <= n
      invariant a.Some? ==> IsLead(a.value)
      invariant bounded ==> t == u
      invariant !bounded ==> u == Total(Pushes(e[o..], a))
      invariant Fit(all, budget) == Outcome(l, Pushes(e[o..], a), u)
    {
      ghost var rest := e[o + 1..];
      assert e[o..][0] == e[o] && e[o..][1..] == rest;
      Unfold(e[o..], a);
      var r: nat := e[o];
      o := o + 1;
      if r > 55295 && r < 57344 {
        if a.None? {
          if r > 56319 || o == n {
            PushOne(l, MARK, Pushes(rest, None), u);
            t, u := t - 3, u - 3;
            if !bounded || t > -1 { l := l + MARK; }
            continue;
          }
          a := Some(r);
          continue;
        }
        if r < 56320 {
          PushOne(l, MARK, Pushes(rest, Some(r)), u);
          t, u := t - 3, u - 3;
          if !bounded || t > -1 { l := l + MARK; }
          a := Some(r);
          continue;
        }
        r := JoinPair(a.value, r);
      } else if a.Some? {
        PushOne(l, MARK, [Encoded(r)] + Pushes(rest, None), u);
        t, u := t - 3, u - 3;
        if !bounded || t > -1 { l := l + MARK; }
      }
      a := None;
      var bytes := Encoded(r);
      PushOne(l, bytes, Pushes(rest, None), u);
      t, u := t - |bytes|, u - |bytes|;
      if bounded && t < 0 {
        Overdrawn(l, Pushes(rest, None), u);
        return;
      }
      l := l + bytes;
    }
    assert e[o..] == [];
    NothingLeft(l, a, u);
  }

  lemma StartsWhole(all: seq<seq<Byte>>, budget: nat)
    ensures Fit(all, budget) == Outcome([], all, budget)
    ensures Fit(all, Total(all)) == Flatten(all)
  {
    FitsWhole(all, Total(all));
  }

  lemma Overdrawn(l: seq<Byte>, p: seq<seq<Byte>>, u: int)
    requires u < 0
    ensures Outcome(l, p, u) == l
  {
  }

  lemma NothingLeft(l: seq<Byte>, a: Option<Unit>, u: int)
    requires a.Some? ==> IsLead(a.value)
    ensures Outcome(l, Pushes([], a), u) == l
  {
  }
}
