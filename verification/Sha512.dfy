/** Module 7816: the SHA-512 state and its block function, on halves. */
module Sha512 {
  import opened JsNumbers
  import opened Bytes
  import opened BufferWords
  import opened Fips180
  import opened Sha2Words
  import opened Sha512Pairs

  /** The 64-bit constants that a table of alternating high and low halves stands for. */
  function JoinTable(k: seq<int>): (r: seq<nat>)
    requires |k| == 160
    ensures |r| == 80
  {
    seq(80, t requires 0 <= t < 80 => Join(k[2 * t], k[2 * t + 1]))
  }

  datatype Halves = Halves(h: int, l: int)
  {
    predicate Word() { IsWord(h) && IsWord(l) }

    function Joined(): (x: nat) { Join(h, l) }
  }

  /** The addition the bundle writes out each time: the low halves are added and wrapped, and the carry
      into the high half is found by comparing the wrapped sum with one of the two low addends. */
  function Plus(x: Halves, y: Halves, addend: int): (r: Halves)
    requires x.Word() && y.Word()
    ensures IsInt32(r.h) && IsInt32(r.l)
  {
    var lo := Truncate(x.l + y.l);
    Halves(Truncate(x.h + y.h + GetCarry(lo, addend)), lo)
  }

  /** Addition modulo 2^64. */
  function Add64(x: nat, y: nat): (r: nat)
  {
    (x + y) % TWO_64
  }

  lemma PlusMeaning(x: Halves, y: Halves, addend: int)
    requires x.Word() && y.Word() && (addend == x.l || addend == y.l)
    ensures Plus(x, y, addend).Joined() == Add64(x.Joined(), y.Joined())
  {
    hide U32, I32, Truncate, Join, GetCarry;
    AddPairs(x.h, x.l, y.h, y.l);
  }

  // ----- One step of the schedule loop -----

  /** The next schedule entry from the entries 15, 7, 2 and 16 places back. */
  function NextEntry(w15: Halves, w7: Halves, w2: Halves, w16: Halves): (r: Halves)
    requires w15.Word() && w7.Word() && w2.Word() && w16.Word()
    ensures IsInt32(r.h) && IsInt32(r.l)
  {
    var gamma0 := Halves(Gamma0(w15.h, w15.l), Gamma0l(w15.l, w15.h));
    var gamma1 := Halves(Gamma1(w2.h, w2.l), Gamma1l(w2.l, w2.h));
    Plus(Plus(Plus(gamma0, w7, gamma0.l), gamma1, gamma1.l), w16, w16.l)
  }

  lemma NextEntryMeaning(w15: Halves, w7: Halves, w2: Halves, w16: Halves)
    requires w15.Word() && w7.Word() && w2.Word() && w16.Word()
    ensures NextEntry(w15, w7, w2, w16).Joined()
         == Add64(Add64(Add64(LowerSigma(64, SHA512.lower0, w15.Joined()), w7.Joined()),
                        LowerSigma(64, SHA512.lower1, w2.Joined())), w16.Joined())
  {
    hide Add64, Join, Plus, Gamma0, Gamma0l, Gamma1, Gamma1l, LowerSigma;
    var gamma0 := Halves(Gamma0(w15.h, w15.l), Gamma0l(w15.l, w15.h));
    var gamma1 := Halves(Gamma1(w2.h, w2.l), Gamma1l(w2.l, w2.h));
    GammaPairs(w15.h, w15.l);
    GammaPairs(w2.h, w2.l);
    var s1 := Plus(gamma0, w7, gamma0.l);
    PlusMeaning(gamma0, w7, gamma0.l);
    PlusMeaning(s1, gamma1, gamma1.l);
    PlusMeaning(Plus(s1, gamma1, gamma1.l), w16, w16.l);
  }

  /** One iteration of the schedule loop computes the schedule of FIPS 180-4. */
  lemma ScheduleStep(M: seq<nat>, t: nat, w15: Halves, w7: Halves, w2: Halves, w16: Halves)
    requires |M| == 16 && 16 <= t
    requires w15.Word() && w7.Word() && w2.Word() && w16.Word()
    requires w15.Joined() == Schedule(SHA512, M, t - 15) && w7.Joined() == Schedule(SHA512, M, t - 7)
    requires w2.Joined() == Schedule(SHA512, M, t - 2) && w16.Joined() == Schedule(SHA512, M, t - 16)
    ensures NextEntry(w15, w7, w2, w16).Joined() == Schedule(SHA512, M, t)
  {
    hide NextEntry, LowerSigma, Join, Add64;
    NextEntryMeaning(w15, w7, w2, w16);
    JoinBelow(0, 0);
    SumOfFour(LowerSigma(64, SHA512.lower0, w15.Joined()), w7.Joined(),
              LowerSigma(64, SHA512.lower1, w2.Joined()), w16.Joined());
  }

  lemma SumOfFour(a: nat, b: nat, c: nat, d: nat)
    ensures Add64(Add64(Add64(a, b), c), d) == (c + b + a + d) % TWO_64
  {
    AddMod(a + b, c);
    AddMod(a + b + c, d);
  }

  lemma SumOfFive(a: nat, b: nat, c: nat, d: nat, e: nat)
    ensures Add64(Add64(Add64(Add64(a, b), c), d), e) == (a + b + c + d + e) % TWO_64
  {
    AddMod(a + b, c);
    AddMod(a + b + c, d);
    AddMod(a + b + c + d, e);
  }

  lemma AddMod(x: nat, y: nat)
    ensures (x % TWO_64 + y) % TWO_64 == (x + y) % TWO_64
  {
  }

  // ----- One round -----

  datatype Vars = Vars(a: Halves, b: Halves, c: Halves, d: Halves, e: Halves, f: Halves, g: Halves, h: Halves)
  {
    predicate Words() {
      a.Word() && b.Word() && c.Word() && d.Word() && e.Word() && f.Word() && g.Word() && h.Word()
    }

    ghost function Value(): (s: Working)
      ensures s.InRange(64)
    {
      hide Join;
      JoinBelow(a.h, a.l); JoinBelow(b.h, b.l); JoinBelow(c.h, c.l); JoinBelow(d.h, d.l);
      JoinBelow(e.h, e.l); JoinBelow(f.h, f.l); JoinBelow(g.h, g.l); JoinBelow(h.h, h.l);
      Working(a.Joined(), b.Joined(), c.Joined(), d.Joined(), e.Joined(), f.Joined(), g.Joined(), h.Joined())
    }
  }

  /** t1 = h + sigma1 + ch + k + w */
  function FirstTemp(s: Vars, k: Halves, w: Halves): (r: Halves)
    requires s.Words() && k.Word() && w.Word()
    ensures r.Word()
  {
    var sigma1 := Halves(Sigma1(s.e.h, s.e.l), Sigma1(s.e.l, s.e.h));
    var ch := Halves(Choose(s.e.h, s.f.h, s.g.h), Choose(s.e.l, s.f.l, s.g.l));
    Plus(Plus(Plus(Plus(s.h, sigma1, s.h.l), ch, ch.l), k, k.l), w, w.l)
  }

  /** t2 = sigma0 + maj */
  function SecondTemp(s: Vars): (r: Halves)
    requires s.Words()
    ensures r.Word()
  {
    var maj := Halves(Majority(s.a.h, s.b.h, s.c.h), Majority(s.a.l, s.b.l, s.c.l));
    var sigma0 := Halves(Sigma0(s.a.h, s.a.l), Sigma0(s.a.l, s.a.h));
    Plus(sigma0, maj, sigma0.l)
  }

  function NextVars(s: Vars, k: Halves, w: Halves): (r: Vars)
    requires s.Words() && k.Word() && w.Word()
    ensures r.Words()
  {
    var t1, t2 := FirstTemp(s, k, w), SecondTemp(s);
    Vars(Plus(t1, t2, t1.l), s.a, s.b, s.c, Plus(s.d, t1, s.d.l), s.e, s.f, s.g)
  }

  lemma FirstTempMeaning(s: Vars, k: Halves, w: Halves)
    requires s.Words() && k.Word() && w.Word()
    ensures var S := s.Value();
            FirstTemp(s, k, w).Joined()
            == (S.h + UpperSigma(64, SHA512.upper1, S.e) + Ch(64, S.e, S.f, S.g) + k.Joined() + w.Joined()) % TWO_64
  {
    hide Add64, Join, Plus, Sigma1, Choose, UpperSigma, Ch;
    var sigma1 := Halves(Sigma1(s.e.h, s.e.l), Sigma1(s.e.l, s.e.h));
    var ch := Halves(Choose(s.e.h, s.f.h, s.g.h), Choose(s.e.l, s.f.l, s.g.l));
    SigmaPairs(s.e.h, s.e.l);
    ChooseMajorityPairs(s.e.h, s.e.l, s.f.h, s.f.l, s.g.h, s.g.l);
    var s1 := Plus(s.h, sigma1, s.h.l);
    PlusMeaning(s.h, sigma1, s.h.l);
    var s2 := Plus(s1, ch, ch.l);
    PlusMeaning(s1, ch, ch.l);
    PlusMeaning(s2, k, k.l);
    PlusMeaning(Plus(s2, k, k.l), w, w.l);
    SumOfFive(s.h.Joined(), sigma1.Joined(), ch.Joined(), k.Joined(), w.Joined());
  }

  lemma SecondTempMeaning(s: Vars)
    requires s.Words()
    ensures var S := s.Value();
            SecondTemp(s).Joined() == Add64(UpperSigma(64, SHA512.upper0, S.a), Maj(64, S.a, S.b, S.c))
  {
    hide Add64, Join, Plus, Sigma0, Majority, UpperSigma, Maj;
    var maj := Halves(Majority(s.a.h, s.b.h, s.c.h), Majority(s.a.l, s.b.l, s.c.l));
    var sigma0 := Halves(Sigma0(s.a.h, s.a.l), Sigma0(s.a.l, s.a.h));
    SigmaPairs(s.a.h, s.a.l);
    ChooseMajorityPairs(s.a.h, s.a.l, s.b.h, s.b.l, s.c.h, s.c.l);
    PlusMeaning(sigma0, maj, sigma0.l);
  }

  /** One round on halves is one round of FIPS 180-4 on 64-bit words. */
  lemma RoundOnHalves(s: Vars, k: Halves, w: Halves)
    requires s.Words() && k.Word() && w.Word()
    ensures NextVars(s, k, w).Value() == Round(SHA512, s.Value(), k.Joined(), w.Joined())
  {
    hide Join, Plus, FirstTemp, SecondTemp, UpperSigma, Ch, Maj;
    FirstTempMeaning(s, k, w);
    SecondTempMeaning(s);
    JoinBelow(0, 0);
    var t1, t2 := FirstTemp(s, k, w), SecondTemp(s);
    PlusMeaning(s.d, t1, s.d.l);
    PlusMeaning(t1, t2, t1.l);
  }

  /** The copies of the state that the rounds work on, each half passed through `0 |`. */
  function Truncated(s: Vars): (r: Vars)
    requires s.Words()
    ensures r.Words()
  {
    Vars(Halves(Truncate(s.a.h), Truncate(s.a.l)), Halves(Truncate(s.b.h), Truncate(s.b.l)),
         Halves(Truncate(s.c.h), Truncate(s.c.l)), Halves(Truncate(s.d.h), Truncate(s.d.l)),
         Halves(Truncate(s.e.h), Truncate(s.e.l)), Halves(Truncate(s.f.h), Truncate(s.f.l)),
         Halves(Truncate(s.g.h), Truncate(s.g.l)), Halves(Truncate(s.h.h), Truncate(s.h.l)))
  }

  lemma TruncatedSame(s: Vars)
    requires s.Words()
    ensures Truncated(s).Value() == s.Value()
  {
    hide Truncate, U32;
  }

  /** The word-by-word sum of two states. */
  function Sum(o: Vars, z: Vars): (r: Vars)
    requires o.Words() && z.Words()
    ensures r.Words()
  {
    Vars(Plus(o.a, z.a, z.a.l), Plus(o.b, z.b, z.b.l), Plus(o.c, z.c, z.c.l), Plus(o.d, z.d, z.d.l),
         Plus(o.e, z.e, z.e.l), Plus(o.f, z.f, z.f.l), Plus(o.g, z.g, z.g.l), Plus(o.h, z.h, z.h.l))
  }

  lemma SumMeaning(o: Vars, z: Vars)
    requires o.Words() && z.Words()
    ensures var v, w := o.Value(), z.Value();
            Sum(o, z).Value() == Working(Add64(v.a, w.a), Add64(v.b, w.b), Add64(v.c, w.c), Add64(v.d, w.d),
                                         Add64(v.e, w.e), Add64(v.f, w.f), Add64(v.g, w.g), Add64(v.h, w.h))
  {
    hide Join, Plus, Add64;
    PlusMeaning(o.a, z.a, z.a.l); PlusMeaning(o.b, z.b, z.b.l);
    PlusMeaning(o.c, z.c, z.c.l); PlusMeaning(o.d, z.d, z.d.l);
    PlusMeaning(o.e, z.e, z.e.l); PlusMeaning(o.f, z.f, z.f.l);
    PlusMeaning(o.g, z.g, z.g.l); PlusMeaning(o.h, z.h, z.h.l);
  }

  lemma NoRounds(K: seq<nat>, M: seq<nat>, s: Working)
    requires s.InRange(64) && |M| == 16
    ensures Rounds(SHA512, K, M, s, 0) == s
  {
  }

  lemma RoundStep(k: seq<int>, M: seq<nat>, start: Working, t: nat, s: Vars, kj: Halves, wj: Halves)
    requires |k| == 160 && |M| == 16 && t < 80 && start.InRange(64)
    requires s.Words() && kj.Word() && wj.Word()
    requires s.Value() == Rounds(SHA512, JoinTable(k), M, start, t)
    requires kj == Halves(k[2 * t], k[2 * t + 1]) && wj.Joined() == Schedule(SHA512, M, t)
    ensures NextVars(s, kj, wj).Value() == Rounds(SHA512, JoinTable(k), M, start, t + 1)
  {
    hide Join, Schedule, Round, NextVars, Vars.Value;
    RoundOnHalves(s, kj, wj);
  }

  lemma FinalAddition(K: seq<nat>, M: seq<nat>, s: Working, o: Vars, z: Vars)
    requires o.Words() && z.Words() && |M| == 16 && |K| == 80
    requires s == o.Value() && z.Value() == Rounds(SHA512, K, M, s, 80)
    ensures Sum(o, z).Value() == Compress(SHA512, K, s, M)
  {
    hide Join, Plus, Rounds, Vars.Value, Sum;
    SumMeaning(o, z);
    JoinBelow(0, 0);
  }

  class State {
    var ah: int, bh: int, ch: int, dh: int, eh: int, fh: int, gh: int, hh: int
    var al: int, bl: int, cl: int, dl: int, el: int, fl: int, gl: int, hl: int
    const k: seq<int>
    const w: array<int>

    predicate Valid()
      reads this
    {
      && |k| == 160 && w.Length == 160
      && (forall t :: 0 <= t < 160 ==> IsWord(k[t]))
      && Current().Words()
    }

    /** Every half is a signed 32-bit number, as writeInt32BE demands. */
    predicate Signed()
      reads this
    {
      && IsInt32(ah) && IsInt32(bh) && IsInt32(ch) && IsInt32(dh)
      && IsInt32(eh) && IsInt32(fh) && IsInt32(gh) && IsInt32(hh)
      && IsInt32(al) && IsInt32(bl) && IsInt32(cl) && IsInt32(dl)
      && IsInt32(el) && IsInt32(fl) && IsInt32(gl) && IsInt32(hl)
    }

    function Current(): (s: Vars)
      reads this
    {
      Vars(Halves(ah, al), Halves(bh, bl), Halves(ch, cl), Halves(dh, dl),
           Halves(eh, el), Halves(fh, fl), Halves(gh, gl), Halves(hh, hl))
    }

    /** The intermediate hash value as 64-bit words. */
    ghost function Value(): (s: Working)
      reads this
      ensures s.InRange(64)
    {
      Current().Value()
    }

    constructor (k: seq<int>)
      requires |k| == 160 && forall t :: 0 <= t < 160 ==> IsWord(k[t])
      ensures Valid() && fresh(w) && this.k == k
      ensures Value() == INITIAL
    {
      hide Join;
      this.k := k;
      w := new int[160];
      ah, bh, ch, dh := 0x6a09e667, 0xbb67ae85, 0x3c6ef372, 0xa54ff53a;
      eh, fh, gh, hh := 0x510e527f, 0x9b05688c, 0x1f83d9ab, 0x5be0cd19;
      al, bl, cl, dl := 0xf3bcc908, 0x84caa73b, 0xfe94f82b, 0x5f1d36f1;
      el, fl, gl, hl := 0xade682d1, 0x2b3e6c1f, 0xfb41bd6b, 0x137e2179;
      new;
      InitialJoins();
    }

    /** The block function: the schedule, eighty rounds, and the final addition. */
    method Update(block: array<Byte>)
      requires Valid() && block.Length == 128 && (block as object) != (w as object)
      modifies this, w
      ensures Valid() && Signed()
      ensures Value() == Compress(SHA512, JoinTable(k), old(Value()), Words(block[..], 8))
    {
      hide Join, JoinTable, Schedule, Rounds, NextVars, Truncated, Sum, Compress, Words, Vars.Value, Filled;
      ghost var M := Words(block[..], 8);
      ghost var K := JoinTable(k);
      var s := Truncated(Current());
      TruncatedSame(Current());
      ghost var start := s.Value();
      NoRounds(K, M, start);
      FillSchedule(block);
      assert block[..] == old(block[..]);
      IsFilled(M);
      var j := 0;
      while j < 160
        invariant 0 <= j <= 160 && j % 2 == 0
        invariant Valid() && s.Words() && Current() == old(Current()) && Filled(M)
        invariant s.Value() == Rounds(SHA512, K, M, start, j / 2)
      {
        var kj, wj := Halves(k[j], k[j + 1]), Halves(w[j], w[j + 1]);
        ghost var t := j / 2;
        assert k[2 * t] == k[j] && k[2 * t + 1] == k[j + 1];
        FilledAt(M, t);
        RoundStep(k, M, start, t, s, kj, wj);
        s := NextVars(s, kj, wj);
        j := j + 2;
      }
      FinalAddition(K, M, start, Current(), s);
      AddInto(s);
    }

    /** _hash: the eight pairs of halves, laid out big-endian. */
    method HashBytes() returns (out: array<Byte>)
      requires Valid() && Signed()
      ensures fresh(out) && out[..] == Digest(SHA512, Value())
    {
      hide BeBytes, U32, Vars.Value;
      out := WriteWords([ah, al, bh, bl, ch, cl, dh, dl, eh, el, fh, fl, gh, gl, hh, hl]);
      LayOut(Current());
    }

    /** The final addition: first the low halves, then the high halves with the carries. */
    method AddInto(s: Vars)
      requires Valid() && s.Words()
      modifies this
      ensures Valid() && Signed()
      ensures Current() == Sum(old(Current()), s)
    {
      hide Truncate, U32, I32, GetCarry;
      AddLow(s);
      AddHigh(s);
    }

    method AddLow(s: Vars)
      requires Current().Words() && s.Words()
      modifies this`al, this`bl, this`cl, this`dl, this`el, this`fl, this`gl, this`hl
      ensures var o := old(Current());
              && al == Truncate(o.a.l + s.a.l) && bl == Truncate(o.b.l + s.b.l)
              && cl == Truncate(o.c.l + s.c.l) && dl == Truncate(o.d.l + s.d.l)
              && el == Truncate(o.e.l + s.e.l) && fl == Truncate(o.f.l + s.f.l)
              && gl == Truncate(o.g.l + s.g.l) && hl == Truncate(o.h.l + s.h.l)
    {
      hide Truncate, U32, I32;
      al := Truncate(al + s.a.l);
      bl := Truncate(bl + s.b.l);
      cl := Truncate(cl + s.c.l);
      dl := Truncate(dl + s.d.l);
      el := Truncate(el + s.e.l);
      fl := Truncate(fl + s.f.l);
      gl := Truncate(gl + s.g.l);
      hl := Truncate(hl + s.h.l);
    }

    method AddHigh(s: Vars)
      requires Current().Words() && s.Words()
      modifies this`ah, this`bh, this`ch, this`dh, this`eh, this`fh, this`gh, this`hh
      ensures var o := old(Current());
              && ah == Truncate(o.a.h + s.a.h + GetCarry(al, s.a.l)) && bh == Truncate(o.b.h + s.b.h + GetCarry(bl, s.b.l))
              && ch == Truncate(o.c.h + s.c.h + GetCarry(cl, s.c.l)) && dh == Truncate(o.d.h + s.d.h + GetCarry(dl, s.d.l))
              && eh == Truncate(o.e.h + s.e.h + GetCarry(el, s.e.l)) && fh == Truncate(o.f.h + s.f.h + GetCarry(fl, s.f.l))
              && gh == Truncate(o.g.h + s.g.h + GetCarry(gl, s.g.l)) && hh == Truncate(o.h.h + s.h.h + GetCarry(hl, s.h.l))
    {
      hide Truncate, U32, I32, GetCarry;
      ah := Truncate(ah + s.a.h + GetCarry(al, s.a.l));
      bh := Truncate(bh + s.b.h + GetCarry(bl, s.b.l));
      ch := Truncate(ch + s.c.h + GetCarry(cl, s.c.l));
      dh := Truncate(dh + s.d.h + GetCarry(dl, s.d.l));
      eh := Truncate(eh + s.e.h + GetCarry(el, s.e.l));
      fh := Truncate(fh + s.f.h + GetCarry(fl, s.f.l));
      gh := Truncate(gh + s.g.h + GetCarry(gl, s.g.l));
      hh := Truncate(hh + s.h.h + GetCarry(hl, s.h.l));
    }

    /** The first sixteen words of the schedule are those of the block. */
    method CopyBlock(block: array<Byte>)
      requires w.Length == 160 && block.Length == 128 && (block as object) != (w as object)
      modifies w
      ensures forall t :: 0 <= t < 32 ==> IsInt32(w[t])
      ensures forall t :: 0 <= t < 16 ==> Join(w[2 * t], w[2 * t + 1]) == Schedule(SHA512, Words(block[..], 8), t)
    {
      hide Join, Schedule, ReadInt32BE, Words;
      ghost var M := Words(block[..], 8);
      var i := 0;
      while i < 32
        invariant 0 <= i <= 32 && i % 2 == 0
        invariant forall t :: 0 <= t < i ==> IsInt32(w[t])
        invariant forall t :: 0 <= t < i / 2 ==> Join(w[2 * t], w[2 * t + 1]) == Schedule(SHA512, M, t)
      {
        w[i] := ReadInt32BE(block[..], 4 * i);
        w[i + 1] := ReadInt32BE(block[..], 4 * i + 4);
        BlockWord(M, block[..], i / 2);
        i := i + 2;
      }
    }

    /** The array holds the whole schedule of a block. */
    ghost predicate Filled(M: seq<nat>)
      requires |M| == 16
      reads this, w
    {
      && w.Length == 160
      && (forall t :: 0 <= t < 160 ==> IsInt32(w[t]))
      && (forall t :: 0 <= t < 80 ==> Join(w[2 * t], w[2 * t + 1]) == Schedule(SHA512, M, t))
    }

    lemma IsFilled(M: seq<nat>)
      requires |M| == 16 && w.Length == 160
      requires forall t :: 0 <= t < 160 ==> IsInt32(w[t])
      requires forall t :: 0 <= t < 80 ==> Join(w[2 * t], w[2 * t + 1]) == Schedule(SHA512, M, t)
      ensures Filled(M)
    {
    }

    lemma FilledAt(M: seq<nat>, t: nat)
      requires |M| == 16 && Filled(M) && t < 80
      ensures w.Length == 160 && IsInt32(w[2 * t]) && IsInt32(w[2 * t + 1])
      ensures Halves(w[2 * t], w[2 * t + 1]).Joined() == Schedule(SHA512, M, t)
    {
      hide Schedule, Join;
    }

    /** The message schedule, filled in place. */
    method FillSchedule(block: array<Byte>)
      requires w.Length == 160 && block.Length == 128 && (block as object) != (w as object)
      modifies w
      ensures forall t :: 0 <= t < 160 ==> IsInt32(w[t])
      ensures forall t :: 0 <= t < 80 ==> Join(w[2 * t], w[2 * t + 1]) == Schedule(SHA512, Words(block[..], 8), t)
    {
      hide Join, Schedule, NextEntry, Words;
      ghost var M := Words(block[..], 8);
      CopyBlock(block);
      var i := 32;
      while i < 160
        invariant 32 <= i <= 160 && i % 2 == 0
        invariant forall t :: 0 <= t < i ==> IsInt32(w[t])
        invariant forall t :: 0 <= t < i / 2 ==> Join(w[2 * t], w[2 * t + 1]) == Schedule(SHA512, M, t)
      {
        var w15, w7 := Halves(w[i - 30], w[i - 29]), Halves(w[i - 14], w[i - 13]);
        var w2, w16 := Halves(w[i - 4], w[i - 3]), Halves(w[i - 32], w[i - 31]);
        var next := NextEntry(w15, w7, w2, w16);
        ghost var t := i / 2;
        assert w15.Joined() == Join(w[2 * (t - 15)], w[2 * (t - 15) + 1]);
        assert w7.Joined() == Join(w[2 * (t - 7)], w[2 * (t - 7) + 1]);
        assert w2.Joined() == Join(w[2 * (t - 2)], w[2 * (t - 2) + 1]);
        assert w16.Joined() == Join(w[2 * (t - 16)], w[2 * (t - 16) + 1]);
        ScheduleStep(M, t, w15, w7, w2, w16);
        w[i], w[i + 1] := next.h, next.l;
        i := i + 2;
      }
    }
  }

  /** The bytes of a 64-bit word are the bytes of its halves. */
  lemma PairBytes(s: seq<int>, x: Halves)
    ensures BeWords(s + [x.h, x.l]) == BeWords(s) + BeBytes(8, x.Joined())
  {
    hide U32, BeBytes;
    Unroll(s + [x.h], x.l);
    Unroll(s, x.h);
    assert s + [x.h, x.l] == s + [x.h] + [x.l];
    assert Pow256(4) == TWO_32;
    BeBytesAppend(4, U32(x.h), 4, U32(x.l));
  }

  lemma LayOut(s: Vars)
    ensures BeWords([s.a.h, s.a.l, s.b.h, s.b.l, s.c.h, s.c.l, s.d.h, s.d.l,
                     s.e.h, s.e.l, s.f.h, s.f.l, s.g.h, s.g.l, s.h.h, s.h.l]) == Digest(SHA512, s.Value())
  {
    hide BeBytes, Halves.Joined, BeWords;
    var e0: seq<int> := [];
    PairBytes(e0, s.a);
    var e1 := e0 + [s.a.h, s.a.l];
    PairBytes(e1, s.b);
    var e2 := e1 + [s.b.h, s.b.l];
    PairBytes(e2, s.c);
    var e3 := e2 + [s.c.h, s.c.l];
    PairBytes(e3, s.d);
    var e4 := e3 + [s.d.h, s.d.l];
    PairBytes(e4, s.e);
    var e5 := e4 + [s.e.h, s.e.l];
    PairBytes(e5, s.f);
    var e6 := e5 + [s.f.h, s.f.l];
    PairBytes(e6, s.g);
    var e7 := e6 + [s.g.h, s.g.l];
    PairBytes(e7, s.h);
    assert BeWords(e0) == [];
    assert e7 + [s.h.h, s.h.l] == [s.a.h, s.a.l, s.b.h, s.b.l, s.c.h, s.c.l, s.d.h, s.d.l,
                     s.e.h, s.e.l, s.f.h, s.f.l, s.g.h, s.g.l, s.h.h, s.h.l];
  }

  const INITIAL := Working(
    0x6a09e667f3bcc908, 0xbb67ae8584caa73b, 0x3c6ef372fe94f82b, 0xa54ff53a5f1d36f1,
    0x510e527fade682d1, 0x9b05688c2b3e6c1f, 0x1f83d9abfb41bd6b, 0x5be0cd19137e2179)

  lemma InitialJoins()
    ensures Join(0x6a09e667, 0xf3bcc908) == INITIAL.a && Join(0xbb67ae85, 0x84caa73b) == INITIAL.b
    ensures Join(0x3c6ef372, 0xfe94f82b) == INITIAL.c && Join(0xa54ff53a, 0x5f1d36f1) == INITIAL.d
    ensures Join(0x510e527f, 0xade682d1) == INITIAL.e && Join(0x9b05688c, 0x2b3e6c1f) == INITIAL.f
    ensures Join(0x1f83d9ab, 0xfb41bd6b) == INITIAL.g && Join(0x5be0cd19, 0x137e2179) == INITIAL.h
  {
  }

  lemma BlockWord(M: seq<nat>, b: seq<Byte>, t: nat)
    requires |b| == 128 && t < 16 && M == Words(b, 8)
    ensures Join(ReadInt32BE(b, 8 * t), ReadInt32BE(b, 8 * t + 4)) == Schedule(SHA512, M, t)
  {
    hide ReadInt32BE, BeValue, U32;
    var hi, lo := Slice(b, 8 * t, 4), Slice(b, 8 * t + 4, 4);
    ReadInt32BEValue(b, 8 * t);
    ReadInt32BEValue(b, 8 * t + 4);
    assert Slice(b, 8 * t, 8) == hi + lo;
    BeValueAppend(hi, lo);
    assert Pow256(4) == TWO_32;
    assert M[t] == BeValue(Slice(b, t * 8, 8));
  }
}
