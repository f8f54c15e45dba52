/** Module 7499: the SHA-256 state and its block function. */
module Sha256 {
  import opened JsNumbers
  import opened Bytes
  import opened BufferWords
  import opened Fips180
  import opened Sha2Words

  // ----- The bundle's functions, under the names sha.js gives them -----

  function Sigma0(x: int): (r: int)
    ensures IsWord(r)
  {
    BitXor(BitXor(Funnel(x, x, 2), Funnel(x, x, 13)), Funnel(x, x, 22))
  }

  function Sigma1(x: int): (r: int)
    ensures IsWord(r)
  {
    BitXor(BitXor(Funnel(x, x, 6), Funnel(x, x, 11)), Funnel(x, x, 25))
  }

  function Gamma0(x: int): (r: int)
    ensures IsWord(r)
  {
    BitXor(BitXor(Funnel(x, x, 7), Funnel(x, x, 18)), ShiftRightZero(x, 3))
  }

  function Gamma1(x: int): (r: int)
    ensures IsWord(r)
  {
    BitXor(BitXor(Funnel(x, x, 17), Funnel(x, x, 19)), ShiftRightZero(x, 10))
  }

  lemma SigmaWords(x: int)
    ensures U32(Sigma0(x)) == UpperSigma(32, SHA256.upper0, U32(x))
    ensures U32(Sigma1(x)) == UpperSigma(32, SHA256.upper1, U32(x))
  {
    hide U32, Funnel, RotR, Bitwise;
    FunnelIsRotation(x, 2); FunnelIsRotation(x, 13); FunnelIsRotation(x, 22);
    FunnelIsRotation(x, 6); FunnelIsRotation(x, 11); FunnelIsRotation(x, 25);
  }

  lemma GammaWords(x: int)
    ensures U32(Gamma0(x)) == LowerSigma(32, SHA256.lower0, U32(x))
    ensures U32(Gamma1(x)) == LowerSigma(32, SHA256.lower1, U32(x))
  {
    hide U32, Funnel, RotR, Bitwise;
    FunnelIsRotation(x, 7); FunnelIsRotation(x, 18);
    FunnelIsRotation(x, 17); FunnelIsRotation(x, 19);
  }

  // ----- One step of the schedule loop -----

  function NextEntry(w15: int, w7: int, w2: int, w16: int): (r: int)
    requires IsWord(w15) && IsWord(w7) && IsWord(w2) && IsWord(w16)
    ensures IsInt32(r)
  {
    Truncate(Gamma1(w2) + w7 + Gamma0(w15) + w16)
  }

  lemma ScheduleStep(M: seq<nat>, t: nat, w15: int, w7: int, w2: int, w16: int)
    requires |M| == 16 && 16 <= t
    requires IsWord(w15) && IsWord(w7) && IsWord(w2) && IsWord(w16)
    requires U32(w15) == Schedule(SHA256, M, t - 15) && U32(w7) == Schedule(SHA256, M, t - 7)
    requires U32(w2) == Schedule(SHA256, M, t - 2) && U32(w16) == Schedule(SHA256, M, t - 16)
    ensures U32(NextEntry(w15, w7, w2, w16)) == Schedule(SHA256, M, t)
  {
    hide U32, Gamma0, Gamma1, LowerSigma, Truncate;
    GammaWords(w15);
    GammaWords(w2);
    Pow2Of32();
    SumOfFour(Gamma1(w2), w7, Gamma0(w15), w16);
  }

  /** Wrapping a sum once is the same as adding the unsigned readings modulo 2^32. */
  lemma SumOfFour(a: int, b: int, c: int, d: int)
    ensures U32(a + b + c + d) == (U32(a) + U32(b) + U32(c) + U32(d)) % TWO_32
  {
    hide U32;
    UnsignedSum(a, b);
    UnsignedSum(a + b, c);
    UnsignedSum(a + b + c, d);
    AddMod(U32(a) + U32(b), U32(c));
    AddMod(U32(a) + U32(b) + U32(c), U32(d));
  }

  lemma SumOfFive(a: int, b: int, c: int, d: int, e: int)
    ensures U32(a + b + c + d + e) == (U32(a) + U32(b) + U32(c) + U32(d) + U32(e)) % TWO_32
  {
    hide U32;
    SumOfFour(a, b, c, d);
    UnsignedSum(a + b + c + d, e);
    AddMod(U32(a) + U32(b) + U32(c) + U32(d), U32(e));
  }

  lemma AddMod(x: nat, y: nat)
    ensures (x % TWO_32 + y) % TWO_32 == (x + y) % TWO_32
  {
  }

  lemma UnsignedSum(a: int, b: int)
    ensures U32(a + b) == (U32(a) + U32(b)) % TWO_32
  {
  }

  // ----- One round -----

  datatype Vars = Vars(a: int, b: int, c: int, d: int, e: int, f: int, g: int, h: int)
  {
    predicate Words() {
      IsWord(a) && IsWord(b) && IsWord(c) && IsWord(d) && IsWord(e) && IsWord(f) && IsWord(g) && IsWord(h)
    }

    predicate Signed() {
      IsInt32(a) && IsInt32(b) && IsInt32(c) && IsInt32(d) && IsInt32(e) && IsInt32(f) && IsInt32(g) && IsInt32(h)
    }

    ghost function Value(): (s: Working)
      ensures s.InRange(32)
    {
      hide U32;
      Pow2Of32();
      Working(U32(a), U32(b), U32(c), U32(d), U32(e), U32(f), U32(g), U32(h))
    }
  }

  function FirstTemp(s: Vars, k: int, w: int): (r: int)
    requires s.Words() && IsWord(k) && IsWord(w)
    ensures IsInt32(r)
  {
    Truncate(s.h + Sigma1(s.e) + Choose(s.e, s.f, s.g) + k + w)
  }

  function SecondTemp(s: Vars): (r: int)
    requires s.Words()
    ensures IsInt32(r)
  {
    Truncate(Sigma0(s.a) + Majority(s.a, s.b, s.c))
  }

  function NextVars(s: Vars, k: int, w: int): (r: Vars)
    requires s.Words() && IsWord(k) && IsWord(w)
    ensures r.Words()
  {
    var t1, t2 := FirstTemp(s, k, w), SecondTemp(s);
    Vars(Truncate(t1 + t2), s.a, s.b, s.c, Truncate(s.d + t1), s.e, s.f, s.g)
  }

  /** One round of the bundle is one round of FIPS 180-4. */
  lemma RoundOnWords(s: Vars, k: int, w: int)
    requires s.Words() && IsWord(k) && IsWord(w)
    ensures NextVars(s, k, w).Value() == Round(SHA256, s.Value(), U32(k), U32(w))
  {
    hide U32, Truncate, Sigma0, Sigma1, Choose, Majority, UpperSigma, Ch, Maj;
    Pow2Of32();
    SigmaWords(s.e);
    SigmaWords(s.a);
    ChooseMajorityWords(s.e, s.f, s.g);
    ChooseMajorityWords(s.a, s.b, s.c);
    SumOfFive(s.h, Sigma1(s.e), Choose(s.e, s.f, s.g), k, w);
    UnsignedSum(Sigma0(s.a), Majority(s.a, s.b, s.c));
    UnsignedSum(FirstTemp(s, k, w), SecondTemp(s));
    UnsignedSum(s.d, FirstTemp(s, k, w));
  }

  /** The copies of the state that the rounds work on, each passed through `0 |`. */
  function Truncated(s: Vars): (r: Vars)
    requires s.Words()
    ensures r.Words()
  {
    Vars(Truncate(s.a), Truncate(s.b), Truncate(s.c), Truncate(s.d),
         Truncate(s.e), Truncate(s.f), Truncate(s.g), Truncate(s.h))
  }

  lemma TruncatedSame(s: Vars)
    requires s.Words()
    ensures Truncated(s).Value() == s.Value()
  {
    hide Truncate, U32;
  }

  /** The unsigned constants a table stands for. */
  function Table(k: seq<int>): (r: seq<nat>)
    requires |k| == 64
    ensures |r| == 64
  {
    seq(64, t requires 0 <= t < 64 => U32(k[t]))
  }

  lemma NoRounds(K: seq<nat>, M: seq<nat>, s: Working)
    requires s.InRange(32) && |M| == 16
    ensures Rounds(SHA256, K, M, s, 0) == s
  {
  }

  lemma RoundStep(k: seq<int>, M: seq<nat>, start: Working, t: nat, s: Vars, w: int)
    requires |k| == 64 && |M| == 16 && t < 64 && start.InRange(32)
    requires s.Words() && IsWord(k[t]) && IsWord(w)
    requires s.Value() == Rounds(SHA256, Table(k), M, start, t)
    requires U32(w) == Schedule(SHA256, M, t)
    ensures NextVars(s, k[t], w).Value() == Rounds(SHA256, Table(k), M, start, t + 1)
  {
    hide U32, Schedule, Round, NextVars, Vars.Value;
    RoundOnWords(s, k[t], w);
  }

  /** The word-by-word sum of two states. */
  function Sum(o: Vars, z: Vars): (r: Vars)
    requires o.Words() && z.Words()
    ensures r.Words() && r.Signed()
  {
    Vars(Truncate(z.a + o.a), Truncate(z.b + o.b), Truncate(z.c + o.c), Truncate(z.d + o.d),
         Truncate(z.e + o.e), Truncate(z.f + o.f), Truncate(z.g + o.g), Truncate(z.h + o.h))
  }

  lemma FinalAddition(K: seq<nat>, M: seq<nat>, s: Working, o: Vars, z: Vars)
    requires o.Words() && z.Words() && |M| == 16 && |K| == 64
    requires s == o.Value() && z.Value() == Rounds(SHA256, K, M, s, 64)
    ensures Sum(o, z).Value() == Compress(SHA256, K, s, M)
  {
    hide U32, Truncate, Rounds;
    Pow2Of32();
    UnsignedSum(z.a, o.a); UnsignedSum(z.b, o.b); UnsignedSum(z.c, o.c); UnsignedSum(z.d, o.d);
    UnsignedSum(z.e, o.e); UnsignedSum(z.f, o.f); UnsignedSum(z.g, o.g); UnsignedSum(z.h, o.h);
  }

  lemma LayOut(s: Vars)
    ensures BeWords([s.a, s.b, s.c, s.d, s.e, s.f, s.g, s.h]) == Digest(SHA256, s.Value())
  {
    hide BeBytes, U32, BeWords;
    var e0: seq<int> := [];
    Unroll(e0, s.a);
    var e1 := e0 + [s.a];
    Unroll(e1, s.b);
    var e2 := e1 + [s.b];
    Unroll(e2, s.c);
    var e3 := e2 + [s.c];
    Unroll(e3, s.d);
    var e4 := e3 + [s.d];
    Unroll(e4, s.e);
    var e5 := e4 + [s.e];
    Unroll(e5, s.f);
    var e6 := e5 + [s.f];
    Unroll(e6, s.g);
    var e7 := e6 + [s.g];
    Unroll(e7, s.h);
    assert BeWords(e0) == [];
    assert e7 + [s.h] == [s.a, s.b, s.c, s.d, s.e, s.f, s.g, s.h];
  }

  const INITIAL := Working(0x6a09e667, 0xbb67ae85, 0x3c6ef372, 0xa54ff53a,
                           0x510e527f, 0x9b05688c, 0x1f83d9ab, 0x5be0cd19)

  class State {
    var a: int, b: int, c: int, d: int, e: int, f: int, g: int, h: int
    const k: seq<int>
    const w: array<int>

    predicate Valid()
      reads this
    {
      && |k| == 64 && w.Length == 64
      && (forall t :: 0 <= t < 64 ==> IsWord(k[t]))
      && Current().Words()
    }

    function Current(): (s: Vars)
      reads this
    {
      Vars(a, b, c, d, e, f, g, h)
    }

    /** The intermediate hash value as unsigned words. */
    ghost function Value(): (s: Working)
      reads this
      ensures s.InRange(32)
    {
      Current().Value()
    }

    constructor (k: seq<int>)
      requires |k| == 64 && forall t :: 0 <= t < 64 ==> IsWord(k[t])
      ensures Valid() && fresh(w) && this.k == k
      ensures Value() == INITIAL
    {
      this.k := k;
      w := new int[64];
      a, b, c, d := 0x6a09e667, 0xbb67ae85, 0x3c6ef372, 0xa54ff53a;
      e, f, g, h := 0x510e527f, 0x9b05688c, 0x1f83d9ab, 0x5be0cd19;
    }

    /** The block function: the schedule, sixty-four rounds, and the final addition. */
    method Update(block: array<Byte>)
      requires Valid() && block.Length == 64 && (block as object) != (w as object)
      modifies this, w
      ensures Valid() && Current().Signed()
      ensures Value() == Compress(SHA256, Table(k), old(Value()), Words(block[..], 4))
    {
      hide U32, Table, Schedule, Rounds, NextVars, Truncated, Truncate, Compress, Words, Vars.Value;
      ghost var M := Words(block[..], 4);
      ghost var K := Table(k);
      var s := Truncated(Current());
      TruncatedSame(Current());
      ghost var start := s.Value();
      NoRounds(K, M, start);
      FillSchedule(block);
      assert block[..] == old(block[..]);
      var y := 0;
      while y < 64
        invariant 0 <= y <= 64
        invariant Valid() && s.Words() && Current() == old(Current())
        invariant forall t :: 0 <= t < 64 ==> U32(w[t]) == Schedule(SHA256, M, t)
        invariant forall t :: 0 <= t < 64 ==> IsInt32(w[t])
        invariant s.Value() == Rounds(SHA256, K, M, start, y)
      {
        RoundStep(k, M, start, y, s, w[y]);
        s := NextVars(s, k[y], w[y]);
        y := y + 1;
      }
      FinalAddition(K, M, start, Current(), s);
      AddInto(s);
    }

    /** _hash: the eight words, laid out big-endian. */
    method HashBytes() returns (out: array<Byte>)
      requires Valid() && Current().Signed()
      ensures fresh(out) && out[..] == Digest(SHA256, Value())
    {
      hide BeBytes, U32;
      out := WriteWords([a, b, c, d, e, f, g, h]);
      LayOut(Current());
    }

    /** The final addition. */
    method AddInto(s: Vars)
      requires Current().Words() && s.Words()
      modifies this
      ensures Current() == Sum(old(Current()), s)
    {
      hide Truncate, U32;
      a := Truncate(s.a + a);
      b := Truncate(s.b + b);
      c := Truncate(s.c + c);
      d := Truncate(s.d + d);
      e := Truncate(s.e + e);
      f := Truncate(s.f + f);
      g := Truncate(s.g + g);
      h := Truncate(s.h + h);
    }

    /** The message schedule, filled in place. */
    method FillSchedule(block: array<Byte>)
      requires w.Length == 64 && block.Length == 64 && (block as object) != (w as object)
      modifies w
      ensures forall t :: 0 <= t < 64 ==> IsInt32(w[t])
      ensures forall t :: 0 <= t < 64 ==> U32(w[t]) == Schedule(SHA256, Words(block[..], 4), t)
    {
      hide U32, Schedule, NextEntry, ReadInt32BE, Words;
      ghost var M := Words(block[..], 4);
      var v := 0;
      while v < 16
        invariant 0 <= v <= 16
        invariant forall t :: 0 <= t < v ==> IsInt32(w[t]) && U32(w[t]) == Schedule(SHA256, M, t)
      {
        w[v] := ReadInt32BE(block[..], 4 * v);
        BlockWord(M, block[..], v);
        v := v + 1;
      }
      while v < 64
        invariant 16 <= v <= 64
        invariant forall t :: 0 <= t < v ==> IsInt32(w[t]) && U32(w[t]) == Schedule(SHA256, M, t)
      {
        ScheduleStep(M, v, w[v - 15], w[v - 7], w[v - 2], w[v - 16]);
        w[v] := NextEntry(w[v - 15], w[v - 7], w[v - 2], w[v - 16]);
        v := v + 1;
      }
    }
  }

  lemma BlockWord(M: seq<nat>, b: seq<Byte>, t: nat)
    requires |b| == 64 && t < 16 && M == Words(b, 4)
    ensures U32(ReadInt32BE(b, 4 * t)) == Schedule(SHA256, M, t)
  {
    hide ReadInt32BE, BeValue, U32;
    ReadInt32BEValue(b, 4 * t);
    assert M[t] == BeValue(Slice(b, t * 4, 4));
  }
}
