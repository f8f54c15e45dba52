/** Bytes and big-endian numbers. */
module Bytes {
  type Byte = x: int | 0 <= x < 256

  function Pow256(n: nat): (p: nat)
    ensures p > 0
  {
    if n == 0 then 1 else 256 * Pow256(n - 1)
  }

  /** The number whose big-endian bytes are s. */
  function BeValue(s: seq<Byte>): (x: nat)
  {
    if s == [] then 0 else BeValue(s[..|s| - 1]) * 256 + s[|s| - 1]
  }

  /** The low n bytes of x, most significant first. */
  function BeBytes(n: nat, x: nat): (s: seq<Byte>)
    ensures |s| == n
  {
    if n == 0 then [] else BeBytes(n - 1, x / 256) + [x % 256]
  }

  function Zeros(n: nat): (s: seq<Byte>)
    ensures |s| == n
  {
    seq(n, i => 0)
  }

  lemma {:induction false} BeBytesOfValue(s: seq<Byte>)
    ensures BeBytes(|s|, BeValue(s)) == s
  {
    if s == [] {
    } else {
      BeBytesOfValue(s[..|s| - 1]);
    }
  }

  lemma {:induction false} BeValueOfBytes(n: nat, x: nat)
    requires x < Pow256(n)
    ensures BeValue(BeBytes(n, x)) == x
  {
    if n == 0 {
    } else {
      BeValueOfBytes(n - 1, x / 256);
      assert BeBytes(n, x)[..n - 1] == BeBytes(n - 1, x / 256);
    }
  }

  lemma BeValueOfFour(s: seq<Byte>)
    requires |s| == 4
    ensures BeValue(s) == 0x100_0000 * (s[0] as int) + 0x1_0000 * (s[1] as int) + 0x100 * (s[2] as int) + s[3] as int
  {
    var s3, s2, s1 := s[..3], s[..2], s[..1];
    assert s3[..2] == s2 && s2[..1] == s1 && s1[..0] == [];
    assert BeValue(s1) == s[0];
    assert BeValue(s2) == BeValue(s1) * 256 + s[1];
    assert BeValue(s3) == BeValue(s2) * 256 + s[2];
  }

  /** A big-endian number is its high part scaled by the size of its low part, plus the low part. */
  lemma {:induction false} BeValueAppend(s: seq<Byte>, t: seq<Byte>)
    ensures BeValue(s + t) == BeValue(s) * Pow256(|t|) + BeValue(t)
  {
    if t == [] {
      assert s + t == s;
    } else {
      var n := |t| - 1;
      BeValueAppend(s, t[..n]);
      assert (s + t)[..|s + t| - 1] == s + t[..n];
      assert (BeValue(s) * Pow256(n) + BeValue(t[..n])) * 256 == BeValue(s) * (256 * Pow256(n)) + BeValue(t[..n]) * 256;
    }
  }

  /** Big-endian bytes of a number made of a high and a low part. */
  lemma {:induction false} BeBytesAppend(m: nat, hi: nat, n: nat, lo: nat)
    requires lo < Pow256(n)
    ensures BeBytes(m + n, hi * Pow256(n) + lo) == BeBytes(m, hi) + BeBytes(n, lo)
  {
    if n == 0 {
      assert hi * Pow256(0) + lo == hi;
    } else {
      var p := Pow256(n - 1);
      var x := hi * Pow256(n) + lo;
      assert x == (hi * p) * 256 + lo by { assert hi * (256 * p) == (hi * p) * 256; }
      assert x / 256 == hi * p + lo / 256 && x % 256 == lo % 256;
      BeBytesAppend(m, hi, n - 1, lo / 256);
    }
  }

  lemma {:induction false} BeBytesOfZero(n: nat)
    ensures BeBytes(n, 0) == Zeros(n)
  {
    if n == 0 {
    } else {
      BeBytesOfZero(n - 1);
    }
  }

  /** The sixteen big-endian words of a block. */
  function Words(s: seq<Byte>, size: nat): (r: seq<nat>)
    requires |s| == 16 * size
    ensures |r| == 16
  {
    seq(16, i requires 0 <= i < 16 => BeValue(Slice(s, i * size, size)))
  }

  function Slice(s: seq<Byte>, from: nat, size: nat): (r: seq<Byte>)
    requires from + size <= |s|
    ensures |r| == size
  {
    s[from..from + size]
  }
}
