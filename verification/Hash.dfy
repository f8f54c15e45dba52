/** Module 4189: the block buffer shared by the hashes, with its two subclasses from modules 7499 and 7816.
    The prototype chain is a datatype: `_update` and `_hash` are dispatched on the kind of the core. */
module Hash {
  import opened JsNumbers
  import opened Bytes
  import opened BufferWords
  import F = Fips180
  import Sha256
  import Sha512
  import Sha512Pairs
  import Sha2Constants

  // ----- Facts about FIPS 180-4 block hashing -----

  /** How many of n bytes wait in the block buffer. */
  function Pending(v: F.Variant, n: nat): (r: nat)
    requires F.Known(v)
    ensures r < F.BlockBytes(v) && r <= n
    ensures F.WholeBlocks(v, n - r)
  {
    if v == F.SHA256 then n % 64 else n % 128
  }

  /** Taking in k more bytes moves the fill mark, and wraps it exactly when the block is full. */
  lemma PendingMoves(v: F.Variant, n: nat, k: nat)
    requires F.Known(v) && Pending(v, n) + k <= F.BlockBytes(v)
    ensures Pending(v, n + k) == if Pending(v, n) + k < F.BlockBytes(v) then Pending(v, n) + k else 0
  {
    Moves64(n, k);
    Moves128(n, k);
  }

  lemma Moves64(n: nat, k: nat)
    ensures n % 64 + k < 64 ==> (n + k) % 64 == n % 64 + k
    ensures n % 64 + k == 64 ==> (n + k) % 64 == 0
  {
  }

  lemma Moves128(n: nat, k: nat)
    ensures n % 128 + k < 128 ==> (n + k) % 128 == n % 128 + k
    ensures n % 128 + k == 128 ==> (n + k) % 128 == 0
  {
  }

  lemma AppendBlock(v: F.Variant, K: seq<nat>, H: F.Working, s: seq<Byte>, b: seq<Byte>)
    requires F.Known(v) && H.InRange(v.w) && |K| == v.rounds
    requires F.WholeBlocks(v, |s|) && |b| == F.BlockBytes(v)
    ensures F.WholeBlocks(v, |s + b|)
    ensures F.HashBlocks(v, K, H, s + b)
         == F.Compress(v, K, F.HashBlocks(v, K, H, s), Words(b, F.WordBytes(v)))
  {
    hide F.HashBlocks, F.Compress, Words, F.WholeBlocks, F.WordBytes, F.BlockBytes, F.Known, F.Working.InRange;
    F.OneBlockLess(v, |s|);
    LastBlock(v, K, H, s + b);
    assert (s + b)[..|s|] == s && (s + b)[|s|..] == b;
  }

  lemma LastBlock(v: F.Variant, K: seq<nat>, H: F.Working, s: seq<Byte>)
    requires F.Known(v) && H.InRange(v.w) && |K| == v.rounds
    requires F.WholeBlocks(v, |s|) && |s| >= F.BlockBytes(v) && F.WholeBlocks(v, |s| - F.BlockBytes(v))
    ensures var n := |s| - F.BlockBytes(v);
            F.HashBlocks(v, K, H, s) == F.Compress(v, K, F.HashBlocks(v, K, H, s[..n]), Words(s[n..], F.WordBytes(v)))
  {
    hide F.Compress, Words, F.WholeBlocks, F.WordBytes, F.BlockBytes, F.Known, F.Working.InRange;
    BlocksAreLarge(v);
  }

  lemma BlocksAreLarge(v: F.Variant)
    requires F.Known(v)
    ensures 64 <= F.BlockBytes(v) <= 128
  {
  }

  /** Where the length field starts in the last block. */
  function FinalSize(v: F.Variant): (n: nat) {
    v.w / 4 * 7
  }

  function LengthField(v: F.Variant, n: nat): (r: seq<Byte>) {
    BeBytes(v.w / 4, 8 * n)
  }

  /** The pending bytes leave room for the length: padding makes one more block of them. */
  lemma PadInOneBlock(v: F.Variant, m: seq<Byte>)
    requires F.Known(v)
    requires Pending(v, |m|) < FinalSize(v)
    ensures var p := Pending(v, |m|);
            F.Pad(v, m) == m[..|m| - p] + (m[|m| - p..] + [0x80] + Zeros(FinalSize(v) - 1 - p) + LengthField(v, |m|))
  {
    var p := Pending(v, |m|);
    PaddingFits(v, |m|);
    hide F.PadZeroBytes, BeBytes, Zeros, Pending, F.WholeBlocks, F.Known, F.WordBytes, FinalSize;
    RegroupOne(m, m[..|m| - p], m[|m| - p..], Zeros(FinalSize(v) - 1 - p), LengthField(v, |m|));
  }

  /** They do not: padding makes two more blocks. */
  lemma PadInTwoBlocks(v: F.Variant, m: seq<Byte>)
    requires F.Known(v)
    requires Pending(v, |m|) >= FinalSize(v)
    ensures var p := Pending(v, |m|);
            F.Pad(v, m) == m[..|m| - p] + (m[|m| - p..] + [0x80] + Zeros(F.BlockBytes(v) - 1 - p))
                                        + (Zeros(FinalSize(v)) + LengthField(v, |m|))
  {
    var p := Pending(v, |m|);
    PaddingFits(v, |m|);
    hide F.PadZeroBytes, BeBytes, Zeros, Pending, F.WholeBlocks, F.Known, F.WordBytes, F.BlockBytes, FinalSize;
    var y, z := Zeros(F.BlockBytes(v) - 1 - p), Zeros(FinalSize(v));
    ZerosAppend(F.BlockBytes(v) - 1 - p, FinalSize(v));
    RegroupTwo(m, m[..|m| - p], m[|m| - p..], y, z, LengthField(v, |m|));
  }

  lemma RegroupOne(m: seq<Byte>, s: seq<Byte>, t: seq<Byte>, z: seq<Byte>, length: seq<Byte>)
    requires m == s + t
    ensures m + [0x80] + z + length == s + (t + [0x80] + z + length)
  {
  }

  lemma RegroupTwo(m: seq<Byte>, s: seq<Byte>, t: seq<Byte>, y: seq<Byte>, z: seq<Byte>, length: seq<Byte>)
    requires m == s + t
    ensures m + [0x80] + (y + z) + length == s + (t + [0x80] + y) + (z + length)
  {
  }

  lemma ZerosAppend(a: nat, b: nat)
    ensures Zeros(a) + Zeros(b) == Zeros(a + b)
  {
  }

  lemma PaddingFits(v: F.Variant, n: nat)
    requires F.Known(v)
    ensures var p, final := Pending(v, n), FinalSize(v);
            F.PadZeroBytes(v, n) == if p < final then final - 1 - p else F.BlockBytes(v) - 1 - p + final
  {
    F.PadZeros256(n);
    F.PadZeros512(n);
    Fits(n);
  }

  lemma Fits(n: nat)
    ensures (55 - n) % 64 == if n % 64 < 56 then 55 - n % 64 else 119 - n % 64
    ensures (111 - n) % 128 == if n % 128 < 112 then 111 - n % 128 else 239 - n % 128
  {
    var q, p := n / 64, n % 64;
    var r := if p < 56 then 55 - p else 119 - p;
    DivMod(55 - n, 64, if p < 56 then -q else -q - 1, r);
    q, p := n / 128, n % 128;
    r := if p < 112 then 111 - p else 239 - p;
    DivMod(111 - n, 128, if p < 112 then -q else -q - 1, r);
  }

  // ----- The two subclasses -----

  /** The round constants of the two algorithms, from the bundle's tables. */
  function Constants(v: F.Variant): (K: seq<nat>)
    requires F.Known(v)
    ensures |K| == v.rounds
  {
    Sha2Constants.TablesAreWords();
    if v == F.SHA256 then Sha256.Table(Sha2Constants.K256) else Sha512.JoinTable(Sha2Constants.K512)
  }

  function InitialValue(v: F.Variant): (H: F.Working)
    requires F.Known(v)
    ensures H.InRange(v.w)
  {
    InitialInRange();
    if v == F.SHA256 then Sha256.INITIAL else Sha512.INITIAL
  }

  lemma InitialInRange()
    ensures Sha256.INITIAL.InRange(32) && Sha512.INITIAL.InRange(64)
  {
    Pow2Of32();
    Sha512Pairs.JoinBelow(0, 0);
  }

  /** The hash of m as FIPS 180-4 defines it. */
  ghost function HashOf(v: F.Variant, m: seq<Byte>): (r: F.Working)
    requires F.Known(v)
  {
    F.Hash(v, Constants(v), InitialValue(v), m)
  }

  ghost function BlocksOf(v: F.Variant, s: seq<Byte>): (r: F.Working)
    requires F.Known(v) && F.WholeBlocks(v, |s|)
    ensures r.InRange(v.w)
  {
    F.HashBlocks(v, Constants(v), InitialValue(v), s)
  }

  datatype Core = Core256(s256: Sha256.State) | Core512(s512: Sha512.State)
  {
    function Variant(): (v: F.Variant)
      ensures F.Known(v)
    {
      if Core256? then F.SHA256 else F.SHA512
    }

    function Parts(): (r: set<object>)
    {
      if Core256? then {s256, s256.w} else {s512, s512.w}
    }

    ghost predicate Valid()
      reads Parts()
    {
      if Core256? then s256.Valid() && s256.k == Sha2Constants.K256
      else s512.Valid() && s512.k == Sha2Constants.K512
    }

    /** The current intermediate hash value. */
    ghost function Value(): (s: F.Working)
      reads Parts()
      ensures s.InRange(Variant().w)
    {
      if Core256? then s256.Value() else s512.Value()
    }

    ghost predicate Signed()
      reads Parts()
    {
      if Core256? then s256.Current().Signed() else s512.Signed()
    }
  }

  /** `_update`: runs the block function of the subclass over the block buffer. */
  method RunBlock(core: Core, block: array<Byte>)
    requires core.Valid() && block.Length == F.BlockBytes(core.Variant()) && (block as object) !in core.Parts()
    modifies core.Parts()
    ensures core.Valid() && core.Signed() && block[..] == old(block[..])
    ensures core.Value() == F.Compress(core.Variant(), Constants(core.Variant()), old(core.Value()),
                                       Words(block[..], F.WordBytes(core.Variant())))
  {
    hide Sha256.Table, Sha512.JoinTable, F.Compress, Words;
    match core
    case Core256(s) => s.Update(block);
    case Core512(s) => s.Update(block);
  }

  /** `_hash`, for a core that has run at least one block. */
  method ReadHash(core: Core) returns (out: array<Byte>)
    requires core.Valid() && core.Signed()
    ensures fresh(out) && out[..] == F.Digest(core.Variant(), core.Value())
  {
    hide F.Digest;
    match core
    case Core256(s) => out := s.HashBytes();
    case Core512(s) => out := s.HashBytes();
  }

  /** The core has taken in the whole blocks of m, and the block buffer starts with the rest. */
  ghost predicate Holds(core: Core, block: array<Byte>, m: seq<Byte>)
    reads core.Parts(), block
  {
    var v := core.Variant();
    var p := Pending(v, |m|);
    && block.Length == F.BlockBytes(v)
    && block[..p] == m[|m| - p..]
    && core.Value() == BlocksOf(v, m[..|m| - p])
  }

  /** As Holds, and the pending bytes are followed by the one bit and zeros. */
  ghost predicate Marked(core: Core, block: array<Byte>, m: seq<Byte>)
    reads core.Parts(), block
  {
    var v := core.Variant();
    var p := Pending(v, |m|);
    && block.Length == F.BlockBytes(v)
    && block[..] == m[|m| - p..] + [0x80] + Zeros(block.Length - p - 1)
    && core.Value() == BlocksOf(v, m[..|m| - p])
  }

  /** The core has taken in start, and the padded m is start and one block, of which only the length field
      is missing in the buffer. */
  ghost predicate AwaitsLength(core: Core, block: array<Byte>, m: seq<Byte>, start: seq<Byte>)
    reads core.Parts(), block
  {
    hide Core.Value, BlocksOf, F.Pad, LengthField, Zeros, F.WholeBlocks, F.Working.InRange;
    var v := core.Variant();
    && block.Length == F.BlockBytes(v)
    && F.WholeBlocks(v, |start|)
    && core.Value() == BlocksOf(v, start)
    && block[FinalSize(v)..] == Zeros(v.w / 4)
    && F.Pad(v, m) == start + (block[..FinalSize(v)] + LengthField(v, |m|))
  }

  lemma NoBlocks(v: F.Variant)
    requires F.Known(v)
    ensures Pending(v, 0) == 0 && BlocksOf(v, []) == InitialValue(v)
  {
    hide Constants;
  }

  lemma RemainderIsPending(v: F.Variant, n: nat, size: nat)
    requires F.Known(v) && size == F.BlockBytes(v)
    ensures size > 0 && n % size == Pending(v, n)
  {
  }

  /** The inner loop of `update`: i bytes of data, from u on, go into the block from s on. */
  method CopyIn(block: array<Byte>, s: nat, data: seq<Byte>, u: nat, i: nat)
    requires s + i <= block.Length && u + i <= |data|
    modifies block
    ensures block[..s] == old(block[..s])
    ensures block[..s + i] == old(block[..s]) + data[u..u + i]
  {
    var c := 0;
    while c < i
      invariant 0 <= c <= i
      invariant block[..s] == old(block[..s])
      invariant block[s..s + c] == data[u..u + c]
    {
      block[s + c] := data[u + c];
      c := c + 1;
    }
    assert block[..s + i] == block[..s] + block[s..s + i];
  }

  /** Running a full block extends the hashed blocks by it. */
  lemma RunAppends(v: F.Variant, s: seq<Byte>, b: seq<Byte>)
    requires F.Known(v) && F.WholeBlocks(v, |s|) && |b| == F.BlockBytes(v)
    ensures F.WholeBlocks(v, |s + b|)
    ensures BlocksOf(v, s + b) == F.Compress(v, Constants(v), BlocksOf(v, s), Words(b, F.WordBytes(v)))
  {
    hide Constants, F.Compress, Words, InitialValue;
    AppendBlock(v, Constants(v), InitialValue(v), s, b);
  }

  /** What the copied bytes are, in terms of everything seen so far. */
  lemma CopiedIn(v: F.Variant, seen: seq<Byte>, piece: seq<Byte>, b: seq<Byte>)
    requires F.Known(v) && |b| == F.BlockBytes(v)
    requires var s := Pending(v, |seen|);
             && 0 < |piece| <= |b| - s
             && b[..s + |piece|] == seen[|seen| - s..] + piece
    ensures var s, all := Pending(v, |seen|), seen + piece;
            && all[..|seen| - s] == seen[..|seen| - s]
            && b[..s + |piece|] == all[|seen| - s..]
            && (s + |piece| < |b| ==> Pending(v, |all|) == s + |piece|)
            && (s + |piece| == |b| ==> Pending(v, |all|) == 0 && all == all[..|seen| - s] + b)
  {
    PendingMoves(v, |seen|, |piece|);
    hide Pending, F.BlockBytes;
  }

  /** `fill(0, from)` */
  method Fill(block: array<Byte>, from: nat)
    requires from <= block.Length
    modifies block
    ensures block[..] == old(block[..from]) + Zeros(block.Length - from)
  {
    var i := from;
    while i < block.Length
      invariant from <= i <= block.Length
      invariant block[..from] == old(block[..from])
      invariant forall j :: from <= j < i ==> block[j] == 0
    {
      block[i] := 0;
      i := i + 1;
    }
    assert block[..] == block[..from] + block[from..];
    assert block[from..] == Zeros(block.Length - from);
  }

  /** The length field in terms of the two 32-bit numbers that `digest` writes. */
  lemma LengthInHalves(v: F.Variant, n: nat, high: nat, low: nat)
    requires F.Known(v) && 8 * n == high * TWO_32 + low && low < TWO_32 && high < TWO_32
    ensures LengthField(v, n) == Zeros(v.w / 4 - 8) + BeBytes(4, high) + BeBytes(4, low)
  {
    hide BeBytes, Zeros;
    assert Pow256(4) == TWO_32;
    BeBytesAppend(v.w / 4 - 4, high, 4, low);
    BeBytesAppend(v.w / 4 - 8, 0, 4, high);
    BeBytesOfZero(v.w / 4 - 8);
  }

  /** The last part of `digest`: the length in bits goes into the last eight bytes. It is a multiple of
      eight below 2^57, so that the split into a high and a low word is exact. */
  method WriteLength(block: array<Byte>, blockSize: nat, len: nat, ghost v: F.Variant)
    requires F.Known(v) && blockSize == F.BlockBytes(v) == block.Length && len <= TWO_53
    requires block[FinalSize(v)..] == Zeros(v.w / 4)
    modifies block
    ensures block[..] == old(block[..FinalSize(v)]) + LengthField(v, len)
  {
    hide F.Known, F.WordBytes, F.BlockBytes, BeBytes, BitAnd, U32, Zeros, LengthField, FinalSize;
    BlocksAreLarge(v);
    ghost var b := block[..];
    var bits := 8 * len;
    if bits <= 0xffff_ffff {
      SmallWord(blockSize - 4);
      var ok := WriteUInt32BE(block, bits, blockSize - 4);
      ShortTail(v, b, len);
    } else {
      var lowBits := U32(BitAnd(0xffff_ffff, bits));
      LengthWords(v, len);
      var highBits := (bits - lowBits) / 0x1_0000_0000;
      WriteTwoWords(block, blockSize, highBits, lowBits);
      LongTail(v, b, len, highBits, lowBits);
    }
  }

  lemma ShortTail(v: F.Variant, b: seq<Byte>, len: nat)
    requires F.Known(v) && |b| == F.BlockBytes(v) && b[FinalSize(v)..] == Zeros(v.w / 4) && 8 * len < TWO_32
    ensures b[..|b| - 4] + BeBytes(4, 8 * len) == b[..FinalSize(v)] + LengthField(v, len)
  {
    ZeroTail(v, b);
    BeBytesOfZero(4);
    LengthInHalves(v, len, 0, 8 * len);
    hide F.Known, F.WordBytes, F.BlockBytes, BeBytes, Zeros, LengthField, FinalSize;
    Reassociate(b[..FinalSize(v)], Zeros(v.w / 4 - 8), Zeros(4), BeBytes(4, 8 * len));
  }

  lemma LongTail(v: F.Variant, b: seq<Byte>, len: nat, high: nat, low: nat)
    requires F.Known(v) && |b| == F.BlockBytes(v) && b[FinalSize(v)..] == Zeros(v.w / 4)
    requires LengthField(v, len) == Zeros(v.w / 4 - 8) + BeBytes(4, high) + BeBytes(4, low)
    ensures b[..|b| - 8] + BeBytes(4, high) + BeBytes(4, low) == b[..FinalSize(v)] + LengthField(v, len)
  {
    ZeroTail(v, b);
    hide F.Known, F.WordBytes, F.BlockBytes, BeBytes, Zeros, LengthField, FinalSize;
    Reassociate(b[..FinalSize(v)], Zeros(v.w / 4 - 8), BeBytes(4, high), BeBytes(4, low));
  }

  lemma Reassociate(a: seq<Byte>, z: seq<Byte>, x: seq<Byte>, y: seq<Byte>)
    ensures (a + z) + x + y == a + (z + x + y)
  {
  }

  method WriteTwoWords(block: array<Byte>, blockSize: nat, highBits: nat, lowBits: nat)
    requires 8 <= blockSize == block.Length < TWO_31 && highBits < TWO_32 && lowBits < TWO_32
    modifies block
    ensures block[..] == old(block[..blockSize - 8]) + BeBytes(4, highBits) + BeBytes(4, lowBits)
  {
    hide BeBytes, U32;
    SmallWord(blockSize - 8);
    SmallWord(blockSize - 4);
    var ok := WriteUInt32BE(block, highBits, blockSize - 8);
    assert block[..blockSize - 4] == old(block[..blockSize - 8]) + BeBytes(4, highBits);
    ok := WriteUInt32BE(block, lowBits, blockSize - 4);
  }

  lemma LengthWords(v: F.Variant, len: nat)
    requires F.Known(v) && len <= TWO_53
    ensures var low := U32(BitAnd(0xffff_ffff, 8 * len));
            var high := (8 * len - low) / TWO_32;
            && 0 <= high < TWO_32 && 0 <= low < TWO_32
            && LengthField(v, len) == Zeros(v.w / 4 - 8) + BeBytes(4, high) + BeBytes(4, low)
  {
    hide F.Known, LengthField, BeBytes, Zeros, F.WordBytes, BitAnd, U32;
    LowBits(8 * len);
    var low := U32(BitAnd(0xffff_ffff, 8 * len));
    LengthInHalves(v, len, (8 * len - low) / TWO_32, low);
  }

  lemma LowBits(bits: nat)
    requires bits <= 8 * TWO_53
    ensures var low := U32(BitAnd(0xffff_ffff, bits));
            && bits == (bits - low) / TWO_32 * TWO_32 + low
            && 0 <= (bits - low) / TWO_32 < TWO_32
  {
    hide Bitwise, Pow2;
    Pow2Of32();
    AndAllOnes(32, U32(bits));
    assert U32(0xffff_ffff) == Pow2(32) - 1;
    var low := U32(BitAnd(0xffff_ffff, bits));
    assert low == bits % TWO_32;
    hide U32, BitAnd;
    DivMod(bits - low, TWO_32, bits / TWO_32, 0);
  }

  lemma ZeroTail(v: F.Variant, b: seq<Byte>)
    requires F.Known(v) && |b| == F.BlockBytes(v) && b[FinalSize(v)..] == Zeros(v.w / 4)
    ensures b[..|b| - 8] == b[..FinalSize(v)] + Zeros(v.w / 4 - 8)
    ensures b[..|b| - 4] == b[..FinalSize(v)] + Zeros(v.w / 4 - 8) + Zeros(4)
  {
    var n := FinalSize(v);
    assert forall i :: n <= i < |b| ==> b[i] == b[n..][i - n] == 0;
  }

  lemma FillIsZero(v: F.Variant, s: seq<Byte>, b: seq<Byte>)
    requires F.Known(v) && |b| == F.BlockBytes(v) && |s| <= FinalSize(v)
    requires b == s + Zeros(|b| - |s|)
    ensures b[..FinalSize(v)] == s + Zeros(FinalSize(v) - |s|)
    ensures b[FinalSize(v)..] == Zeros(v.w / 4)
  {
  }

  lemma ZeroBlock(v: F.Variant, b: seq<Byte>)
    requires F.Known(v) && b == Zeros(F.BlockBytes(v))
    ensures b[..FinalSize(v)] == Zeros(FinalSize(v))
    ensures b[FinalSize(v)..] == Zeros(v.w / 4)
  {
  }

  lemma HashIsBlocksOfPad(v: F.Variant, m: seq<Byte>)
    requires F.Known(v)
    ensures HashOf(v, m) == BlocksOf(v, F.Pad(v, m))
  {
    hide Constants, InitialValue, F.Pad, F.HashBlocks;
  }

  class Hash {
    const block: array<Byte>
    const finalSize: nat
    const blockSize: nat
    const core: Core
    var len: nat

    /** Every byte given to `update` so far. */
    ghost var message: seq<Byte>

    ghost predicate Shape()
      reads core.Parts()
    {
      && core.Valid()
      && blockSize == F.BlockBytes(core.Variant()) == block.Length
      && finalSize == FinalSize(core.Variant())
      && (block as object) !in core.Parts()
      && (this as object) !in core.Parts()
    }

    ghost predicate Valid()
      reads this, core.Parts(), block
    {
      && Shape()
      && len == |message|
      && Holds(core, block, message)
    }

    constructor Sha256()
      ensures Valid() && fresh(block) && fresh(core.Parts())
      ensures core.Core256? && message == []
    {
      hide Constants, BlocksOf;
      Sha2Constants.TablesAreWords();
      NoBlocks(F.SHA256);
      var s := new Sha256.State(Sha2Constants.K256);
      core := Core256(s);
      block := new Byte[64](i => 0);
      blockSize, finalSize, len, message := 64, 56, 0, [];
    }

    constructor Sha512()
      ensures Valid() && fresh(block) && fresh(core.Parts())
      ensures core.Core512? && message == []
    {
      hide Constants, BlocksOf;
      Sha2Constants.TablesAreWords();
      NoBlocks(F.SHA512);
      var s := new Sha512.State(Sha2Constants.K512);
      core := Core512(s);
      block := new Byte[128](i => 0);
      blockSize, finalSize, len, message := 128, 112, 0, [];
    }

    /** One turn of the loop of `update`: i bytes are copied in at s, and the block is run if that fills it. */
    method TakeIn(data: seq<Byte>, u: nat, i: nat, o: nat, ghost seen: seq<Byte>)
      requires Shape() && Holds(core, block, seen) && o == |seen|
      requires 0 < i && u + i <= |data| && Pending(core.Variant(), o) + i <= blockSize
      modifies block, core.Parts()
      ensures Shape() && Holds(core, block, seen + data[u..u + i])
    {
      hide Constants, BlocksOf, Pending, Core.Valid, Core.Value, Core.Signed, Core.Variant,
           F.BlockBytes, F.WordBytes, F.Known, F.WholeBlocks, F.Compress, Words, F.Working.InRange;
      ghost var v, value := core.Variant(), core.Value();
      ghost var all := seen + data[u..u + i];
      RemainderIsPending(v, o, blockSize);
      var s := o % blockSize;
      ghost var start := seen[..|seen| - s];
      assert value == BlocksOf(v, start);
      CopyIn(block, s, data, u, i);
      assert core.Value() == value;
      CopiedIn(v, seen, data[u..u + i], block[..]);
      RemainderIsPending(v, o + i, blockSize);
      if (o + i) % blockSize == 0 {
        RunAppends(v, start, block[..]);
        RunBlock(core, block);
        assert all == start + block[..] && Pending(v, |all|) == 0;
        assert all[..|all|] == all;
      } else {
        assert Pending(v, |all|) == s + i;
        assert all[..|all| - (s + i)] == start;
      }
    }

    /** `update`: the bytes go into the block buffer, which is run whenever it fills up. */
    method Update(data: seq<Byte>)
      requires Valid() && len + |data| <= TWO_53
      modifies this`len, this`message, block, core.Parts()
      ensures Valid() && message == old(message) + data
    {
      hide Pending, Holds, Core.Valid, Core.Variant, F.Known, F.BlockBytes;
      var a, l, o, u := blockSize, |data|, len, 0;
      assert message + data[..0] == message;
      while u < l
        invariant 0 <= u <= l && o == len + u
        invariant Shape() && Holds(core, block, message + data[..u])
        invariant len == old(len) == |message| && message == old(message)
      {
        ghost var seen := message + data[..u];
        RemainderIsPending(core.Variant(), o, a);
        var s := o % a;
        var i := if l - u < a - s then l - u else a - s;
        TakeIn(data, u, i, o, seen);
        assert message + data[..u + i] == seen + data[u..u + i];
        u, o := u + i, o + i;
      }
      assert data[..u] == data;
      len := len + l;
      message := message + data;
    }

    /** Runs the full block and clears the buffer. */
    method SpillOver(ghost start: seq<Byte>)
      requires Shape() && F.WholeBlocks(core.Variant(), |start|)
      requires core.Value() == BlocksOf(core.Variant(), start)
      modifies block, core.Parts()
      ensures Shape() && F.WholeBlocks(core.Variant(), |start + old(block[..])|)
      ensures core.Value() == BlocksOf(core.Variant(), start + old(block[..]))
      ensures block[..] == Zeros(blockSize)
    {
      hide Constants, BlocksOf, Core.Valid, Core.Value, Core.Signed, Core.Variant, F.BlockBytes, F.WordBytes,
           F.Known, F.WholeBlocks, F.Compress, Words, F.Working.InRange, Zeros;
      RunAppends(core.Variant(), start, block[..]);
      RunBlock(core, block);
      Fill(block, 0);
    }

    /** The one bit, and zeros up to the end of the block. */
    method MarkEnd(rem: nat)
      requires Valid() && rem == Pending(core.Variant(), len)
      modifies block
      ensures Shape() && Marked(core, block, message)
    {
      hide Constants, BlocksOf, Pending, Core.Valid, Core.Value, Core.Signed, Core.Variant, F.BlockBytes, F.WordBytes,
           F.Known, F.WholeBlocks, F.Working.InRange, Zeros;
      block[rem] := 0x80;
      Fill(block, rem + 1);
    }

    /** The first part of `digest`: the one bit, the zeros, and the block they fill if there is no room
        left for the length. */
    method PadWithZeros() returns (ghost start: seq<Byte>)
      requires Valid()
      modifies block, core.Parts()
      ensures Shape() && AwaitsLength(core, block, message, start)
    {
      hide Constants, BlocksOf, Pending, Core.Valid, Core.Value, Core.Signed, Core.Variant, F.BlockBytes, F.WordBytes,
           F.Known, F.WholeBlocks, F.Compress, F.Pad, Words, F.Working.InRange, Zeros, FinalSize, LengthField, Holds;
      ghost var v, m := core.Variant(), message;
      RemainderIsPending(v, len, blockSize);
      var rem := len % blockSize;
      start := m[..|m| - rem];
      ghost var rest := m[|m| - rem..];
      MarkEnd(rem);
      if rem >= finalSize {
        PadInTwoBlocks(v, m);
        ghost var full := block[..];
        SpillOver(start);
        start := start + full;
        ZeroBlock(v, block[..]);
      } else {
        PadInOneBlock(v, m);
        FillIsZero(v, rest + [0x80], block[..]);
      }
    }

    /** `digest`: pads in the block buffer, runs the last one or two blocks, and reads the hash. */
    method Digest() returns (out: array<Byte>)
      requires Valid() && len <= TWO_53
      modifies block, core.Parts()
      ensures fresh(out)
      ensures out[..] == F.Digest(core.Variant(), HashOf(core.Variant(), message))
    {
      hide BlocksOf, Core.Valid, Core.Value, Core.Signed, Core.Variant, F.BlockBytes, F.WordBytes,
           F.Known, F.WholeBlocks, F.Compress, F.Pad, F.Digest, Words, F.Working.InRange, Zeros, FinalSize, LengthField, Holds;
      ghost var v := core.Variant();
      ghost var start := PadWithZeros();
      WriteLength(block, blockSize, len, v);
      RunAppends(v, start, block[..]);
      RunBlock(core, block);
      HashIsBlocksOfPad(v, message);
      out := ReadHash(core);
    }
  }
}
