/** Searching a Buffer for bytes (module 8764, `E` and its caller), with elements of one byte. */
module ByteSearch {
  import opened Bytes

  /** The needle stands at place k. */
  predicate Matches(arr: seq<Byte>, val: seq<Byte>, k: int) {
    0 <= k && k + |val| <= |arr| && arr[k..k + |val|] == val
  }

  /** r is the first match at or after `from`, or -1 when there is none. */
  ghost predicate IsFirst(arr: seq<Byte>, val: seq<Byte>, from: int, r: int) {
    if r == -1 then forall k :: k >= from ==> !Matches(arr, val, k)
    else r >= from && Matches(arr, val, r) && forall k :: from <= k < r ==> !Matches(arr, val, k)
  }

  /** r is the last match at or before `from`, or -1 when there is none. */
  ghost predicate IsLast(arr: seq<Byte>, val: seq<Byte>, from: int, r: int) {
    if r == -1 then forall k :: k <= from ==> !Matches(arr, val, k)
    else r <= from && Matches(arr, val, r) && forall k :: r < k <= from ==> !Matches(arr, val, k)
  }

  /** There is one answer at most. */
  lemma FirstAndLastAreUnique(arr: seq<Byte>, val: seq<Byte>, from: int, r: int, q: int)
    ensures IsFirst(arr, val, from, r) && IsFirst(arr, val, from, q) ==> r == q
    ensures IsLast(arr, val, from, r) && IsLast(arr, val, from, q) ==> r == q
  {
    hide Matches;
  }

  /** The forward loop of `E`: a mismatch sets the index back to the place where the partial match began. */
  method SearchForward(arr: seq<Byte>, val: seq<Byte>, byteOffset: nat) returns (r: int)
    requires val != []
    ensures IsFirst(arr, val, byteOffset, r)
  {
    var foundIndex := -1;
    var i: int := byteOffset;
    while i < |arr|
      invariant byteOffset <= i
      invariant foundIndex != -1 ==>
                  && byteOffset <= foundIndex < i <= |arr| && i - foundIndex < |val|
                  && arr[foundIndex..i] == val[..i - foundIndex]
      invariant forall k :: byteOffset <= k < (if foundIndex == -1 then i else foundIndex) ==> !Matches(arr, val, k)
      decreases |arr| - (if foundIndex == -1 then i else foundIndex), |arr| - i
    {
      var start := if foundIndex == -1 then i else foundIndex;
      assert arr[start..i] == val[..i - start];
      if arr[i] == val[if foundIndex == -1 then 0 else i - foundIndex] {
        OneMoreByte(arr, val, start, i);
        if foundIndex == -1 {
          foundIndex := i;
        }
        if i - foundIndex + 1 == |val| {
          return foundIndex;
        }
      } else {
        Mismatch(arr, val, start, i);
        if foundIndex != -1 {
          i := i - (i - foundIndex);
        }
        foundIndex := -1;
      }
      i := i + 1;
    }
    NoRoom(arr, val, if foundIndex == -1 then i else foundIndex, i);
    return -1;
  }

  lemma OneMoreByte(arr: seq<Byte>, val: seq<Byte>, start: nat, i: nat)
    requires start <= i < |arr| && i - start < |val| && arr[start..i] == val[..i - start] && arr[i] == val[i - start]
    ensures arr[start..i + 1] == val[..i + 1 - start]
    ensures i - start + 1 == |val| ==> Matches(arr, val, start)
  {
    assert arr[start..i + 1] == arr[start..i] + [arr[i]];
    assert val[..i + 1 - start] == val[..i - start] + [val[i - start]];
    assert val[..|val|] == val;
  }

  lemma MatchAt(arr: seq<Byte>, val: seq<Byte>, k: nat, j: nat)
    requires Matches(arr, val, k) && j < |val|
    ensures arr[k + j] == val[j]
  {
    assert arr[k..k + |val|][j] == arr[k + j];
  }

  lemma Mismatch(arr: seq<Byte>, val: seq<Byte>, start: nat, i: nat)
    requires start <= i < |arr| && i - start < |val| && arr[i] != val[i - start]
    ensures !Matches(arr, val, start)
  {
    if Matches(arr, val, start) {
      MatchAt(arr, val, start, i - start);
    }
  }

  /** A partial match at the end leaves no room for a whole one. */
  lemma NoRoom(arr: seq<Byte>, val: seq<Byte>, start: int, i: int)
    requires val != [] && start <= i && i >= |arr| && (start < i ==> i - start < |val| && i == |arr|)
    ensures forall k :: k >= start ==> !Matches(arr, val, k)
  {
  }

  /** The backward loop of `E`. */
  method SearchBackward(arr: seq<Byte>, val: seq<Byte>, byteOffset: int) returns (r: int)
    requires byteOffset < |arr|
    ensures IsLast(arr, val, byteOffset, r)
  {
    var from := byteOffset;
    if from + |val| > |arr| {
      from := |arr| - |val|;
    }
    var i := from;
    while i >= 0
      invariant i <= from
      invariant forall k :: i < k <= from ==> !Matches(arr, val, k)
    {
      var found, j := true, 0;
      while j < |val|
        invariant 0 <= j <= |val| && found && arr[i..i + j] == val[..j]
      {
        if arr[i + j] != val[j] {
          Mismatch(arr, val, i, i + j);
          found := false;
          break;
        }
        OneMoreByte(arr, val, i, i + j);
        j := j + 1;
      }
      if found {
        assert val[..|val|] == val;
        return i;
      }
      i := i - 1;
    }
    return -1;
  }

  // ----- Offsets -----

  /** An offset as a caller gives it: a whole number, or something that is not a number. */
  datatype Offset = NotANumber | Number(value: int)

  /** Where a search may begin: a negative offset counts from the end, and what is not a number means the whole buffer. */
  function Start(length: nat, offset: Offset, forward: bool): (from: int) {
    if offset.NotANumber? then (if forward then 0 else length - 1)
    else if offset.value < 0 then length + offset.value
    else offset.value
  }

  /** Offsets are limited to 32 bits. */
  function Clamped(value: int): (r: int) {
    if value > 0x7fff_ffff then 0x7fff_ffff else if value < -0x8000_0000 then -0x8000_0000 else value
  }

  /** indexOf and lastIndexOf for a needle of bytes: an empty one is never found. */
  method BidirectionalIndexOf(arr: seq<Byte>, val: seq<Byte>, byteOffset: Offset, forward: bool) returns (r: int)
    requires |arr| <= 0x7fff_ffff
    ensures val == [] ==> r == -1
    ensures val != [] && forward ==> IsFirst(arr, val, Start(|arr|, byteOffset, forward), r)
    ensures val != [] && !forward ==> IsLast(arr, val, Start(|arr|, byteOffset, forward), r)
  {
    hide IsFirst, IsLast;
    if |arr| == 0 {
      NothingThere(arr, val, Start(|arr|, byteOffset, forward));
      return -1;
    }
    var from: int;
    match byteOffset {
      case NotANumber => from := if forward then 0 else |arr| - 1;
      case Number(value) => from := Clamped(value);
    }
    if from < 0 {
      from := |arr| + from;
    }
    if from >= |arr| {
      if forward {
        PastTheEnd(arr, val, Start(|arr|, byteOffset, forward));
        return -1;
      }
      from := |arr| - 1;
    } else if from < 0 {
      if !forward {
        BeforeTheStart(arr, val, Start(|arr|, byteOffset, forward));
        return -1;
      }
      from := 0;
    }
    if |val| == 0 {
      return -1;
    }
    if forward {
      r := SearchForward(arr, val, from);
      SameFirst(arr, val, from, Start(|arr|, byteOffset, forward), r);
    } else {
      r := SearchBackward(arr, val, from);
      SameLast(arr, val, from, Start(|arr|, byteOffset, forward), r);
    }
  }

  lemma NothingThere(arr: seq<Byte>, val: seq<Byte>, from: int)
    requires arr == []
    ensures val != [] ==> IsFirst(arr, val, from, -1) && IsLast(arr, val, from, -1)
  {
  }

  lemma PastTheEnd(arr: seq<Byte>, val: seq<Byte>, from: int)
    requires from >= |arr|
    ensures val != [] ==> IsFirst(arr, val, from, -1)
  {
  }

  lemma BeforeTheStart(arr: seq<Byte>, val: seq<Byte>, from: int)
    requires from < 0
    ensures IsLast(arr, val, from, -1)
  {
  }

  /** There are no matches before 0 or from the length on. */
  lemma SameFirst(arr: seq<Byte>, val: seq<Byte>, from: int, given: int, r: int)
    requires val != [] && IsFirst(arr, val, from, r) && (given == from || (given < 0 && from == 0))
    ensures IsFirst(arr, val, given, r)
  {
  }

  lemma SameLast(arr: seq<Byte>, val: seq<Byte>, from: int, given: int, r: int)
    requires val != [] && IsLast(arr, val, from, r) && (given == from || (given >= |arr| && from == |arr| - 1))
    ensures IsLast(arr, val, given, r)
  {
  }
}
