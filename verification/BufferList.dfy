/** Module 7327: the list of chunks that a readable stream keeps its data in. It behaves like a queue of bytes. */
module BufferList {
  // ----- The queue of bytes -----

  /** The chunks one after the other. */
  function Flat<T>(chunks: seq<seq<T>>): (r: seq<T>) {
    if chunks == [] then [] else chunks[0] + Flat(chunks[1..])
  }

  /** The chunks without their first n elements: whole chunks go first, and a part of the next one. */
  function Rest<T>(chunks: seq<seq<T>>, n: nat): (r: seq<seq<T>>)
    requires n <= |Flat(chunks)|
  {
    if chunks == [] then []
    else if n < |chunks[0]| then [chunks[0][n..]] + chunks[1..]
    else if n == |chunks[0]| then chunks[1..]
    else Rest(chunks[1..], n - |chunks[0]|)
  }

  lemma {:induction false} FlatAppend<T>(a: seq<seq<T>>, b: seq<seq<T>>)
    ensures Flat(a + b) == Flat(a) + Flat(b)
    decreases |a|
  {
    if a == [] {
      assert a + b == b;
    } else {
      FlatAppend(a[1..], b);
      assert (a + b)[1..] == a[1..] + b;
    }
  }

  lemma FlatOne<T>(chunk: seq<T>)
    ensures Flat([chunk]) == chunk
  {
    assert [chunk][1..] == [];
  }

  /** Cutting the chunks is cutting the bytes. */
  lemma {:induction false} RestIsSuffix<T>(chunks: seq<seq<T>>, n: nat)
    requires chunks != [] && n <= |Flat(chunks)|
    ensures Flat(Rest(chunks, n)) == Flat(chunks)[n..]
  {
    if n < |chunks[0]| {
      FlatAppend([chunks[0][n..]], chunks[1..]);
      FlatOne(chunks[0][n..]);
    } else if n == |chunks[0]| {
    } else {
      RestIsSuffix(chunks[1..], n - |chunks[0]|);
    }
  }

  lemma FlatNone<T>(chunks: seq<seq<T>>)
    ensures Flat(chunks[..0]) == []
  {
  }

  lemma FlatPrefix<T>(chunks: seq<seq<T>>, k: nat)
    requires k < |chunks|
    ensures Flat(chunks[..k + 1]) == Flat(chunks[..k]) + chunks[k]
  {
    hide Flat;
    FlatAppend(chunks[..k], [chunks[k]]);
    FlatOne(chunks[k]);
    assert chunks[..k + 1] == chunks[..k] + [chunks[k]];
  }

  lemma FlatFirst<T>(chunks: seq<seq<T>>, k: nat)
    requires k < |chunks|
    ensures Flat(chunks[..k + 1]) == Flat(chunks[..k]) + chunks[k]
    ensures Flat(chunks) == Flat(chunks[..k]) + chunks[k] + Flat(chunks[k + 1..])
  {
    hide Flat;
    FlatPrefix(chunks, k);
    FlatAppend(chunks[..k + 1], chunks[k + 1..]);
    Rejoined(chunks, k + 1);
  }

  lemma Rejoined<T>(chunks: seq<seq<T>>, k: nat)
    requires k <= |chunks|
    ensures chunks == chunks[..k] + chunks[k..]
  {
  }

  predicate NoneEmpty<T(==)>(chunks: seq<seq<T>>) {
    forall i :: 0 <= i < |chunks| ==> chunks[i] != []
  }

  /** Cutting leaves no empty chunk behind. */
  lemma {:induction false} RestHasNoneEmpty<T>(chunks: seq<seq<T>>, n: nat)
    requires NoneEmpty(chunks) && n <= |Flat(chunks)|
    ensures NoneEmpty(Rest(chunks, n))
    decreases |chunks|
  {
    if chunks == [] || n <= |chunks[0]| {
    } else {
      RestHasNoneEmpty(chunks[1..], n - |chunks[0]|);
    }
  }

  lemma PrefixIsShort<T>(chunks: seq<seq<T>>, k: nat)
    requires k <= |chunks| && |Flat(chunks[..k])| < |Flat(chunks)|
    ensures k < |chunks|
  {
    assert chunks[..|chunks|] == chunks;
  }

  /** Where the cut falls, when more than the first k chunks are cut off. */
  lemma {:induction false} RestAt<T>(chunks: seq<seq<T>>, n: nat, k: nat)
    requires k < |chunks| && |Flat(chunks[..k])| < n <= |Flat(chunks[..k])| + |chunks[k]| && n <= |Flat(chunks)|
    ensures var m := n - |Flat(chunks[..k])|;
            Rest(chunks, n) == if m < |chunks[k]| then [chunks[k][m..]] + chunks[k + 1..] else chunks[k + 1..]
  {
    if k == 0 {
      FlatNone(chunks);
    } else {
      assert chunks[..k][1..] == chunks[1..][..k - 1];
      RestAt(chunks[1..], n - |chunks[0]|, k - 1);
      assert chunks[1..][k..] == chunks[k + 1..];
    }
  }

  // ----- Copying -----

  /** `copy` of a Buffer: what fits of the data goes to place `at`. */
  method Copy<T>(data: seq<T>, target: array<T>, at: nat)
    modifies target
    ensures var n := if at >= target.Length then 0 else if |data| <= target.Length - at then |data| else target.Length - at;
            forall i :: 0 <= i < target.Length ==>
              target[i] == if at <= i < at + n then data[i - at] else old(target[i])
  {
    var n := if at >= target.Length then 0 else if |data| <= target.Length - at then |data| else target.Length - at;
    for k := 0 to n
      invariant forall i :: 0 <= i < target.Length ==> target[i] == if at <= i < at + k then data[i - at] else old(target[i])
    {
      target[at + k] := data[k];
    }
  }

  // ----- The list -----

  class Node<T> {
    var data: seq<T>
    var next: Node?<T>

    constructor (data: seq<T>, next: Node?<T>)
      ensures this.data == data && this.next == next
    {
      this.data := data;
      this.next := next;
    }
  }

  ghost function At<T>(nodes: seq<Node<T>>, k: nat): (p: Node?<T>) {
    if k < |nodes| then nodes[k] else null
  }

  /** The nodes hold the chunks and are linked in order from `head`, and `tail` is the last one. */
  ghost predicate Chain<T>(head: Node?<T>, tail: Node?<T>, nodes: seq<Node<T>>, chunks: seq<seq<T>>)
    reads nodes
  {
    && |nodes| == |chunks|
    && head == At(nodes, 0)
    && tail == (if nodes == [] then null else nodes[|nodes| - 1])
    && (forall i :: 0 <= i < |nodes| ==> nodes[i].data == chunks[i])
    && (forall i :: 0 <= i < |nodes| ==> nodes[i].next == At(nodes, i + 1))
    && (forall i, j :: 0 <= i < j < |nodes| ==> nodes[i] != nodes[j])
  }

  lemma ChainAt<T>(head: Node?<T>, tail: Node?<T>, nodes: seq<Node<T>>, chunks: seq<seq<T>>, k: nat)
    requires Chain(head, tail, nodes, chunks) && (k < |nodes| || k < |chunks|)
    ensures |nodes| == |chunks| && nodes[k].data == chunks[k] && nodes[k].next == At(nodes, k + 1)
    ensures head == nodes[0] && tail != null
  {
  }

  lemma ChainSuffix<T>(head: Node?<T>, tail: Node?<T>, nodes: seq<Node<T>>, chunks: seq<seq<T>>, k: nat)
    requires Chain(head, tail, nodes, chunks) && k <= |nodes|
    ensures |nodes| == |chunks|
    ensures Chain(At(nodes, k), if k < |nodes| then tail else null, nodes[k..], chunks[k..])
  {
  }

  lemma ChainIsEmpty<T>(head: Node?<T>, tail: Node?<T>, nodes: seq<Node<T>>, chunks: seq<seq<T>>)
    requires Chain(head, tail, nodes, chunks)
    ensures |nodes| == |chunks| && (nodes == [] ==> head == null && tail == null)
  {
  }

  lemma ChainPrepend<T>(head: Node?<T>, tail: Node?<T>, nodes: seq<Node<T>>, chunks: seq<seq<T>>, entry: Node<T>)
    requires Chain(head, tail, nodes, chunks) && entry !in nodes && entry.next == head
    ensures Chain(entry, if nodes == [] then entry else tail, [entry] + nodes, [entry.data] + chunks)
  {
  }

  method SetFirst<T>(p: Node<T>, v: seq<T>, ghost tail: Node?<T>, ghost nodes: seq<Node<T>>, ghost chunks: seq<seq<T>>)
    requires Chain(p, tail, nodes, chunks)
    modifies p
    ensures chunks != [] && Chain(p, tail, nodes, [v] + chunks[1..])
  {
    p.data := v;
  }

  class ChunkList<T(0)> {
    var head: Node?<T>
    var tail: Node?<T>
    var length: int
    ghost var nodes: seq<Node<T>>
    /* every node that was ever in the list */
    ghost var repr: set<Node<T>>
    ghost var chunks: seq<seq<T>>

    ghost predicate Valid()
      reads this, repr
    {
      (forall x :: x in nodes ==> x in repr) && Chain(head, tail, nodes, chunks) && length == |nodes|
    }

    constructor ()
      ensures Valid() && chunks == [] && repr == {}
    {
      head, tail, length := null, null, 0;
      nodes, chunks, repr := [], [], {};
    }

    method Push(v: seq<T>)
      requires Valid()
      modifies this, repr
      ensures Valid() && chunks == old(chunks) + [v]
      ensures fresh(repr - old(repr))
    {
      var entry := new Node(v, null);
      if length > 0 {
        tail.next := entry;
      } else {
        head := entry;
      }
      tail := entry;
      length := length + 1;
      nodes, chunks, repr := nodes + [entry], chunks + [v], repr + {entry};
    }

    method Unshift(v: seq<T>)
      requires Valid()
      modifies this
      ensures Valid() && chunks == [v] + old(chunks)
      ensures fresh(repr - old(repr))
    {
      hide Chain;
      ChainIsEmpty(head, tail, nodes, chunks);
      var entry := new Node(v, head);
      ChainPrepend(head, tail, nodes, chunks, entry);
      if length == 0 {
        tail := entry;
      }
      head := entry;
      length := length + 1;
      nodes, chunks, repr := [entry] + nodes, [v] + chunks, repr + {entry};
    }

    /** The first chunk, or nothing from an empty list. */
    method Shift() returns (found: bool, v: seq<T>)
      requires Valid()
      modifies this
      ensures Valid() && found == (old(chunks) != [])
      ensures if found then [v] + chunks == old(chunks) else chunks == old(chunks)
      ensures repr == old(repr)
    {
      if length == 0 {
        return false, [];
      }
      found, v := true, head.data;
      if length == 1 {
        head, tail := null, null;
      } else {
        head := head.next;
      }
      length := length - 1;
      nodes, chunks := nodes[1..], chunks[1..];
    }

    method Clear()
      requires Valid()
      modifies this
      ensures Valid() && chunks == [] && repr == old(repr)
    {
      head, tail := null, null;
      length := 0;
      nodes, chunks := [], [];
    }

    /** All of it in one buffer of n bytes, which nothing is said about beyond the data; for an empty list the buffer
        is empty whatever n is. */
    method Concat(n: nat) returns (ret: array<T>)
      requires Valid()
      ensures fresh(ret) && ret.Length == if chunks == [] then 0 else n
      ensures forall i :: 0 <= i < ret.Length && i < |Flat(chunks)| ==> ret[i] == Flat(chunks)[i]
    {
      if length == 0 {
        ret := new T[0];
        return;
      }
      ret := new T[n];
      var p, i := head, 0;
      ghost var k := 0;
      while p != null
        invariant 0 <= k <= |nodes| && p == At(nodes, k)
        invariant i == |Flat(chunks[..k])|
        invariant forall j :: 0 <= j < n && j < i ==> ret[j] == Flat(chunks[..k])[j]
        decreases |nodes| - k
      {
        FlatFirst(chunks, k);
        Copy(p.data, ret, i);
        i := i + |p.data|;
        p := p.next;
        k := k + 1;
      }
      assert chunks[..k] == chunks;
    }

    /** The first n bytes, out of the list. */
    method Consume(n: nat, hasStrings: bool) returns (ret: seq<T>)
      requires Valid() && chunks != [] && n <= |Flat(chunks)|
      modifies this, repr
      ensures Valid() && ret == old(Flat(chunks))[..n] && chunks == Rest(old(chunks), n)
      ensures repr == old(repr)
    {
      hide Chain, Flat;
      ChainAt(head, tail, nodes, chunks, 0);
      FlatFirst(chunks, 0);
      FlatNone(chunks);
      if n < |head.data| {
        ret := head.data[..n];
        SetFirst(head, head.data[n..], tail, nodes, chunks);
        chunks := [chunks[0][n..]] + chunks[1..];
      } else if n == |head.data| {
        var _, v := Shift();
        ret := v;
      } else if hasStrings {
        ret := GetString(n);
      } else {
        var buffer := GetBuffer(n);
        ret := buffer[..];
      }
    }

    /** Takes the nodes up to `p` out of the list. */
    method CutBehind(p: Node<T>, ghost k: nat, ghost n: nat)
      requires (forall x :: x in nodes ==> x in repr) && Chain(head, tail, nodes, chunks)
      requires 0 < k < |nodes| == |chunks| && p == nodes[k] && chunks[k] != []
      requires n == |Flat(chunks[..k])| + |chunks[k]| && n <= |Flat(chunks)|
      modifies this
      ensures Chain(head, tail, nodes, chunks) && chunks == Rest(old(chunks), n) && length == old(length)
      ensures nodes == old(nodes)[k + 1..] && repr == old(repr)
    {
      hide Flat, Chain, Rest;
      ChainAt(head, tail, nodes, chunks, k);
      RestAt(chunks, n, k);
      ChainSuffix(head, tail, nodes, chunks, k + 1);
      if p.next != null {
        head := p.next;
      } else {
        head, tail := null, null;
      }
      nodes, chunks := nodes[k + 1..], chunks[k + 1..];
    }

    /** Takes the nodes before `p` out of the list, and the first `nb` elements of `p`. */
    method CutInside(p: Node<T>, nb: nat, ghost k: nat, ghost n: nat)
      requires (forall x :: x in nodes ==> x in repr) && Chain(head, tail, nodes, chunks)
      requires 0 < k < |nodes| == |chunks| && p == nodes[k] && 0 < nb < |chunks[k]|
      requires n == |Flat(chunks[..k])| + nb && n <= |Flat(chunks)|
      modifies this, repr
      ensures Chain(head, tail, nodes, chunks) && chunks == Rest(old(chunks), n) && length == old(length)
      ensures nodes == old(nodes)[k..] && repr == old(repr)
    {
      hide Flat, Chain, Rest;
      ChainAt(head, tail, nodes, chunks, k);
      RestAt(chunks, n, k);
      ChainSuffix(head, tail, nodes, chunks, k);
      head := p;
      SetFirst(p, p.data[nb..], tail, nodes[k..], chunks[k..]);
      assert chunks[k..][1..] == chunks[k + 1..];
      nodes, chunks := nodes[k..], [chunks[k][nb..]] + chunks[k + 1..];
    }

    method GetString(n0: nat) returns (ret: seq<T>)
      requires Valid() && chunks != [] && |chunks[0]| < n0 <= |Flat(chunks)|
      modifies this, repr
      ensures Valid() && ret == old(Flat(chunks))[..n0] && chunks == Rest(old(chunks), n0)
      ensures repr == old(repr)
    {
      hide Flat, Rest, Chain;
      ChainAt(head, tail, nodes, chunks, 0);
      var p, c := head, 1;
      ghost var k := 1;
      FlatFirst(chunks, 0);
      FlatNone(chunks);
      ret := p.data;
      var n := n0 - |ret|;
      PrefixIsShort(chunks, 1);
      p := p.next;
      while p != null
        invariant Valid() && nodes == old(nodes) && chunks == old(chunks) && head == old(head) && repr == old(repr)
        invariant 0 < k < |nodes| && p == At(nodes, k) && c == k
        invariant n > 0 && ret == Flat(chunks[..k]) && n0 - n == |ret|
        decreases |nodes| - k
      {
        FlatFirst(chunks, k);
        ChainAt(head, tail, nodes, chunks, k);
        var str := p.data;
        var nb := if n > |str| then |str| else n;
        if nb == |str| {
          ret := ret + str;
        } else {
          ret := ret + str[..n];
        }
        n := n - nb;
        if n == 0 {
          if nb == |str| {
            c := c + 1;
            CutBehind(p, k, n0);
          } else {
            CutInside(p, nb, k, n0);
          }
          length := length - c;
          return;
        }
        PrefixIsShort(chunks, k + 1);
        c := c + 1;
        p := p.next;
        k := k + 1;
      }
      assert false;  // n is no more than what is in the list
    }

    method GetBuffer(n0: nat) returns (ret: array<T>)
      requires Valid() && chunks != [] && |chunks[0]| < n0 <= |Flat(chunks)|
      modifies this, repr
      ensures Valid() && fresh(ret) && ret[..] == old(Flat(chunks))[..n0] && chunks == Rest(old(chunks), n0)
      ensures repr == old(repr)
    {
      hide Flat, Rest, Chain;
      ChainAt(head, tail, nodes, chunks, 0);
      ret := new T[n0];
      var p, c := head, 1;
      ghost var k := 1;
      FlatFirst(chunks, 0);
      FlatNone(chunks);
      Copy(p.data, ret, 0);
      var n := n0 - |p.data|;
      PrefixIsShort(chunks, 1);
      p := p.next;
      while p != null
        invariant Valid() && nodes == old(nodes) && chunks == old(chunks) && head == old(head) && repr == old(repr)
        invariant 0 < k < |nodes| && p == At(nodes, k) && c == k
        invariant 0 < n <= n0 == ret.Length && n0 - n == |Flat(chunks[..k])| && ret[..n0 - n] == Flat(chunks[..k])
        decreases |nodes| - k
      {
        FlatFirst(chunks, k);
        ChainAt(head, tail, nodes, chunks, k);
        var buf := p.data;
        var nb := if n > |buf| then |buf| else n;
        Copy(buf[..nb], ret, ret.Length - n);
        n := n - nb;
        if n == 0 {
          if nb == |buf| {
            c := c + 1;
            CutBehind(p, k, n0);
          } else {
            CutInside(p, nb, k, n0);
          }
          length := length - c;
          return;
        }
        PrefixIsShort(chunks, k + 1);
        c := c + 1;
        p := p.next;
        k := k + 1;
      }
      assert false;  // n is no more than what is in the list
    }
  }
}
