/** The callbacks of the chunks that went to the sink of a writable stream (module 4229) in one call run in the order in
    which the chunks were written, whatever else happens in between. */
module WritableGroups {
  import opened Optional
  import opened WritableModel
  import opened WritableInvariant

  // ----- The callbacks that are owed, place by place -----

  function IdsOf(es: seq<Entry>): (ids: seq<nat>)
    ensures |ids| == |es|
  {
    seq(|es|, i requires 0 <= i < |es| => es[i].cb)
  }

  function IdList(cb: Callback): (ids: seq<nat>) {
    match cb
    case User(id) => [id]
    case CorkedFinish(es) => IdsOf(es)
  }

  predicate FrameHolds(f: Frame, ids: seq<nat>) {
    match f
    case FinishMaybe => false
    case CorkedRest(es) => ids == IdsOf(es)
    case AfterDrain(cb) => ids == IdList(cb)
  }

  /** The callbacks of the list are owed together: by the sink, by a queued task, or by a frame below user code. */
  ghost predicate Held(s: State, ids: seq<nat>) {
    || (s.writecb.Some? && ids == IdList(s.writecb.value))
    || (exists i :: 0 <= i < |s.ticks| && s.ticks[i].AfterWrite? && ids == IdList(s.ticks[i].cb))
    || (exists i :: 0 <= i < |s.stack| && FrameHolds(s.stack[i], ids))
  }

  lemma FrameIsHeld(s: State, i: nat, ids: seq<nat>)
    requires i < |s.stack| && FrameHolds(s.stack[i], ids)
    ensures Held(s, ids)
  {
  }

  lemma TickIsHeld(s: State, i: nat)
    requires i < |s.ticks| && s.ticks[i].AfterWrite?
    ensures Held(s, IdList(s.ticks[i].cb))
  {
  }

  function Range(from: nat, to: nat): (ids: seq<nat>)
    requires from <= to
    ensures |ids| == to - from
  {
    seq(to - from, i requires 0 <= i < to - from => from + i)
  }

  /** The callbacks of chunks that went to the sink between s and r; all of them together if that was one call. */
  ghost predicate New(s: State, r: State, ids: seq<nat>) {
    && |s.sunk| <= |r.sunk|
    && (forall i :: 0 <= i < |ids| ==> |s.sunk| <= ids[i] < |r.sunk|)
    && (r.sinkCalls == s.sinkCalls + 1 ==> ids == Range(|s.sunk|, |r.sunk|))
  }

  /** Chunks go to the sink; nothing is called. */
  ghost predicate Gives(s: State, r: State) {
    && r.called == s.called && |s.sunk| <= |r.sunk|
    && forall ids :: Held(r, ids) ==> Held(s, ids) || New(s, r, ids)
  }

  /** The callbacks `hand` go on to another place, or the first of them is called and the others go on. */
  ghost predicate Runs(s: State, r: State, hand: seq<nat>) {
    && r.sunk == s.sunk && r.sinkCalls == s.sinkCalls
    && ( || (r.called == s.called && forall ids :: Held(r, ids) ==> Held(s, ids) || ids == hand)
         || (hand != [] && r.called == s.called + [hand[0]]
             && forall ids :: Held(r, ids) ==> Held(s, ids) || ids == hand[1..]))
  }

  /** What one event does: chunks may go to the sink, and one callback may be called. */
  ghost predicate Passes(s: State, r: State) {
    || Gives(s, r)
    || (exists u, hand :: Gives(s, u) && Held(s, hand) && Runs(u, r, hand))
  }

  // ----- Order -----

  /** Wherever b stands, a stands before. */
  ghost predicate Precedes(q: seq<nat>, a: nat, b: nat) {
    forall j :: 0 <= j < |q| && q[j] == b ==> a in q[..j]
  }

  /** However the rest goes, a will be called before b. */
  ghost predicate InOrder(s: State, a: nat, b: nat) {
    && b < |s.sunk| && Precedes(s.called, a, b)
    && forall ids :: Held(s, ids) ==> Precedes(s.called + ids, a, b)
  }

  lemma PrecedesInFront(q: seq<nat>, more: seq<nat>, a: nat, b: nat)
    requires Precedes(q + more, a, b)
    ensures Precedes(q, a, b)
  {
    forall j | 0 <= j < |q| && q[j] == b ensures a in q[..j] {
      assert (q + more)[j] == b && (q + more)[..j] == q[..j];
    }
  }

  lemma PrecedesWithout(q: seq<nat>, more: seq<nat>, a: nat, b: nat)
    requires Precedes(q, a, b) && b !in more
    ensures Precedes(q + more, a, b)
  {
    var z := q + more;
    assert forall j :: |q| <= j < |z| ==> z[j] in more;
    forall j | 0 <= j < |z| && z[j] == b ensures a in z[..j] {
      assert z[..j] == q[..j];
    }
  }

  /** One more in between makes no difference, if it is itself in order. */
  lemma PrecedesBetween(q: seq<nat>, x: nat, more: seq<nat>, a: nat, b: nat)
    requires Precedes(q + [x], a, b) && Precedes(q + more, a, b)
    ensures Precedes(q + [x] + more, a, b)
  {
    var y, z, w := q + [x] + more, q + [x], q + more;
    forall j | 0 <= j < |y| && y[j] == b ensures a in y[..j] {
      if j < |z| {
        assert z[j] == b && y[..j] == z[..j];
      } else {
        assert w[j - 1] == b;
        var i :| 0 <= i < j - 1 && w[i] == a;
        assert y[if i < |q| then i else i + 1] == a;
      }
    }
  }

  lemma NewIsLater(s: State, r: State, ids: seq<nat>, b: nat)
    requires New(s, r, ids) && b < |s.sunk|
    ensures b !in ids
  {
  }

  lemma GivesKeeps(s: State, u: State, a: nat, b: nat)
    requires InOrder(s, a, b) && Gives(s, u)
    ensures InOrder(u, a, b)
  {
    hide Held, Precedes, New;
    forall ids | Held(u, ids) ensures Precedes(u.called + ids, a, b) {
      if !Held(s, ids) {
        NewKeeps(s, u, ids);
        NewIsLater(s, u, ids, b);
        PrecedesWithout(s.called, ids, a, b);
      }
    }
  }

  lemma NewKeeps(s: State, r: State, ids: seq<nat>)
    requires Gives(s, r) && Held(r, ids) && !Held(s, ids)
    ensures New(s, r, ids)
  {
    hide Held, New;
  }

  lemma RunsKeeps(u: State, r: State, hand: seq<nat>, a: nat, b: nat)
    requires InOrder(u, a, b) && Precedes(u.called + hand, a, b) && Runs(u, r, hand)
    ensures InOrder(r, a, b)
  {
    hide Held, Precedes;
    if r.called == u.called && (forall ids :: Held(r, ids) ==> Held(u, ids) || ids == hand) {
    } else {
      var x := hand[0];
      assert u.called + hand == u.called + [x] + hand[1..];
      PrecedesInFront(u.called + [x], hand[1..], a, b);
      forall ids | Held(r, ids) ensures Precedes(r.called + ids, a, b) {
        if Held(u, ids) {
          PrecedesBetween(u.called, x, ids, a, b);
        }
      }
    }
  }

  lemma PassesKeeps(s: State, r: State, a: nat, b: nat)
    requires InOrder(s, a, b) && Passes(s, r)
    ensures InOrder(r, a, b)
  {
    hide Held, Precedes, Gives, Runs;
    if Gives(s, r) {
      GivesKeeps(s, r, a, b);
    } else {
      var u, hand :| Gives(s, u) && Held(s, hand) && Runs(u, r, hand);
      GivesKeeps(s, u, a, b);
      SameCalled(s, u);
      RunsKeeps(u, r, hand, a, b);
    }
  }

  lemma SameCalled(s: State, u: State)
    requires Gives(s, u)
    ensures u.called == s.called && |s.sunk| <= |u.sunk|
  {
    hide Held, New;
  }

  /** Whatever has been or will be called belongs to a chunk that the sink got. */
  ghost predicate Bounded(s: State) {
    && (forall i :: 0 <= i < |s.called| ==> s.called[i] < |s.sunk|)
    && (forall ids, i :: Held(s, ids) && 0 <= i < |ids| ==> ids[i] < |s.sunk|)
  }

  lemma GivesBounded(s: State, u: State)
    requires Bounded(s) && Gives(s, u)
    ensures Bounded(u)
  {
    hide Held;
  }

  lemma RunsBounded(u: State, r: State, hand: seq<nat>)
    requires Bounded(u) && Runs(u, r, hand) && forall i :: 0 <= i < |hand| ==> hand[i] < |u.sunk|
    ensures Bounded(r)
  {
    hide Held;
  }

  lemma PassesBounded(s: State, r: State)
    requires Bounded(s) && Passes(s, r)
    ensures Bounded(r)
  {
    hide Held, Gives, Runs;
    if Gives(s, r) {
      GivesBounded(s, r);
    } else {
      var u, hand :| Gives(s, u) && Held(s, hand) && Runs(u, r, hand);
      GivesBounded(s, u);
      SameCalled(s, u);
      RunsBounded(u, r, hand);
    }
  }

  lemma RangeInOrder(q: seq<nat>, from: nat, to: nat, a: nat, b: nat)
    requires from <= a < b < to && b !in q
    ensures Precedes(q + Range(from, to), a, b)
  {
    var z := q + Range(from, to);
    forall j | 0 <= j < |z| && z[j] == b ensures a in z[..j] {
      assert j == |q| + (b - from);
      assert z[..j][|q| + (a - from)] == a;
    }
  }

  /** The chunks of one call of the sink start out in order. */
  lemma OneCallInOrder(s: State, u: State, a: nat, b: nat)
    requires Bounded(s) && Gives(s, u) && u.sinkCalls == s.sinkCalls + 1 && |s.sunk| <= a < b < |u.sunk|
    ensures InOrder(u, a, b)
  {
    hide Held;
    assert b !in s.called;
    forall ids | Held(u, ids) ensures Precedes(u.called + ids, a, b) {
      if Held(s, ids) {
        assert b !in ids;
        PrecedesWithout(u.called, ids, a, b);
      } else {
        RangeInOrder(u.called, |s.sunk|, |u.sunk|, a, b);
      }
    }
  }

  lemma NotThere(q: seq<nat>, a: nat, b: nat)
    requires b !in q
    ensures Precedes(q, a, b)
  {
  }

  lemma StartsInOrder(s: State, r: State, a: nat, b: nat)
    requires Bounded(s) && Passes(s, r) && r.sinkCalls == s.sinkCalls + 1 && |s.sunk| <= a < b < |r.sunk|
    ensures InOrder(r, a, b)
  {
    hide Held, Gives, Precedes;
    if Gives(s, r) {
      OneCallInOrder(s, r, a, b);
    } else {
      var u, hand :| Gives(s, u) && Held(s, hand) && Runs(u, r, hand);
      OneCallInOrder(s, u, a, b);
      SameCalled(s, u);
      assert b !in s.called + hand;
      NotThere(s.called + hand, a, b);
      RunsKeeps(u, r, hand, a, b);
    }
  }

  // ----- What every event does -----

  /** The same places and the same history. */
  predicate SamePlaces(s: State, r: State) {
    && r.writecb == s.writecb && r.ticks == s.ticks && r.stack == s.stack
    && r.called == s.called && r.sunk == s.sunk && r.sinkCalls == s.sinkCalls
  }

  lemma SamePlacesGive(s: State, r: State)
    requires SamePlaces(s, r)
    ensures Gives(s, r)
  {
    hide FrameHolds, IdList;
    forall ids | Held(r, ids) ensures Held(s, ids) {}
  }

  /** Handing chunks to the sink puts their callbacks into one place. */
  lemma HandedGives(c: Config, s: State, chunks: seq<Chunk>, len: int, cb: Callback)
    requires IdList(cb) == Range(|s.sunk|, |s.sunk| + |chunks|)
    ensures var r := Handed(c, s, chunks, len, cb);
            && r.called == s.called && r.sunk == s.sunk + chunks && r.sinkCalls == s.sinkCalls + 1
            && (forall ids :: Held(r, ids) ==> Held(s, ids) || ids == IdList(cb))
  {
    hide FrameHolds, IdList;
    var r := Handed(c, s, chunks, len, cb);
    if c.completesNow(s.sinkCalls) {
      forall ids | Held(r, ids) ensures Held(s, ids) || ids == IdList(cb) {
        if exists i :: 0 <= i < |r.ticks| && r.ticks[i].AfterWrite? && ids == IdList(r.ticks[i].cb) {
          var i :| 0 <= i < |r.ticks| && r.ticks[i].AfterWrite? && ids == IdList(r.ticks[i].cb);
          if i < |s.ticks| {
            TickIsHeld(s, i);
          }
        }
      }
    }
  }

  lemma HandedIsNew(c: Config, s: State, chunks: seq<Chunk>, len: int, cb: Callback)
    requires IdList(cb) == Range(|s.sunk|, |s.sunk| + |chunks|)
    ensures Gives(s, Handed(c, s, chunks, len, cb))
  {
    hide Held, IdList, Handed;
    HandedGives(c, s, chunks, len, cb);
  }

  /** Chunks go to the sink one by one, each with a callback of its own. */
  ghost predicate GivesSingly(s: State, r: State) {
    && r.called == s.called && |s.sunk| <= |r.sunk| && r.sinkCalls - s.sinkCalls == |r.sunk| - |s.sunk|
    && forall ids :: Held(r, ids) ==> Held(s, ids) || (|ids| == 1 && |s.sunk| <= ids[0] < |r.sunk|)
  }

  lemma SinglyGives(s: State, r: State)
    requires GivesSingly(s, r)
    ensures Gives(s, r)
  {
    hide Held;
    forall ids | Held(r, ids) ensures Held(s, ids) || New(s, r, ids) {
      if !Held(s, ids) && r.sinkCalls == s.sinkCalls + 1 {
        assert ids == [|s.sunk|] == Range(|s.sunk|, |r.sunk|);
      }
    }
  }

  lemma SinglyAgain(s: State, t: State, r: State)
    requires GivesSingly(s, t) && GivesSingly(t, r)
    ensures GivesSingly(s, r)
  {
    hide Held;
  }

  lemma NothingGiven(s: State, r: State)
    requires SamePlaces(s, r)
    ensures GivesSingly(s, r)
  {
    hide Held;
    SamePlacesGive(s, r);
    forall ids | Held(r, ids) ensures Held(s, ids) {
      SameHeld(s, r, ids);
    }
  }

  lemma SameHeld(s: State, r: State, ids: seq<nat>)
    requires SamePlaces(s, r)
    ensures Held(r, ids) ==> Held(s, ids)
  {
    hide FrameHolds, IdList;
  }

  lemma GiveOneGives(c: Config, s: State, e: Entry)
    requires e.cb == |s.sunk|
    ensures GivesSingly(s, GiveOne(c, s, e)) && |GiveOne(c, s, e).sunk| == |s.sunk| + 1
  {
    hide Held, Handed;
    var u := Handed(c, s, [e.chunk], c.Size(e.chunk), User(e.cb));
    assert IdList(User(e.cb)) == Range(|s.sunk|, |s.sunk| + 1);
    HandedGives(c, s, [e.chunk], c.Size(e.chunk), User(e.cb));
    forall ids | Held(GiveOne(c, s, e), ids) ensures Held(u, ids) {
      SameHeld(u, GiveOne(c, s, e), ids);
    }
  }

  lemma {:induction false} OneByOneGives(c: Config, s: State, entries: seq<Entry>)
    requires s.bufferProcessing && s.buffered != [] && Numbered(entries, |s.sunk|)
    ensures GivesSingly(s, OneByOne(c, s, entries).0)
    decreases |entries|
  {
    hide GivesSingly, OneByOne, GiveOne;
    if entries == [] {
      NoneLeft(c, s);
      NothingGiven(s, s);
    } else {
      var u := GiveOne(c, s, entries[0]);
      OneByOneUnfolds(c, s, entries);
      GiveOneRest(c, s, entries[0]);
      GiveOneGives(c, s, entries[0]);
      if !u.writing {
        OneByOneGives(c, u, entries[1..]);
        SinglyAgain(s, u, OneByOne(c, u, entries[1..]).0);
      }
    }
  }

  lemma IdsAreARange(es: seq<Entry>, from: nat)
    requires Numbered(es, from)
    ensures IdsOf(es) == Range(from, from + |es|)
  {
  }

  lemma GivesThenSame(s: State, t: State, r: State)
    requires Gives(s, t) && SamePlaces(t, r)
    ensures Gives(s, r)
  {
    hide Held;
    forall ids | Held(r, ids) ensures Held(t, ids) { SameHeld(t, r, ids); }
  }

  lemma SameThenGives(s: State, t: State, r: State)
    requires SamePlaces(s, t) && Gives(t, r)
    ensures Gives(s, r)
  {
    hide Held;
    forall ids | Held(t, ids) ensures Held(s, ids) { SameHeld(s, t, ids); }
  }

  lemma ClearAllGives(c: Config, s: State)
    requires Numbered(s.buffered, |s.sunk|)
    ensures Gives(s, GiveAll(c, s))
  {
    hide Gives, Handed, Chunks;
    var t, es := s.(bufferProcessing := true), s.buffered;
    var u := Handed(c, t, Chunks(es), t.length, CorkedFinish(es));
    IdsAreARange(es, |s.sunk|);
    HandedIsNew(c, t, Chunks(es), t.length, CorkedFinish(es));
    SameThenGives(s, t, u);
    GivesThenSame(s, u, GiveAll(c, s));
  }

  lemma ClearSomeGives(c: Config, s: State)
    requires !s.bufferProcessing && s.buffered != [] && Numbered(s.buffered, |s.sunk|)
    requires !(c.writev && |s.buffered| >= 2)
    ensures Gives(s, ClearBuffer(c, s))
  {
    hide Gives, OneByOne, Numbered, GivesSingly, ClearBuffer;
    var t := s.(bufferProcessing := true);
    OneByOneGives(c, t, s.buffered);
    var u := OneByOne(c, t, s.buffered).0;
    SinglyGives(t, u);
    ClearBufferUnfolds(c, s);
    SameThenGives(s, t, u);
    GivesThenSame(s, u, ClearBuffer(c, s));
  }

  lemma ClearGives(c: Config, s: State)
    requires !s.bufferProcessing && s.buffered != [] && Numbered(s.buffered, |s.sunk|)
    ensures Gives(s, ClearBuffer(c, s))
  {
    hide Gives, ClearBuffer, Numbered, GiveAll;
    if c.writev && |s.buffered| >= 2 {
      ClearBufferUnfolds(c, s);
      ClearAllGives(c, s);
    } else {
      ClearSomeGives(c, s);
    }
  }

  lemma InvNumbers(c: Config, s: State, es: seq<Entry>, hand: Option<Callback>)
    requires Conserves(c, s, es, hand)
    ensures Numbered(es, |s.sunk|) && |s.accepted| == |s.sunk| + |es|
  {
    hide Bytes, Chunks, Owes, CallsOnce, FinishesOnce;
  }

  lemma WriteGives(c: Config, s: State, chunk: Chunk)
    requires Inv(c, s)
    ensures Gives(s, WriteStep(c, s, chunk))
    ensures s.writing || s.corked > 0 ==> SamePlaces(s, WriteStep(c, s, chunk))
  {
    hide Conserves, DoWrite, Handed, Finals, Gives;
    if s.ending || s.writing || s.corked > 0 {
      SamePlacesGive(s, WriteStep(c, s, chunk));
    } else {
      InvNumbers(c, s, s.buffered, None);
      var t, id := Taken(c, s, chunk), |s.accepted|;
      DirectHanded(c, s, chunk);
      assert IdList(User(id)) == Range(|s.sunk|, |s.sunk| + 1);
      HandedIsNew(c, t, [chunk], c.Size(chunk), User(id));
      SameThenGives(s, t, WriteStep(c, s, chunk));
    }
  }

  lemma UncorkGives(c: Config, s: State)
    requires Inv(c, s)
    ensures Gives(s, UncorkStep(c, s))
  {
    hide Conserves, ClearBuffer, Finals, Gives;
    var t := s.(corked := if s.corked > 0 then s.corked - 1 else 0);
    SamePlacesGive(s, t);
    if s.corked > 0 && !t.writing && t.corked == 0 && t.buffered != [] {
      InvNumbers(c, s, s.buffered, None);
      ClearGives(c, t);
      SameThenGives(s, t, ClearBuffer(c, t));
    } else {
      SamePlacesGive(s, UncorkStep(c, s));
    }
  }

  /** `T` queues at most the task that calls `_final`. */
  lemma FinishGives(c: Config, s: State)
    ensures Gives(s, FinishStep(c, s))
  {
    hide Held, FinishStep;
    FinishKeepsHeld(c, s);
  }

  lemma EndGives(c: Config, s: State, last: Option<Chunk>)
    requires Inv(c, s)
    ensures Gives(s, EndStep(c, s, last))
  {
    hide Inv, WriteStep, UncorkStep, FinishStep, Gives, SamePlaces;
    var t := if last.Some? then WriteStep(c, s, last.value) else s;
    if last.Some? {
      WriteGives(c, s, last.value);
      WriteInv(c, s, last.value);
    } else {
      NothingHappens(s);
    }
    var u := if t.corked > 0 then UncorkStep(c, t.(corked := 1)) else t;
    EndCorked(c, s, last);
    if t.corked > 0 {
      assert SamePlaces(s, t);
      RecorkedInv(c, t, 1);
      UncorkGives(c, t.(corked := 1));
      RecorkedSame(t, 1);
      SameThenGives(t, t.(corked := 1), u);
      SameThenGives(s, t, u);
    }
    if !u.ending {
      EndedGives(c, s, u);
    }
  }

  lemma NothingHappens(s: State)
    ensures Gives(s, s) && SamePlaces(s, s)
  {
    SamePlacesGive(s, s);
    hide Gives;
  }

  lemma RecorkedSame(t: State, n: nat)
    ensures SamePlaces(t, t.(corked := n))
  {
  }

  lemma EndCorked(c: Config, s: State, last: Option<Chunk>)
    requires Inv(c, s)
    ensures var t := if last.Some? then WriteStep(c, s, last.value) else s;
            t.corked > 0 ==> SamePlaces(s, t)
  {
    hide Inv, DoWrite;
    if last.Some? && s.corked > 0 {
      WriteGives(c, s, last.value);
      hide WriteStep;
    }
  }

  /** What `T` does at the end of `end` gives nothing more to the sink. */
  lemma EndedGives(c: Config, s: State, u: State)
    requires Gives(s, u)
    ensures Gives(s, FinishStep(c, u.(ending := true)))
  {
    hide Held, FinishStep;
    var t := u.(ending := true);
    var r := FinishStep(c, t);
    FinishKeepsHeld(c, t);
    forall ids | Held(r, ids) ensures Held(u, ids) {
      SameHeld(u, t, ids);
    }
  }

  lemma FinishKeepsHeld(c: Config, s: State)
    ensures forall ids :: Held(FinishStep(c, s), ids) ==> Held(s, ids)
  {
    hide FrameHolds, IdList, FinishStep;
    var r := FinishStep(c, s);
    forall ids | Held(r, ids) ensures Held(s, ids) {
      if exists i :: 0 <= i < |r.ticks| && r.ticks[i].AfterWrite? && ids == IdList(r.ticks[i].cb) {
        var i :| 0 <= i < |r.ticks| && r.ticks[i].AfterWrite? && ids == IdList(r.ticks[i].cb);
        TickIsHeld(s, i);
      }
    }
  }

  // ----- One chunk or all of them -----

  /** As many calls of the sink as chunks. */
  predicate Level(s: State, r: State) {
    r.sinkCalls - s.sinkCalls == |r.sunk| - |s.sunk|
  }

  lemma ClearLevel(c: Config, s: State)
    requires !c.writev && !s.bufferProcessing && s.buffered != [] && Numbered(s.buffered, |s.sunk|)
    ensures Level(s, ClearBuffer(c, s))
  {
    hide OneByOne, Numbered, ClearBuffer, Held;
    var t := s.(bufferProcessing := true);
    OneByOneGives(c, t, s.buffered);
    ClearBufferUnfolds(c, s);
  }

  lemma WriteLevel(c: Config, s: State, chunk: Chunk)
    requires Inv(c, s)
    ensures Level(s, WriteStep(c, s, chunk))
  {
    hide Conserves, DoWrite, Handed, Finals, Held;
    if s.ending || s.writing || s.corked > 0 {
    } else {
      InvNumbers(c, s, s.buffered, None);
      DirectHanded(c, s, chunk);
      assert IdList(User(|s.accepted|)) == Range(|s.sunk|, |s.sunk| + 1);
      HandedGives(c, Taken(c, s, chunk), [chunk], c.Size(chunk), User(|s.accepted|));
    }
  }

  lemma UncorkLevel(c: Config, s: State)
    requires Inv(c, s) && !c.writev
    ensures Level(s, UncorkStep(c, s))
  {
    hide Conserves, ClearBuffer, Finals;
    var t := s.(corked := if s.corked > 0 then s.corked - 1 else 0);
    if s.corked > 0 && !t.writing && t.corked == 0 && t.buffered != [] {
      InvNumbers(c, s, s.buffered, None);
      ClearLevel(c, t);
    }
  }

  lemma LevelAgain(s: State, t: State, r: State)
    requires Level(s, t) && Level(t, r)
    ensures Level(s, r)
  {
  }

  lemma RecorkedLevel(s: State, n: nat)
    ensures Level(s, s.(corked := n))
  {
  }

  lemma EndLevel(c: Config, s: State, last: Option<Chunk>)
    requires Inv(c, s) && !c.writev
    ensures Level(s, EndStep(c, s, last))
  {
    hide Inv, WriteStep, UncorkStep, FinishStep, Level;
    var t := if last.Some? then WriteStep(c, s, last.value) else s;
    if last.Some? {
      WriteLevel(c, s, last.value);
      WriteInv(c, s, last.value);
    } else {
      SameLevel(s, s);
    }
    var u := if t.corked > 0 then UncorkStep(c, t.(corked := 1)) else t;
    if t.corked > 0 {
      RecorkedInv(c, t, 1);
      RecorkedLevel(t, 1);
      UncorkLevel(c, t.(corked := 1));
      LevelAgain(t, t.(corked := 1), u);
      LevelAgain(s, t, u);
    }
    if !u.ending {
      EndedLevel(c, u);
      LevelAgain(s, u, FinishStep(c, u.(ending := true)));
    }
  }

  lemma SameLevel(s: State, r: State)
    requires r.sunk == s.sunk && r.sinkCalls == s.sinkCalls
    ensures Level(s, r)
  {
  }

  lemma EndedLevel(c: Config, u: State)
    ensures Level(u, FinishStep(c, u.(ending := true)))
  {
    hide FinishStep;
  }

  lemma SinkDoneLevel(c: Config, s: State)
    requires Inv(c, s) && s.writecb.Some? && !c.writev
    ensures Level(s, OnWrite(c, s))
  {
    hide Conserves, Finals, RunAfterWrite, ClearBuffer, OnWrite;
    var cb, t := s.writecb.value, OffTheBooks(s);
    assert s.writing by { WritesAreNamed(c, s); }
    OffTheBooksKeeps(c, s, cb);
    SinkDoneUnfolds(c, s, cb);
    if !NeedFinish(t) && t.corked == 0 && t.buffered != [] {
      InvNumbers(c, t, t.buffered, Some(cb));
      ClearLevel(c, t);
    }
  }

  lemma StepLevel(c: Config, s: State, e: Event)
    requires Inv(c, s) && Enabled(s, e) && !c.writev
    ensures Level(s, Step(c, s, e))
  {
    hide Inv, WriteStep, UncorkStep, EndStep, OnWrite, TickStep, ResumeStep, FinalStep, Level;
    match e
    case Write(chunk) => WriteLevel(c, s, chunk);
    case Cork => RecorkedLevel(s, s.corked + 1);
    case Uncork => UncorkLevel(c, s);
    case End(last) => EndLevel(c, s, last);
    case SinkDone => SinkDoneLevel(c, s);
    case _ => SameLevel(s, Step(c, s, e));
  }

  /** Without `_writev` the sink gets one chunk with every call. */
  lemma {:induction false} OneChunkACall(c: Config, events: seq<Event>)
    requires RunOf(c, events).Some? && !c.writev
    ensures RunOf(c, events).value.sinkCalls == |RunOf(c, events).value.sunk|
    decreases |events|
  {
    hide Step, Enabled, Inv;
    if events == [] {
    } else {
      var n := |events| - 1;
      OneChunkACall(c, events[..n]);
      RunInv(c, events[..n]);
      StepLevel(c, RunOf(c, events[..n]).value, events[n]);
    }
  }

  /** With `_writev` the last `uncork` gives all that was buffered to the sink in one call, if there is more than one. */
  lemma UncorkGivesAll(c: Config, s: State)
    requires Inv(c, s) && c.writev && s.corked == 1 && !s.writing && |s.buffered| >= 2
    ensures var r := UncorkStep(c, s);
            r.sinkCalls == s.sinkCalls + 1 && r.sunk == s.sunk + Chunks(s.buffered) && r.buffered == []
  {
    hide Conserves, ClearBuffer, Finals, Handed, Chunks, Held;
    var t := s.(corked := 0);
    InvNumbers(c, s, s.buffered, None);
    ClearBufferUnfolds(c, t);
    var u, es := t.(bufferProcessing := true), s.buffered;
    IdsAreARange(es, |s.sunk|);
    HandedGives(c, u, Chunks(es), u.length, CorkedFinish(es));
  }

  // ----- Callbacks -----

  /** A frame more, or two. */
  lemma StackedHeld(s: State, r: State, more: seq<Frame>, ids: seq<nat>)
    requires r.writecb == s.writecb && r.ticks == s.ticks && r.stack == s.stack + more
    ensures Held(r, ids) ==> Held(s, ids) || exists f :: f in more && FrameHolds(f, ids)
  {
    hide FrameHolds, IdList;
    if exists i :: 0 <= i < |r.stack| && FrameHolds(r.stack[i], ids) {
      var i :| 0 <= i < |r.stack| && FrameHolds(r.stack[i], ids);
      if i < |s.stack| {
        FrameIsHeld(s, i, ids);
      } else {
        assert r.stack[i] == more[i - |s.stack|];
      }
    }
  }

  lemma CallbackRuns(s: State, cb: Callback)
    ensures Runs(s, RunCallback(s, cb), IdList(cb))
  {
    hide Held;
    var r := RunCallback(s, cb);
    match cb
    case User(id) =>
      forall ids | Held(r, ids) ensures Held(s, ids) { StackedHeld(s, r, [FinishMaybe], ids); }
    case CorkedFinish(es) =>
      forall ids | Held(r, ids) ensures Held(s, ids) || ids == IdList(cb) {
        StackedHeld(s, r, [FinishMaybe, CorkedRest(es)], ids);
      }
  }

  lemma AfterWriteRuns(s: State, finished: bool, cb: Callback)
    ensures Runs(s, RunAfterWrite(s, finished, cb), IdList(cb))
  {
    hide Held, RunCallback, Runs, IdList;
    if !finished && s.length == 0 && s.needDrain {
      DrainRuns(s, finished, cb);
    } else {
      CallbackRuns(s, cb);
    }
  }

  lemma DrainRuns(s: State, finished: bool, cb: Callback)
    requires !finished && s.length == 0 && s.needDrain
    ensures Runs(s, RunAfterWrite(s, finished, cb), IdList(cb))
  {
    hide Held, IdList;
    var r := RunAfterWrite(s, finished, cb);
    forall ids | Held(r, ids) ensures Held(s, ids) || ids == IdList(cb) {
      StackedHeld(s, r, [AfterDrain(cb)], ids);
    }
  }

  /** A place is emptied. */
  ghost predicate FewerPlaces(s: State, t: State) {
    && t.called == s.called && t.sunk == s.sunk && t.sinkCalls == s.sinkCalls
    && forall ids :: Held(t, ids) ==> Held(s, ids)
  }

  lemma FewerThenGives(s: State, t: State, u: State)
    requires FewerPlaces(s, t) && Gives(t, u)
    ensures Gives(s, u)
  {
    hide Held;
  }

  lemma FewerGives(s: State, t: State)
    requires FewerPlaces(s, t)
    ensures Gives(s, t)
  {
    hide Held;
  }

  lemma GivesAndRuns(s: State, u: State, r: State, hand: seq<nat>)
    requires Gives(s, u) && Held(s, hand) && Runs(u, r, hand)
    ensures Passes(s, r)
  {
    hide Gives, Held, Runs;
  }

  lemma OffTheBooksFewer(s: State)
    requires s.writecb.Some?
    ensures FewerPlaces(s, OffTheBooks(s)) && Held(s, IdList(s.writecb.value))
  {
    hide FrameHolds, IdList;
  }

  lemma SinkDonePasses(c: Config, s: State)
    requires Inv(c, s) && s.writecb.Some?
    ensures Passes(s, OnWrite(c, s))
  {
    hide Conserves, Finals, RunAfterWrite, ClearBuffer, OnWrite, Gives, Held, Runs, FewerPlaces, Passes, IdList;
    var cb, t := s.writecb.value, OffTheBooks(s);
    assert s.writing by { WritesAreNamed(c, s); }
    OffTheBooksKeeps(c, s, cb);
    OffTheBooksFewer(s);
    SinkDoneUnfolds(c, s, cb);
    FewerGives(s, t);
    if !NeedFinish(t) && t.corked == 0 && t.buffered != [] {
      InvNumbers(c, t, t.buffered, Some(cb));
      ClearGives(c, t);
      var u := ClearBuffer(c, t);
      FewerThenGives(s, t, u);
      AfterWriteRuns(u, false, cb);
      GivesAndRuns(s, u, OnWrite(c, s), IdList(cb));
    } else {
      AfterWriteRuns(t, NeedFinish(t), cb);
      GivesAndRuns(s, t, OnWrite(c, s), IdList(cb));
    }
  }

  lemma PoppedTickFewer(s: State)
    requires s.ticks != []
    ensures FewerPlaces(s, s.(ticks := s.ticks[1..]))
  {
    hide FrameHolds, IdList;
    var t := s.(ticks := s.ticks[1..]);
    forall ids | Held(t, ids) ensures Held(s, ids) {
      if exists i :: 0 <= i < |t.ticks| && t.ticks[i].AfterWrite? && ids == IdList(t.ticks[i].cb) {
        var i :| 0 <= i < |t.ticks| && t.ticks[i].AfterWrite? && ids == IdList(t.ticks[i].cb);
        TickIsHeld(s, i + 1);
      }
    }
  }

  lemma TickPasses(s: State)
    requires s.ticks != []
    ensures Passes(s, TickStep(s))
  {
    hide RunAfterWrite, Gives, Held, Runs, FewerPlaces, Passes, IdList;
    var t := s.(ticks := s.ticks[1..]);
    PoppedTickFewer(s);
    FewerGives(s, t);
    match s.ticks[0]
    case AfterWrite(finished, cb) =>
      TickIsHeld(s, 0);
      AfterWriteRuns(t, finished, cb);
      GivesAndRuns(s, t, TickStep(s), IdList(cb));
    case CallFinal =>
      OpenedSame(t);
      GivesThenSame(s, t, TickStep(s));
      OnlyGives(s, TickStep(s));
  }

  lemma OpenedSame(t: State)
    ensures SamePlaces(t, t.(finalOpen := true))
  {
  }

  lemma OnlyGives(s: State, r: State)
    requires Gives(s, r)
    ensures Passes(s, r)
  {
  }

  lemma PoppedFewer(s: State)
    requires s.stack != []
    ensures FewerPlaces(s, Popped(s))
  {
    hide FrameHolds, IdList;
    var t := Popped(s);
    forall ids | Held(t, ids) ensures Held(s, ids) {
      if exists i :: 0 <= i < |t.stack| && FrameHolds(t.stack[i], ids) {
        var i :| 0 <= i < |t.stack| && FrameHolds(t.stack[i], ids);
        FrameIsHeld(s, i, ids);
      }
    }
  }

  lemma GroupRuns(s: State, t: State, es: seq<Entry>)
    requires es != []
    ensures var r := t.(pendingcb := t.pendingcb - 1, called := t.called + [es[0].cb], stack := t.stack + [CorkedRest(es[1..])]);
            Runs(t, r, IdsOf(es))
  {
    hide Held;
    var r := t.(pendingcb := t.pendingcb - 1, called := t.called + [es[0].cb], stack := t.stack + [CorkedRest(es[1..])]);
    assert IdsOf(es)[1..] == IdsOf(es[1..]);
    forall ids | Held(r, ids) ensures Held(t, ids) || ids == IdsOf(es)[1..] {
      StackedHeld(t, r, [CorkedRest(es[1..])], ids);
    }
  }

  lemma ResumePasses(c: Config, s: State)
    requires s.stack != []
    ensures Passes(s, ResumeStep(c, s))
  {
    hide FinishStep, RunCallback, Gives, Held, Runs, FewerPlaces, Passes, IdList;
    var t, n := Popped(s), |s.stack| - 1;
    PoppedFewer(s);
    FewerGives(s, t);
    match s.stack[n]
    case FinishMaybe =>
      FinishGives(c, t);
      FewerThenGives(s, t, FinishStep(c, t));
      OnlyGives(s, ResumeStep(c, s));
    case AfterDrain(cb) =>
      FrameIsHeld(s, n, IdList(cb));
      CallbackRuns(t, cb);
      GivesAndRuns(s, t, ResumeStep(c, s), IdList(cb));
    case CorkedRest(es) =>
      if es == [] {
        OnlyGives(s, ResumeStep(c, s));
      } else {
        FrameIsHeld(s, n, IdsOf(es));
        GroupRuns(s, t, es);
        GivesAndRuns(s, t, ResumeStep(c, s), IdsOf(es));
      }
  }

  lemma FinalPasses(c: Config, s: State)
    ensures Passes(s, FinalStep(c, s))
  {
    hide FinishStep, Gives, Held, Passes;
    var t := s.(finalOpen := false, pendingcb := s.pendingcb - 1, prefinished := true);
    FinishGives(c, t);
    FinalSame(s);
    SameThenGives(s, t, FinishStep(c, t));
    OnlyGives(s, FinalStep(c, s));
  }

  lemma FinalSame(s: State)
    ensures SamePlaces(s, s.(finalOpen := false, pendingcb := s.pendingcb - 1, prefinished := true))
  {
  }

  lemma StepPasses(c: Config, s: State, e: Event)
    requires Inv(c, s) && Enabled(s, e)
    ensures Passes(s, Step(c, s, e))
  {
    hide Inv, WriteStep, UncorkStep, EndStep, OnWrite, TickStep, ResumeStep, FinalStep, Gives, Held, Passes;
    match e
    case Write(chunk) =>
      WriteGives(c, s, chunk);
      OnlyGives(s, Step(c, s, e));
    case Cork =>
      RecorkedSame(s, s.corked + 1);
      SamePlacesGive(s, Step(c, s, e));
      OnlyGives(s, Step(c, s, e));
    case Uncork =>
      UncorkGives(c, s);
      OnlyGives(s, Step(c, s, e));
    case End(last) =>
      EndGives(c, s, last);
      OnlyGives(s, Step(c, s, e));
    case SinkDone => SinkDonePasses(c, s);
    case Tick => TickPasses(s);
    case Resume => ResumePasses(c, s);
    case FinalDone => FinalPasses(c, s);
  }

  // ----- Runs -----

  lemma {:induction false} RunBounded(c: Config, events: seq<Event>)
    requires RunOf(c, events).Some?
    ensures Bounded(RunOf(c, events).value)
    decreases |events|
  {
    hide Step, Enabled, Inv, Passes, Held;
    if events == [] {
      NothingHeld();
    } else {
      var n := |events| - 1;
      RunBounded(c, events[..n]);
      RunInv(c, events[..n]);
      StepPasses(c, RunOf(c, events[..n]).value, events[n]);
      PassesBounded(RunOf(c, events[..n]).value, RunOf(c, events).value);
    }
  }

  lemma NothingHeld()
    ensures forall ids :: !Held(INITIAL, ids)
  {
  }

  /** Two chunks went to the sink with the event number k, in one call of the sink. */
  ghost predicate GivenTogether(c: Config, events: seq<Event>, k: nat, a: nat, b: nat) {
    && k < |events| && RunOf(c, events[..k]).Some? && RunOf(c, events[..k + 1]).Some?
    && var s, r := RunOf(c, events[..k]).value, RunOf(c, events[..k + 1]).value;
       r.sinkCalls == s.sinkCalls + 1 && |s.sunk| <= a < b < |r.sunk|
  }

  /** Of chunks that went to the sink in one call, the callback of the later one runs after that of the earlier one. */
  lemma {:induction false} GroupsInOrder(c: Config, events: seq<Event>, k: nat, a: nat, b: nat)
    requires RunOf(c, events).Some? && GivenTogether(c, events, k, a, b)
    ensures InOrder(RunOf(c, events).value, a, b)
    decreases |events|
  {
    hide Step, Enabled, Inv, Passes, InOrder;
    var n := |events| - 1;
    RunInv(c, events[..n]);
    StepPasses(c, RunOf(c, events[..n]).value, events[n]);
    if k == n {
      assert events[..k + 1] == events;
      RunBounded(c, events[..n]);
      StartsInOrder(RunOf(c, events[..n]).value, RunOf(c, events).value, a, b);
    } else {
      assert events[..n][..k] == events[..k] && events[..n][..k + 1] == events[..k + 1];
      GroupsInOrder(c, events[..n], k, a, b);
      PassesKeeps(RunOf(c, events[..n]).value, RunOf(c, events).value, a, b);
    }
  }

  lemma CalledInOrder(c: Config, events: seq<Event>, k: nat, a: nat, b: nat)
    requires RunOf(c, events).Some? && GivenTogether(c, events, k, a, b)
    ensures Precedes(RunOf(c, events).value.called, a, b)
  {
    hide Held, Precedes;
    GroupsInOrder(c, events, k, a, b);
  }
}
