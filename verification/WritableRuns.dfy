/** What holds in every run of a writable stream (module 4229): the events may come in any order the stream allows. */
module WritableRuns {
  import opened Optional
  import opened WritableModel
  import opened WritableInvariant

  // ----- What the caller wrote -----

  /** What an event offers to the stream. */
  function Given(e: Event): (r: seq<Chunk>) {
    match e
    case Write(chunk) => [chunk]
    case End(Some(chunk)) => [chunk]
    case _ => []
  }

  /** The chunks given to `write` and `end` up to and including the first `end`, and whether there was one. */
  function Offered(events: seq<Event>): (r: (seq<Chunk>, bool)) {
    if events == [] then ([], false)
    else
      var n := |events| - 1;
      var (chunks, ended) := Offered(events[..n]);
      (if ended then chunks else chunks + Given(events[n]), ended || events[n].End?)
  }

  /** The effect of an operation on what is accepted and on `ending`. */
  predicate Accepts(s: State, r: State, chunks: seq<Chunk>, ends: bool) {
    && r.ending == (s.ending || ends)
    && r.accepted == (if s.ending then s.accepted else s.accepted + chunks)
  }

  lemma WriteAccepts(c: Config, s: State, chunk: Chunk)
    ensures Accepts(s, WriteStep(c, s, chunk), [chunk], false)
  {
    hide DoWrite;
    if s.ending {
    } else if s.writing || s.corked > 0 {
    } else {
    }
  }

  lemma UncorkAccepts(c: Config, s: State)
    ensures Accepts(s, UncorkStep(c, s), [], false)
  {
    hide ClearBuffer;
    if s.corked == 0 {
    } else {
    }
  }

  lemma EndAccepts(c: Config, s: State, last: Option<Chunk>)
    ensures Accepts(s, EndStep(c, s, last), if last.Some? then [last.value] else [], true)
  {
    hide WriteStep, UncorkStep, FinishStep;
    var t := if last.Some? then WriteStep(c, s, last.value) else s;
    if last.Some? {
      WriteAccepts(c, s, last.value);
    }
    UncorkAccepts(c, t.(corked := 1));
  }

  lemma StepAccepts(c: Config, s: State, e: Event)
    requires Enabled(s, e)
    ensures Accepts(s, Step(c, s, e), Given(e), e.End?)
  {
    hide WriteStep, UncorkStep, EndStep, OnWrite, TickStep, ResumeStep, FinishStep;
    match e
    case Write(chunk) => WriteAccepts(c, s, chunk);
    case Cork =>
    case Uncork => UncorkAccepts(c, s);
    case End(last) => EndAccepts(c, s, last);
    case SinkDone =>
    case Tick =>
    case Resume =>
    case FinalDone =>
  }

  /** The stream accepts exactly what is written before it is ended. */
  lemma {:induction false} AcceptedIsOffered(c: Config, events: seq<Event>)
    requires RunOf(c, events).Some?
    ensures var s := RunOf(c, events).value;
            (s.accepted, s.ending) == Offered(events)
    decreases |events|
  {
    hide Step, Enabled;
    if events == [] {
    } else {
      var n := |events| - 1;
      AcceptedIsOffered(c, events[..n]);
      StepAccepts(c, RunOf(c, events[..n]).value, events[n]);
    }
  }

  // ----- First in, first out -----

  /** Whatever the interleaving, what the sink got and then what is buffered is what was written, in that order; and
      the sink is never called while an earlier call is outstanding. */
  lemma FirstInFirstOut(c: Config, events: seq<Event>)
    requires RunOf(c, events).Some?
    ensures var s := RunOf(c, events).value;
            s.sunk + Chunks(s.buffered) == Offered(events).0 && !s.overlapped
  {
    RunInv(c, events);
    AcceptedIsOffered(c, events);
    hide RunOf, Offered, Bytes, Chunks, Owes, CallsOnce, FinishesOnce;
  }

  /** The counters agree with what they count, and nothing waits in the buffer without a reason. */
  lemma CountersAgree(c: Config, events: seq<Event>)
    requires RunOf(c, events).Some?
    ensures var s := RunOf(c, events).value;
            && s.length == s.writelen + Bytes(c, s.buffered) && (!s.writing ==> s.writelen == 0)
            && s.count == |s.buffered| && s.last == (s.buffered != [])
            && (s.buffered != [] ==> s.writing || s.corked > 0)
  {
    RunInv(c, events);
    hide RunOf, Bytes, Chunks, Owes, CallsOnce, FinishesOnce;
  }

  // ----- Callbacks -----

  lemma {:induction false} UpToHasEach(n: nat, id: nat)
    ensures UpTo(n)[id] == (if id < n then 1 else 0)
  {
    if n == 0 {
    } else {
      UpToHasEach(n - 1, id);
    }
  }

  lemma {:induction false} IdsHasEach(es: seq<Entry>, i: nat)
    requires i < |es|
    ensures es[i].cb in Ids(es)
  {
    var n := |es| - 1;
    if i < n {
      IdsHasEach(es[..n], i);
    }
  }

  /** A callback runs at most once, after its chunk went to the sink. */
  lemma CallbacksFollowTheSink(c: Config, events: seq<Event>, id: nat)
    requires RunOf(c, events).Some? && id in RunOf(c, events).value.called
    ensures var s := RunOf(c, events).value;
            multiset(s.called)[id] == 1 && id < |s.sunk| && id !in OptionIds(s.writecb)
  {
    RunInv(c, events);
    CalledWasSunk(c, RunOf(c, events).value, id);
  }

  lemma CalledWasSunk(c: Config, s: State, id: nat)
    requires Inv(c, s) && id in s.called
    ensures multiset(s.called)[id] == 1 && id < |s.sunk| && id !in OptionIds(s.writecb)
  {
    hide Inv, Ids, Bytes, OptionIds, CallsOnce;
    InvCallsOnce(c, s);
    CalledOnlyOnce(s, id);
    NumberedFrom(c, s);
    if id >= |s.sunk| {
      IdsHasEach(s.buffered, id - |s.sunk|);
    }
  }

  lemma InvCallsOnce(c: Config, s: State)
    requires Inv(c, s)
    ensures CallsOnce(s, s.buffered, None)
  {
    hide Flows, Owes, CallsOnce, FinishesOnce, WillFinish, WillDrain, FinalOnce, Based;
  }

  lemma NumberedFrom(c: Config, s: State)
    requires Inv(c, s)
    ensures Numbered(s.buffered, |s.sunk|) && |s.accepted| == |s.sunk| + |s.buffered|
  {
    hide Bytes, Chunks, Owes, CallsOnce, FinishesOnce, WillFinish, WillDrain, FinalOnce;
  }

  lemma CalledOnlyOnce(s: State, id: nat)
    requires CallsOnce(s, s.buffered, None) && id in s.called
    ensures multiset(s.called)[id] == 1 && id < |s.accepted|
    ensures id !in OptionIds(s.writecb) && id !in Ids(s.buffered)
  {
    UpToHasEach(|s.accepted|, id);
    hide UpTo, Ids, TicksIds, StackIds, OptionIds;
    assert id in multiset(s.called);
  }

  // ----- finish -----

  lemma {:induction false} NoTicksDue(ts: seq<Task>)
    requires TicksWeight(ts) == 0
    ensures TicksIds(ts) == multiset{}
  {
    if ts == [] {
    } else {
      NoTicksDue(ts[..|ts| - 1]);
    }
  }

  lemma {:induction false} NoFramesDue(fs: seq<Frame>)
    requires StackWeight(fs) == 0
    ensures StackIds(fs) == multiset{}
  {
    if fs == [] {
    } else {
      NoFramesDue(fs[..|fs| - 1]);
      assert FrameWeight(fs[|fs| - 1]) == 0;
      assert FrameIds(fs[|fs| - 1]) == multiset{};
    }
  }

  /** With nothing pending every callback has run. */
  lemma NothingPending(c: Config, s: State)
    requires Conserves(c, s, s.buffered, None) && s.pendingcb == 0
    ensures s.buffered == [] && !s.writing && !s.finalOpen && multiset(s.called) == UpTo(|s.accepted|)
  {
    hide Bytes, Chunks, FinishesOnce, UpTo, TicksWeight, StackWeight, TicksIds, StackIds;
    NoTicksDue(s.ticks);
    NoFramesDue(s.stack);
    assert s.buffered == [] && s.writecb.None?;
    assert Ids(s.buffered) == multiset{};
    hide Ids;
  }

  /** `finish` is emitted at most once: after `end`, when every chunk has gone through the sink, every callback has
      run once, and `prefinish` (with `_final`, if there is one) is behind it. */
  lemma FinishComesOnceAndLast(c: Config, events: seq<Event>)
    requires RunOf(c, events).Some?
    ensures var s := RunOf(c, events).value;
            && s.finishes == (if s.finished then 1 else 0)
            && (s.finished ==>
                  && Offered(events).1 && s.prefinished && s.sunk == Offered(events).0 && !s.writing && s.length == 0
                  && s.pendingcb == 0 && multiset(s.called) == UpTo(|s.sunk|))
  {
    RunInv(c, events);
    AcceptedIsOffered(c, events);
    FinishedMeansDone(c, RunOf(c, events).value);
    hide RunOf, Offered, Inv;
  }

  lemma FinishedMeansDone(c: Config, s: State)
    requires Inv(c, s)
    ensures s.finishes == (if s.finished then 1 else 0)
    ensures s.finished ==>
              && s.ending && s.prefinished && s.sunk == s.accepted && !s.writing && s.length == 0
              && s.pendingcb == 0 && multiset(s.called) == UpTo(|s.sunk|)
  {
    if s.finished {
      NothingPending(c, s);
      assert Bytes(c, s.buffered) == 0 && Chunks(s.buffered) == [];
      hide Bytes, Chunks, UpTo, Owes, CallsOnce, WillFinish, WillDrain;
    } else {
      hide Bytes, Chunks, UpTo, Owes, CallsOnce, WillFinish, WillDrain, Flows;
    }
  }

  // ----- No wake-up is lost -----

  /** Nothing is left to happen by itself: no task, no running user code, nothing in the sink, no `_final`. */
  predicate Settled(s: State) {
    s.ticks == [] && s.stack == [] && !s.writing && !s.finalOpen
  }

  /** A settled stream that was ended and is not corked has finished; one that is not ended does not owe a `drain`. In
      both cases every chunk that was written went through the sink and had its callback run. */
  lemma NoLostWakeUp(c: Config, events: seq<Event>)
    requires RunOf(c, events).Some? && Settled(RunOf(c, events).value) && RunOf(c, events).value.corked == 0
    ensures var s := RunOf(c, events).value;
            && s.sunk == Offered(events).0 && multiset(s.called) == UpTo(|s.sunk|) && s.pendingcb == 0
            && (if Offered(events).1 then s.finished else !s.needDrain && !s.finished)
  {
    RunInv(c, events);
    AcceptedIsOffered(c, events);
    SettledIsDone(c, RunOf(c, events).value);
    hide RunOf, Offered, Inv;
  }

  lemma SettledIsDone(c: Config, s: State)
    requires Inv(c, s) && Settled(s) && s.corked == 0
    ensures s.sunk == s.accepted && multiset(s.called) == UpTo(|s.sunk|) && s.pendingcb == 0
    ensures if s.ending then s.finished else !s.needDrain && !s.finished
  {
    SettledOwesNothing(c, s);
    NothingPending(c, s);
    assert Bytes(c, s.buffered) == 0 && Chunks(s.buffered) == [];
    hide Bytes, Chunks, UpTo, Owes, CallsOnce;
  }

  lemma SettledOwesNothing(c: Config, s: State)
    requires Shape(c, s, None) && Settled(s) && s.corked == 0
    ensures s.pendingcb == 0
  {
    SumsOfNothing(s);
    hide Bytes, Chunks, CallsOnce, FinishesOnce, TicksWeight, StackWeight;
  }

  /** While it is corked, what is written stays in the buffer, and an ended stream finishes only without such chunks. */
  lemma SettledWhileCorked(c: Config, events: seq<Event>)
    requires RunOf(c, events).Some? && Settled(RunOf(c, events).value)
    ensures var s := RunOf(c, events).value;
            Offered(events).1 ==> (s.finished <==> s.buffered == [])
  {
    RunInv(c, events);
    AcceptedIsOffered(c, events);
    SettledFinish(c, RunOf(c, events).value);
    hide RunOf, Offered, Inv;
  }

  lemma SettledFinish(c: Config, s: State)
    requires Inv(c, s) && Settled(s)
    ensures s.ending ==> (s.finished <==> s.buffered == [])
  {
    assert s.buffered == [] ==> Bytes(c, s.buffered) == 0;
    hide Bytes, Chunks, UpTo, CallsOnce, Owes;
  }
}
