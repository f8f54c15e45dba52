/** A writable stream that is left alone settles (module 4229): completions, tasks and returns of user code cannot go on
    for ever, and as long as something is open one of them is possible. */
module WritableLiveness {
  import opened Optional
  import opened WritableModel
  import opened WritableInvariant
  import opened WritableRuns

  // ----- A measure of what is still to happen -----

  function TaskEnergy(t: Task): (n: nat) {
    if t.CallFinal? then 2 else CallbackWeight(t.cb) + 3
  }

  function FrameEnergy(f: Frame): (n: nat) {
    match f
    case FinishMaybe => 1
    case CorkedRest(entries) => 1 + |entries|
    case AfterDrain(cb) => CallbackWeight(cb) + 2
  }

  function TicksEnergy(ts: seq<Task>): (n: nat) {
    if ts == [] then 0 else TicksEnergy(ts[..|ts| - 1]) + TaskEnergy(ts[|ts| - 1])
  }

  function StackEnergy(fs: seq<Frame>): (n: nat) {
    if fs == [] then 0 else StackEnergy(fs[..|fs| - 1]) + FrameEnergy(fs[|fs| - 1])
  }

  /** The measure of a state with `es` still to be given to the sink. */
  function Energy(s: State, es: seq<Entry>): (n: nat) {
    5 * |es| + (if s.writecb.Some? then CallbackWeight(s.writecb.value) + 4 else 0) + TicksEnergy(s.ticks)
    + StackEnergy(s.stack) + (if s.finalOpen then 1 else 0) + (if s.finalCalled then 0 else 3)
  }

  lemma TicksEnergyPush(ts: seq<Task>, t: Task)
    ensures TicksEnergy(ts + [t]) == TicksEnergy(ts) + TaskEnergy(t)
  {
    assert (ts + [t])[..|ts|] == ts;
  }

  lemma {:induction false} TicksEnergyPop(ts: seq<Task>)
    requires ts != []
    ensures TicksEnergy(ts) == TaskEnergy(ts[0]) + TicksEnergy(ts[1..])
  {
    var n := |ts| - 1;
    if n > 0 {
      TicksEnergyPop(ts[..n]);
      assert ts[..n][1..] == ts[1..][..n - 1];
    } else {
      assert ts[..0] == [] && ts[1..] == [];
    }
  }

  lemma StackEnergyPush(fs: seq<Frame>, f: Frame)
    ensures StackEnergy(fs + [f]) == StackEnergy(fs) + FrameEnergy(f)
  {
    assert (fs + [f])[..|fs|] == fs;
  }

  // ----- Clearing the buffer does not add to it -----

  lemma HandedEnergy(c: Config, s: State, es: seq<Entry>, rest: seq<Entry>, chunks: seq<Chunk>, len: int, cb: Callback)
    requires s.writecb.None? && CallbackWeight(cb) + 4 + 5 * |rest| <= 5 * |es|
    ensures Energy(Handed(c, s, chunks, len, cb), rest) <= Energy(s, es)
  {
    hide TicksEnergy, StackEnergy, CallbackWeight;
    TicksEnergyPush(s.ticks, AfterWrite(false, cb));
    if c.completesNow(s.sinkCalls) {
    } else {
    }
  }

  /** Energy looks at few fields. */
  lemma SameEnergy(s: State, r: State, es: seq<Entry>)
    requires r.writecb == s.writecb && r.ticks == s.ticks && r.stack == s.stack
    requires r.finalOpen == s.finalOpen && r.finalCalled == s.finalCalled
    ensures Energy(r, es) == Energy(s, es)
  {
    hide TicksEnergy, StackEnergy, CallbackWeight;
  }

  lemma GiveOneEnergy(c: Config, s: State, e: Entry, rest: seq<Entry>)
    requires s.writecb.None?
    ensures Energy(GiveOne(c, s, e), rest) <= Energy(s, [e] + rest)
    ensures !GiveOne(c, s, e).writing ==> GiveOne(c, s, e).writecb.None?
  {
    hide Energy;
    HandedEnergy(c, s, [e] + rest, rest, [e.chunk], c.Size(e.chunk), User(e.cb));
    HandedIdle(c, s, [e.chunk], c.Size(e.chunk), User(e.cb));
    hide Handed;
    SameEnergy(Handed(c, s, [e.chunk], c.Size(e.chunk), User(e.cb)), GiveOne(c, s, e), rest);
  }

  lemma HandedIdle(c: Config, s: State, chunks: seq<Chunk>, len: int, cb: Callback)
    ensures !Handed(c, s, chunks, len, cb).writing ==> Handed(c, s, chunks, len, cb).writecb.None?
  {
    if c.completesNow(s.sinkCalls) {
    } else {
    }
  }

  lemma {:induction false} OneByOneEnergy(c: Config, s: State, entries: seq<Entry>)
    requires s.bufferProcessing && s.buffered != [] && s.writecb.None?
    ensures var (r, rest) := OneByOne(c, s, entries);
            Energy(r, rest) <= Energy(s, entries)
    decreases |entries|
  {
    hide Energy, GiveOne;
    if entries == [] {
    } else {
      var e, rest := entries[0], entries[1..];
      assert entries == [e] + rest;
      GiveOneEnergy(c, s, e, rest);
      GiveOneRest(c, s, e);
      OneByOneUnfolds(c, s, entries);
      var u := GiveOne(c, s, e);
      hide OneByOne;
      if !u.writing {
        OneByOneEnergy(c, u, rest);
      }
    }
  }

  lemma ClearBufferEnergy(c: Config, s: State)
    requires !s.bufferProcessing && s.buffered != [] && s.writecb.None?
    ensures Energy(ClearBuffer(c, s), ClearBuffer(c, s).buffered) <= Energy(s, s.buffered)
  {
    hide Energy, ClearBuffer, OneByOne, Handed;
    ClearBufferUnfolds(c, s);
    var t := s.(bufferProcessing := true);
    SameEnergy(s, t, s.buffered);
    if c.writev && |s.buffered| >= 2 {
      HandedEnergy(c, t, s.buffered, [], Chunks(s.buffered), t.length, CorkedFinish(s.buffered));
      SameEnergy(Handed(c, t, Chunks(s.buffered), t.length, CorkedFinish(s.buffered)), GiveAll(c, s), []);
    } else {
      OneByOneEnergy(c, t, s.buffered);
      var (u, rest) := OneByOne(c, t, s.buffered);
      SameEnergy(u, ClearBuffer(c, s), rest);
    }
  }

  // ----- Every internal step takes something off -----

  /** What happens without the caller starting a new operation. */
  predicate Internal(e: Event) {
    e.SinkDone? || e.Tick? || e.Resume? || e.FinalDone?
  }

  lemma RunCallbackEnergy(s: State, cb: Callback, es: seq<Entry>)
    ensures Energy(RunCallback(s, cb), es) <= Energy(s, es) + CallbackWeight(cb) + 1
    ensures RunCallback(s, cb).buffered == s.buffered
  {
    hide TicksEnergy, StackEnergy;
    StackEnergyPush(s.stack, FinishMaybe);
    match cb
    case User(_) =>
    case CorkedFinish(entries) =>
      StackEnergyPush(s.stack + [FinishMaybe], CorkedRest(entries));
      assert s.stack + [FinishMaybe, CorkedRest(entries)] == s.stack + [FinishMaybe] + [CorkedRest(entries)];
  }

  lemma RunAfterWriteEnergy(s: State, finished: bool, cb: Callback, es: seq<Entry>)
    ensures Energy(RunAfterWrite(s, finished, cb), es) <= Energy(s, es) + CallbackWeight(cb) + 2
    ensures RunAfterWrite(s, finished, cb).buffered == s.buffered
  {
    hide TicksEnergy, StackEnergy, RunCallback, CallbackWeight;
    if !finished && s.length == 0 && s.needDrain {
      StackEnergyPush(s.stack, AfterDrain(cb));
    } else {
      RunCallbackEnergy(s, cb, es);
    }
  }

  lemma FinalCalledEnergy(s: State, es: seq<Entry>)
    requires !s.finalCalled
    ensures Energy(s.(pendingcb := s.pendingcb + 1, finalCalled := true, ticks := s.ticks + [CallFinal]), es) < Energy(s, es)
  {
    hide TicksEnergy, StackEnergy, CallbackWeight;
    TicksEnergyPush(s.ticks, CallFinal);
  }

  lemma PrefinishCallsEnergy(c: Config, s: State, es: seq<Entry>)
    requires !s.prefinished && !s.finalCalled && c.final
    ensures Energy(Prefinish(c, s), es) < Energy(s, es)
  {
    hide Energy;
    FinalCalledEnergy(s, es);
  }

  lemma PrefinishAtOnceEnergy(c: Config, s: State, es: seq<Entry>)
    requires !s.prefinished && !s.finalCalled && !c.final
    ensures Energy(Prefinish(c, s), es) == Energy(s, es)
  {
    hide Energy;
    SameEnergy(s, Prefinish(c, s), es);
  }

  lemma PrefinishEnergy(c: Config, s: State, es: seq<Entry>)
    ensures Energy(Prefinish(c, s), es) <= Energy(s, es)
  {
    hide Energy;
    if s.prefinished || s.finalCalled {
    } else if c.final {
      PrefinishCallsEnergy(c, s, es);
    } else {
      PrefinishAtOnceEnergy(c, s, es);
    }
  }

  lemma FinishStepEnergy(c: Config, s: State, es: seq<Entry>)
    ensures Energy(FinishStep(c, s), es) <= Energy(s, es)
    ensures FinishStep(c, s).buffered == s.buffered
  {
    hide Energy, Prefinish;
    PrefinishEnergy(c, s, es);
    var t := Prefinish(c, s);
    SameEnergy(t, t.(finished := true, finishes := t.finishes + 1), es);
  }

  lemma SinkDoneEnergy(c: Config, s: State)
    requires Shape(c, s, None) && s.writecb.Some?
    ensures Energy(OnWrite(c, s), OnWrite(c, s).buffered) < Energy(s, s.buffered)
  {
    hide Conserves, RunAfterWrite, ClearBuffer, OnWrite, TicksEnergy, StackEnergy, CallbackWeight;
    var cb, t := s.writecb.value, OffTheBooks(s);
    assert s.writing by { WritesAreNamed(c, s); }
    SinkDoneUnfolds(c, s, cb);
    assert Energy(t, t.buffered) + CallbackWeight(cb) + 4 == Energy(s, s.buffered);
    hide Energy;
    var finished := NeedFinish(t);
    if !finished && t.corked == 0 && t.buffered != [] {
      ClearBufferEnergy(c, t);
      var u := ClearBuffer(c, t);
      RunAfterWriteEnergy(u, finished, cb, u.buffered);
    } else {
      RunAfterWriteEnergy(t, finished, cb, t.buffered);
    }
  }

  lemma TickEnergy(s: State)
    requires s.ticks != []
    requires s.ticks[0].CallFinal? ==> !s.finalOpen
    ensures Energy(TickStep(s), TickStep(s).buffered) < Energy(s, s.buffered)
  {
    hide RunAfterWrite, TicksEnergy, StackEnergy, CallbackWeight, Energy;
    var t := s.(ticks := s.ticks[1..]);
    PoppedTickEnergy(s);
    match s.ticks[0]
    case AfterWrite(finished, cb) =>
      RunAfterWriteEnergy(t, finished, cb, t.buffered);
    case CallFinal =>
      OpenedEnergy(t, t.buffered);
  }

  lemma PoppedTickEnergy(s: State)
    requires s.ticks != []
    ensures var t := s.(ticks := s.ticks[1..]);
            Energy(s, s.buffered) == Energy(t, t.buffered) + TaskEnergy(s.ticks[0])
  {
    hide TicksEnergy, StackEnergy, CallbackWeight;
    TicksEnergyPop(s.ticks);
  }

  lemma OpenedEnergy(s: State, es: seq<Entry>)
    requires !s.finalOpen
    ensures Energy(s.(finalOpen := true), es) == Energy(s, es) + 1
  {
    hide TicksEnergy, StackEnergy, CallbackWeight;
  }

  lemma PoppedEnergy(s: State)
    requires s.stack != []
    ensures Energy(s, s.buffered) == Energy(Popped(s), s.buffered) + FrameEnergy(s.stack[|s.stack| - 1])
  {
  }

  lemma GroupEnergy(s: State, es: seq<Entry>)
    requires s.stack != [] && es != [] && s.stack[|s.stack| - 1] == CorkedRest(es)
    ensures Energy(CalledOne(s, es), s.buffered) < Energy(s, s.buffered)
  {
    PoppedEnergy(s);
    StackEnergyPush(s.stack[..|s.stack| - 1], CorkedRest(es[1..]));
    hide StackEnergy, TicksEnergy, CallbackWeight;
  }

  lemma ResumeEnergy(c: Config, s: State)
    requires s.stack != []
    ensures Energy(ResumeStep(c, s), ResumeStep(c, s).buffered) < Energy(s, s.buffered)
  {
    hide FinishStep, RunCallback, Energy, CallbackWeight;
    PoppedEnergy(s);
    var t := Popped(s);
    match s.stack[|s.stack| - 1]
    case FinishMaybe => FinishStepEnergy(c, t, t.buffered);
    case AfterDrain(cb) => RunCallbackEnergy(t, cb, t.buffered);
    case CorkedRest(es) =>
      if es != [] {
        GroupEnergy(s, es);
      }
  }

  lemma FinalDoneEnergy(c: Config, s: State)
    requires s.finalOpen
    ensures Energy(FinalStep(c, s), FinalStep(c, s).buffered) < Energy(s, s.buffered)
  {
    hide FinishStep, TicksEnergy, StackEnergy, CallbackWeight;
    var t := s.(finalOpen := false, pendingcb := s.pendingcb - 1, prefinished := true);
    FinishStepEnergy(c, t, t.buffered);
  }

  lemma OneFinal(s: State)
    requires FinalOnce(s) && s.ticks != [] && s.ticks[0].CallFinal?
    ensures !s.finalOpen
  {
    FinalsPop(s.ticks);
    hide Finals;
  }

  /** Every internal step uses up some of what was to happen. */
  lemma InternalStepsEnd(c: Config, s: State, e: Event)
    requires Inv(c, s) && Enabled(s, e) && Internal(e)
    ensures Energy(Step(c, s, e), Step(c, s, e).buffered) < Energy(s, s.buffered)
  {
    hide Energy, OnWrite, TickStep, ResumeStep, FinalStep, Shape, FinalOnce;
    match e
    case SinkDone => SinkDoneEnergy(c, s);
    case Tick =>
      if s.ticks[0].CallFinal? {
        OneFinal(s);
      }
      TickEnergy(s);
    case Resume => ResumeEnergy(c, s);
    case FinalDone => FinalDoneEnergy(c, s);
  }

  // ----- Left alone, the stream settles -----

  /** The state after the events, from a given state. */
  function From(c: Config, s: State, events: seq<Event>): (r: Option<State>)
    decreases |events|
  {
    if events == [] then Some(s)
    else
      var n := |events| - 1;
      match From(c, s, events[..n])
      case None => None
      case Some(t) => if Enabled(t, events[n]) then Some(Step(c, t, events[n])) else None
  }

  /** Internal steps keep the invariant, and there are at most as many as the measure says. */
  lemma {:induction false} InternalRunsAreShort(c: Config, s: State, events: seq<Event>)
    requires Inv(c, s) && From(c, s, events).Some? && forall e :: e in events ==> Internal(e)
    ensures var r := From(c, s, events).value;
            Inv(c, r) && |events| + Energy(r, r.buffered) <= Energy(s, s.buffered)
    decreases |events|
  {
    hide Inv, Step, Enabled, Energy;
    if events == [] {
    } else {
      var n := |events| - 1;
      InternalRunsAreShort(c, s, events[..n]);
      var t := From(c, s, events[..n]).value;
      assert events[n] in events;
      InternalStepsEnd(c, t, events[n]);
      StepInv(c, t, events[n]);
    }
  }

  lemma InternalsEnabled(s: State, e: Event)
    requires Internal(e)
    ensures Enabled(s, e) ==> s.writecb.Some? || s.stack != [] || s.ticks != [] || s.finalOpen
  {
  }

  lemma SomeEnabled(s: State) returns (e: Event)
    requires s.writecb.Some? || s.stack != [] || s.ticks != [] || s.finalOpen
    ensures Internal(e) && Enabled(s, e)
  {
    e := if s.writecb.Some? then SinkDone else if s.stack != [] then Resume else if s.ticks != [] then Tick else FinalDone;
  }

  /** As long as the stream has not settled, some internal step is possible; afterwards none is. */
  lemma UnsettledCanStep(c: Config, s: State)
    requires Inv(c, s)
    ensures Settled(s) <==> forall e :: Internal(e) ==> !Enabled(s, e)
  {
    assert s.writing <==> s.writecb.Some? by { WritesAreNamed(c, s); }
    hide Inv, Internal, Enabled;
    if Settled(s) {
      forall e | Internal(e) ensures !Enabled(s, e) { InternalsEnabled(s, e); }
    } else {
      var e := SomeEnabled(s);
    }
  }

  lemma FromAppends(c: Config, events: seq<Event>, more: seq<Event>)
    requires RunOf(c, events).Some?
    ensures RunOf(c, events + more) == From(c, RunOf(c, events).value, more)
    decreases |more|
  {
    hide Step, Enabled;
    if more == [] {
      assert events + more == events;
    } else {
      var n := |more| - 1;
      FromAppends(c, events, more[..n]);
      assert (events + more)[..|events| + n] == events + more[..n];
    }
  }

  lemma {:induction false} NothingOffered(events: seq<Event>, more: seq<Event>)
    requires forall e :: e in more ==> Internal(e)
    ensures Offered(events + more) == Offered(events)
    decreases |more|
  {
    if more == [] {
      assert events + more == events;
    } else {
      var n := |more| - 1;
      NothingOffered(events, more[..n]);
      hide Offered, Given;
      OneMoreOffered(events + more[..n], more[n]);
      assert (events + more[..n]) + [more[n]] == events + more;
      assert more[n] in more;
    }
  }

  lemma OneMoreOffered(events: seq<Event>, e: Event)
    ensures Internal(e) ==> Offered(events + [e]) == Offered(events)
  {
    assert (events + [e])[..|events|] == events;
    if Internal(e) {
      assert Given(e) == [];
      assert Offered(events).0 + [] == Offered(events).0;
    }
  }

  lemma CorkStays(c: Config, s: State, e: Event)
    requires Enabled(s, e) && Internal(e)
    ensures Step(c, s, e).corked == s.corked
  {
    hide OnWrite, TickStep, ResumeStep, FinalStep;
  }

  lemma {:induction false} InternalRunsStayCorked(c: Config, s: State, events: seq<Event>)
    requires From(c, s, events).Some? && forall e :: e in events ==> Internal(e)
    ensures From(c, s, events).value.corked == s.corked
    decreases |events|
  {
    hide Step, Enabled, Internal;
    if events == [] {
    } else {
      var n := |events| - 1;
      InternalRunsStayCorked(c, s, events[..n]);
      assert events[n] in events;
      CorkStays(c, From(c, s, events[..n]).value, events[n]);
    }
  }

  /** After any run, internal steps end after a bounded number; and when no more of them is possible, an uncorked stream
      has given every chunk to the sink and run every callback, and has finished if it was ended. */
  lemma LeftAloneItFinishes(c: Config, events: seq<Event>, more: seq<Event>)
    requires RunOf(c, events).Some? && RunOf(c, events + more).Some? && forall e :: e in more ==> Internal(e)
    ensures var s, r := RunOf(c, events).value, RunOf(c, events + more).value;
            && |more| <= Energy(s, s.buffered)
            && ((forall e :: Internal(e) ==> !Enabled(r, e)) && s.corked == 0 ==>
                  && r.sunk == Offered(events).0 && multiset(r.called) == UpTo(|r.sunk|)
                  && r.finished == Offered(events).1)
  {
    hide Inv, RunOf, From, Offered, Energy, Enabled, Internal, UpTo, Settled;
    var s, r := RunOf(c, events).value, RunOf(c, events + more).value;
    RunInv(c, events);
    RunInv(c, events + more);
    FromAppends(c, events, more);
    InternalRunsAreShort(c, s, more);
    InternalRunsStayCorked(c, s, more);
    UnsettledCanStep(c, r);
    NothingOffered(events, more);
    if Settled(r) && r.corked == 0 {
      NoLostWakeUp(c, events + more);
    }
  }

  /** Such a continuation exists after every run. */
  lemma {:induction false} CanSettle(c: Config, events: seq<Event>) returns (more: seq<Event>)
    requires RunOf(c, events).Some?
    ensures forall e :: e in more ==> Internal(e)
    ensures RunOf(c, events + more).Some? && Settled(RunOf(c, events + more).value)
    decreases Energy(RunOf(c, events).value, RunOf(c, events).value.buffered)
  {
    hide Inv, Energy, Step, Settled, Enabled, Internal;
    var s := RunOf(c, events).value;
    RunInv(c, events);
    UnsettledCanStep(c, s);
    if Settled(s) {
      more := [];
      assert events + more == events;
    } else {
      var e: Event :| Internal(e) && Enabled(s, e);
      InternalStepsEnd(c, s, e);
      assert (events + [e])[..|events|] == events;
      var rest := CanSettle(c, events + [e]);
      more := [e] + rest;
      assert events + more == events + [e] + rest;
    }
  }
}
