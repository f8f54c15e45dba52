/** When a writable stream (module 4229) tells its caller to wait, and when it tells him to go on: the events `drain` and
    the corked state, over whole runs. */
module WritableDrain {
  import opened Optional
  import opened WritableModel
  import opened WritableInvariant
  import opened WritableRuns

  // ----- What an operation does not do -----

  /** No user code has been called: no callback was run and no `drain` emitted. */
  predicate Silent(s: State, r: State) {
    r.drains == s.drains && r.called == s.called && r.stack == s.stack
  }

  /** The event offers a chunk that the stream takes, and fills it up to the mark: then `write` returns false. */
  predicate Refuses(c: Config, s: State, e: Event) {
    && !s.ending && Given(e) != []
    && s.length + c.Size(Given(e)[0]) >= c.highWaterMark
  }

  lemma WriteIsSilent(c: Config, s: State, chunk: Chunk)
    requires Inv(c, s)
    ensures var r := WriteStep(c, s, chunk);
            && Silent(s, r)
            && r.needDrain == (s.needDrain || (!s.ending && s.length + c.Size(chunk) >= c.highWaterMark))
  {
    hide Conserves, DoWrite, Handed, Finals;
    if s.ending {
    } else if s.writing || s.corked > 0 {
    } else {
      DirectHanded(c, s, chunk);
      HandedRest(c, Taken(c, s, chunk), [chunk], c.Size(chunk), User(|s.accepted|));
    }
  }

  lemma ClearIsSilent(c: Config, s: State, hand: Option<Callback>)
    requires Conserves(c, s, s.buffered, hand) && !s.bufferProcessing && !s.writing && s.count == |s.buffered|
    requires s.last && s.buffered != []
    ensures SameRest(s, ClearBuffer(c, s))
  {
    hide Conserves, ClearBuffer, EndsInAfterWrite;
    ClearBufferKeeps(c, s, hand);
  }

  lemma UncorkIsSilent(c: Config, s: State)
    requires Inv(c, s)
    ensures var r := UncorkStep(c, s);
            Silent(s, r) && r.needDrain == s.needDrain && r.ending == s.ending
  {
    hide Conserves, ClearBuffer, Finals;
    if s.corked > 0 {
      var t := s.(corked := s.corked - 1);
      if !t.writing && t.corked == 0 && t.buffered != [] {
        SameConserves(c, s, t, t.buffered, None);
        ClearIsSilent(c, t, None);
      }
    }
  }

  /** From s to r nothing is heard, and a `drain` is owed afterwards if it was before or `refused` is so. */
  predicate Owing(s: State, r: State, refused: bool) {
    Silent(s, r) && r.needDrain == (s.needDrain || refused)
  }

  lemma OwingAdds(s: State, t: State, r: State, p: bool, q: bool)
    requires Owing(s, t, p) && Owing(t, r, q)
    ensures Owing(s, r, p || q)
  {
  }

  lemma EndIsSilent(c: Config, s: State, last: Option<Chunk>)
    requires Inv(c, s)
    ensures Owing(s, EndStep(c, s, last), Refuses(c, s, End(last)))
  {
    hide Inv, WriteStep, UncorkStep, FinishStep, Owing, Refuses;
    var refused := Refuses(c, s, End(last));
    WriteOrNot(c, s, last);
    var t := if last.Some? then WriteStep(c, s, last.value) else s;
    UncorkOrNot(c, t);
    var u := if t.corked > 0 then UncorkStep(c, t.(corked := 1)) else t;
    OwingAdds(s, t, u, refused, false);
    if !u.ending {
      EndedOwes(c, u);
      OwingAdds(s, u, FinishStep(c, u.(ending := true)), refused, false);
    }
  }

  lemma WriteOrNot(c: Config, s: State, last: Option<Chunk>)
    requires Inv(c, s)
    ensures var t := if last.Some? then WriteStep(c, s, last.value) else s;
            Inv(c, t) && Owing(s, t, Refuses(c, s, End(last)))
  {
    hide Inv, WriteStep;
    if last.Some? {
      WriteIsSilent(c, s, last.value);
      WriteInv(c, s, last.value);
    }
  }

  lemma UncorkOrNot(c: Config, t: State)
    requires Inv(c, t)
    ensures Owing(t, if t.corked > 0 then UncorkStep(c, t.(corked := 1)) else t, false)
  {
    hide Inv, UncorkStep;
    if t.corked > 0 {
      RecorkedInv(c, t, 1);
      UncorkIsSilent(c, t.(corked := 1));
    }
  }

  lemma EndedOwes(c: Config, u: State)
    ensures Owing(u, FinishStep(c, u.(ending := true)), false)
  {
    hide FinishStep;
  }

  predicate IsOperation(e: Event) {
    e.Write? || e.Cork? || e.Uncork? || e.End?
  }

  /** However the sink behaves, no callback and no `drain` listener runs inside a call of the stream. */
  lemma OperationsAreSilent(c: Config, s: State, e: Event)
    requires Inv(c, s) && IsOperation(e)
    ensures Silent(s, Step(c, s, e)) && Step(c, s, e).needDrain == (s.needDrain || Refuses(c, s, e))
  {
    hide Inv, WriteStep, UncorkStep, EndStep;
    match e
    case Write(chunk) => WriteIsSilent(c, s, chunk);
    case Cork =>
    case Uncork => UncorkIsSilent(c, s);
    case End(last) => EndIsSilent(c, s, last);
  }

  // ----- drain -----

  /** A `drain` event comes where one is owed and nothing is in flight or buffered; otherwise nothing is forgotten. */
  predicate Drains(s: State, r: State) {
    || (r.drains == s.drains && r.needDrain == s.needDrain)
    || (r.drains == s.drains + 1 && s.needDrain && !r.needDrain && r.length == 0 && r.called == s.called)
  }

  lemma AfterWriteDrains(s: State, finished: bool, cb: Callback)
    ensures Drains(s, RunAfterWrite(s, finished, cb))
  {
    hide RunCallback;
    if !finished && s.length == 0 && s.needDrain {
    }
  }

  lemma SinkDoneDrains(c: Config, s: State)
    requires Inv(c, s) && s.writecb.Some?
    ensures Drains(s, OnWrite(c, s))
  {
    hide Conserves, Finals, RunAfterWrite, ClearBuffer, OnWrite;
    var cb, t := s.writecb.value, OffTheBooks(s);
    assert s.writing by { WritesAreNamed(c, s); }
    OffTheBooksKeeps(c, s, cb);
    SinkDoneUnfolds(c, s, cb);
    if !NeedFinish(t) && t.corked == 0 && t.buffered != [] {
      ClearIsSilent(c, t, Some(cb));
      AfterWriteDrains(ClearBuffer(c, t), false, cb);
    } else {
      AfterWriteDrains(t, NeedFinish(t), cb);
    }
  }

  lemma TickDrains(s: State)
    requires s.ticks != []
    ensures Drains(s, TickStep(s))
  {
    hide RunAfterWrite;
    var t := s.(ticks := s.ticks[1..]);
    match s.ticks[0]
    case AfterWrite(finished, cb) => AfterWriteDrains(t, finished, cb);
    case CallFinal =>
  }

  lemma FinalDrains(c: Config, s: State)
    ensures Drains(s, FinalStep(c, s))
  {
    hide FinishStep;
  }

  /** What one event does about `drain`. */
  lemma StepDrains(c: Config, s: State, e: Event)
    requires Inv(c, s) && Enabled(s, e)
    ensures var r := Step(c, s, e);
            if Refuses(c, s, e) then r.needDrain && r.drains == s.drains else Drains(s, r)
  {
    hide Inv, OnWrite, TickStep, ResumeStep, FinalStep, WriteStep, UncorkStep, EndStep, Drains;
    if IsOperation(e) {
      OperationsAreSilent(c, s, e);
      Unchanged(s, Step(c, s, e));
    } else {
      match e
      case SinkDone => SinkDoneDrains(c, s);
      case Tick => TickDrains(s);
      case Resume => Unchanged(s, Step(c, s, e));
      case FinalDone => FinalDrains(c, s);
    }
  }

  lemma Unchanged(s: State, r: State)
    ensures r.drains == s.drains && r.needDrain == s.needDrain ==> Drains(s, r)
  {
  }

  /** A completion outside a call of the stream runs user code at once: the `drain` listener or the callback. */
  lemma CompletionIsHeard(c: Config, s: State)
    requires Inv(c, s) && s.writecb.Some?
    ensures |OnWrite(c, s).stack| > |s.stack|
  {
    hide Conserves, Finals, RunAfterWrite, ClearBuffer, OnWrite;
    var cb, t := s.writecb.value, OffTheBooks(s);
    assert s.writing by { WritesAreNamed(c, s); }
    OffTheBooksKeeps(c, s, cb);
    SinkDoneUnfolds(c, s, cb);
    if !NeedFinish(t) && t.corked == 0 && t.buffered != [] {
      ClearIsSilent(c, t, Some(cb));
      AfterWriteStacks(ClearBuffer(c, t), false, cb);
    } else {
      AfterWriteStacks(t, NeedFinish(t), cb);
    }
  }

  lemma AfterWriteStacks(s: State, finished: bool, cb: Callback)
    ensures |RunAfterWrite(s, finished, cb).stack| > |s.stack|
  {
    if !finished && s.length == 0 && s.needDrain {
    } else {
      CallbackStacks(s, cb);
      hide RunCallback;
    }
  }

  lemma CallbackStacks(s: State, cb: Callback)
    ensures |RunCallback(s, cb).stack| > |s.stack|
  {
    match cb
    case User(_) =>
    case CorkedFinish(_) =>
  }

  // ----- Runs -----

  /** The state after the first k events. */
  function After(c: Config, events: seq<Event>, k: nat): (s: State)
    requires k <= |events| && RunOf(c, events[..k]).Some?
  {
    RunOf(c, events[..k]).value
  }

  /** The event number k was a write that returned false. */
  ghost predicate RefusedAt(c: Config, events: seq<Event>, k: nat) {
    k < |events| && RunOf(c, events[..k]).Some? && Refuses(c, RunOf(c, events[..k]).value, events[k])
  }

  /** Nobody has been told to go on since the write number k. */
  ghost predicate StillWaits(c: Config, events: seq<Event>, k: nat) {
    && RunOf(c, events).Some? && RefusedAt(c, events, k) && RunOf(c, events[..k + 1]).Some?
    && RunOf(c, events[..k + 1]).value.drains == RunOf(c, events).value.drains
  }

  lemma {:induction false} DrainsGrow(c: Config, events: seq<Event>, k: nat)
    requires RunOf(c, events).Some? && k <= |events|
    ensures RunOf(c, events[..k]).Some? && RunOf(c, events[..k]).value.drains <= RunOf(c, events).value.drains
    decreases |events|
  {
    hide Step, Enabled, Inv, Refuses;
    if k == |events| {
      assert events[..k] == events;
    } else {
      var n := |events| - 1;
      DrainsGrow(c, events[..n], k);
      assert events[..n][..k] == events[..k];
      RunInv(c, events[..n]);
      StepDrains(c, RunOf(c, events[..n]).value, events[n]);
    }
  }

  lemma RefusedBefore(c: Config, events: seq<Event>, k: nat)
    requires k < |events| - 1
    ensures RefusedAt(c, events, k) <==> RefusedAt(c, events[..|events| - 1], k)
  {
    var n := |events| - 1;
    assert events[..n][..k] == events[..k];
    hide RunOf, Refuses;
  }

  /** A `drain` is owed exactly when some write returned false and none was emitted since. */
  lemma {:induction false} OwedExactlyWhen(c: Config, events: seq<Event>)
    requires RunOf(c, events).Some?
    ensures RunOf(c, events).value.needDrain <==> exists k: nat :: StillWaits(c, events, k)
    decreases |events|
  {
    hide Step, Enabled, Inv, Refuses;
    if events == [] {
    } else {
      var n := |events| - 1;
      OwedExactlyWhen(c, events[..n]);
      RunInv(c, events[..n]);
      var s, r := RunOf(c, events[..n]).value, RunOf(c, events).value;
      StepDrains(c, s, events[n]);
      assert events[..n + 1] == events;
      if Refuses(c, s, events[n]) {
        assert StillWaits(c, events, n);
      } else if r.drains == s.drains {
        SameWaits(c, events);
      } else {
        forall k: nat ensures !StillWaits(c, events, k) {
          if StillWaits(c, events, k) {
            assert k < n && events[..n][..k + 1] == events[..k + 1];
            DrainsGrow(c, events[..n], k + 1);
          }
        }
      }
    }
  }

  /** An event that neither refuses nor drains leaves those waiting who were. */
  lemma SameWaits(c: Config, events: seq<Event>)
    requires RunOf(c, events).Some? && events != []
    requires var n := |events| - 1;
             RunOf(c, events[..n]).Some? && !RefusedAt(c, events, n)
             && RunOf(c, events).value.drains == RunOf(c, events[..n]).value.drains
    ensures var before := events[..|events| - 1];
            (exists k: nat :: StillWaits(c, events, k)) <==> (exists k: nat :: StillWaits(c, before, k))
  {
    hide RunOf, RefusedAt, Step, Refuses;
    var n := |events| - 1;
    forall k: nat ensures StillWaits(c, events, k) <==> StillWaits(c, events[..n], k) {
      if k < n {
        RefusedBefore(c, events, k);
        assert events[..n][..k + 1] == events[..k + 1];
      } else {
        OutOfRange(c, events[..n], k);
        OutOfRange(c, events, k);
      }
    }
  }

  lemma OutOfRange(c: Config, events: seq<Event>, k: nat)
    ensures RefusedAt(c, events, k) ==> k < |events|
  {
  }

  /** Whoever was told to wait is told to go on, if the stream is left to settle and is neither corked nor ended. */
  lemma DrainComes(c: Config, events: seq<Event>, k: nat)
    requires RunOf(c, events).Some? && RefusedAt(c, events, k)
    requires Settled(RunOf(c, events).value) && RunOf(c, events).value.corked == 0 && !Offered(events).1
    ensures RunOf(c, events[..k + 1]).Some? && RunOf(c, events).value.drains > RunOf(c, events[..k + 1]).value.drains
  {
    hide RunOf, Step, Enabled, Refuses, Settled, Offered;
    NoLostWakeUp(c, events);
    OwedExactlyWhen(c, events);
    OutOfRange(c, events, k);
    DrainsGrow(c, events, k + 1);
    assert !StillWaits(c, events, k);
  }

  /** How many writes returned false. */
  ghost function Refusals(c: Config, events: seq<Event>): (n: nat)
    decreases |events|
  {
    if events == [] then 0
    else
      var n := |events| - 1;
      Refusals(c, events[..n]) + if RefusedAt(c, events, n) then 1 else 0
  }

  /** There are never more `drain` events than writes that returned false. */
  lemma {:induction false} DrainsAreEarned(c: Config, events: seq<Event>)
    requires RunOf(c, events).Some?
    ensures var s := RunOf(c, events).value;
            s.drains + (if s.needDrain then 1 else 0) <= Refusals(c, events)
    decreases |events|
  {
    hide Step, Enabled, Inv, Refuses;
    if events == [] {
    } else {
      var n := |events| - 1;
      DrainsAreEarned(c, events[..n]);
      RunInv(c, events[..n]);
      StepDrains(c, RunOf(c, events[..n]).value, events[n]);
    }
  }

  /** A `drain` event comes only with nothing left in flight or in the buffer. */
  lemma DrainMeansEmpty(c: Config, events: seq<Event>)
    requires RunOf(c, events).Some? && events != [] && RunOf(c, events[..|events| - 1]).Some?
    requires RunOf(c, events).value.drains > RunOf(c, events[..|events| - 1]).value.drains
    ensures RunOf(c, events).value.length == 0
  {
    hide Step, Enabled, Inv, Refuses;
    RunInv(c, events[..|events| - 1]);
    StepDrains(c, RunOf(c, events[..|events| - 1]).value, events[|events| - 1]);
  }

  // ----- cork -----

  /** The calls of `cork` that have not been taken back, by as many calls of `uncork` or by `end`. */
  function Corks(events: seq<Event>): (n: nat) {
    if events == [] then 0
    else
      var before := Corks(events[..|events| - 1]);
      match events[|events| - 1]
      case Cork => before + 1
      case Uncork => if before > 0 then before - 1 else 0
      case End(_) => 0
      case _ => before
  }

  /** A stream is corked as often as that. */
  lemma {:induction false} CorksAreCounted(c: Config, events: seq<Event>)
    requires RunOf(c, events).Some?
    ensures RunOf(c, events).value.corked == Corks(events)
    decreases |events|
  {
    hide Enabled, WriteStep, UncorkStep, EndStep, OnWrite, TickStep, ResumeStep, FinalStep;
    if events == [] {
    } else {
      var n := |events| - 1;
      CorksAreCounted(c, events[..n]);
      StepCorks(c, RunOf(c, events[..n]).value, events[n]);
      hide Step;
    }
  }

  lemma StepCorks(c: Config, s: State, e: Event)
    requires Enabled(s, e)
    ensures Step(c, s, e).corked ==
            match e
            case Cork => s.corked + 1
            case Uncork => if s.corked > 0 then s.corked - 1 else 0
            case End(_) => 0
            case _ => s.corked
  {
    hide OnWrite, TickStep, ResumeStep, FinalStep, WriteStep, UncorkStep, EndStep;
    match e
    case Write(_) =>
    case Cork =>
    case _ =>
  }

  /** Nothing is given to the sink by an event that leaves a corked stream corked. */
  lemma CorkedStep(c: Config, s: State, e: Event)
    requires Enabled(s, e) && s.corked > 0 && Step(c, s, e).corked > 0
    ensures Step(c, s, e).sinkCalls == s.sinkCalls && Step(c, s, e).sunk == s.sunk
  {
    hide RunAfterWrite, FinishStep, ResumeStep, DoWrite, ClearBuffer;
    match e
    case Write(chunk) =>
    case Cork =>
    case Uncork =>
    case End(_) =>
    case SinkDone => CorkedSinkDone(c, s);
    case Tick => CorkedTick(s);
    case Resume =>
    case FinalDone =>
  }

  lemma CorkedSinkDone(c: Config, s: State)
    requires s.writecb.Some? && s.corked > 0
    ensures OnWrite(c, s).sinkCalls == s.sinkCalls && OnWrite(c, s).sunk == s.sunk
  {
    hide RunAfterWrite, ClearBuffer;
    var t := OffTheBooks(s);
  }

  lemma CorkedTick(s: State)
    requires s.ticks != []
    ensures TickStep(s).sinkCalls == s.sinkCalls && TickStep(s).sunk == s.sunk
  {
    hide RunAfterWrite;
    var t := s.(ticks := s.ticks[1..]);
    match s.ticks[0]
    case AfterWrite(finished, cb) =>
    case CallFinal =>
  }

  /** As long as the stream stays corked, the sink gets nothing: between the first i events and the whole run. */
  lemma {:induction false} CorkHolds(c: Config, events: seq<Event>, i: nat)
    requires RunOf(c, events).Some? && i <= |events|
    requires forall k :: i <= k <= |events| && RunOf(c, events[..k]).Some? ==> RunOf(c, events[..k]).value.corked > 0
    ensures RunOf(c, events[..i]).Some?
    ensures var s, r := RunOf(c, events[..i]).value, RunOf(c, events).value;
            r.sinkCalls == s.sinkCalls && r.sunk == s.sunk
    decreases |events|
  {
    hide Step, Enabled;
    assert events[..|events|] == events;
    if i < |events| {
      var n := |events| - 1;
      assert events[..n][..n] == events[..n];
      forall k | i <= k <= n && RunOf(c, events[..n][..k]).Some? ensures RunOf(c, events[..n][..k]).value.corked > 0 {
        assert events[..n][..k] == events[..k];
      }
      CorkHolds(c, events[..n], i);
      assert events[..n][..i] == events[..i];
      CorkedStep(c, RunOf(c, events[..n]).value, events[n]);
    }
  }
}
