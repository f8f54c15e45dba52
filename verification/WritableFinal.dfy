/** The place of `_final` in a run of a writable stream (module 4229). */
module WritableFinal {
  import opened Optional
  import opened WritableModel
  import opened WritableInvariant
  import opened WritableRuns

  /** What the answer of `_final` decides. */
  predicate SameFinal(s: State, r: State) {
    r.prefinished == s.prefinished && r.finalCalled == s.finalCalled
  }

  lemma WriteSameFinal(c: Config, s: State, chunk: Chunk)
    requires Inv(c, s)
    ensures SameFinal(s, WriteStep(c, s, chunk))
  {
    hide Conserves, DoWrite, Handed, Finals;
    if s.ending || s.writing || s.corked > 0 {
    } else {
      DirectHanded(c, s, chunk);
      HandedRest(c, Taken(c, s, chunk), [chunk], c.Size(chunk), User(|s.accepted|));
    }
  }

  lemma ClearSameFinal(c: Config, s: State, hand: Option<Callback>)
    requires Conserves(c, s, s.buffered, hand) && !s.bufferProcessing && !s.writing && s.count == |s.buffered|
    requires s.last && s.buffered != []
    ensures SameFinal(s, ClearBuffer(c, s))
  {
    hide Conserves, ClearBuffer, EndsInAfterWrite;
    ClearBufferKeeps(c, s, hand);
  }

  lemma UncorkSameFinal(c: Config, s: State)
    requires Inv(c, s)
    ensures SameFinal(s, UncorkStep(c, s))
  {
    hide Conserves, ClearBuffer, Finals;
    if s.corked > 0 {
      var t := s.(corked := s.corked - 1);
      if !t.writing && t.corked == 0 && t.buffered != [] {
        SameConserves(c, s, t, t.buffered, None);
        ClearSameFinal(c, t, None);
      }
    }
  }

  /** `prefinish` comes with the answer of `_final`; without `_final` nobody is asked. */
  predicate Answers(c: Config, s: State, r: State, answered: bool) {
    && (c.final ==> r.prefinished == (s.prefinished || answered))
    && (!c.final ==> r.finalCalled == s.finalCalled)
  }

  lemma AnswersAfter(c: Config, s: State, t: State, r: State)
    requires SameFinal(s, t) && Answers(c, t, r, false)
    ensures Answers(c, s, r, false)
  {
  }

  lemma SameFinalAfter(s: State, t: State, r: State)
    requires SameFinal(s, t) && SameFinal(t, r)
    ensures SameFinal(s, r)
  {
  }

  lemma SameAnswers(c: Config, s: State, r: State)
    requires SameFinal(s, r)
    ensures Answers(c, s, r, false)
  {
  }

  lemma EndAnswers(c: Config, s: State, last: Option<Chunk>)
    requires Inv(c, s)
    ensures Answers(c, s, EndStep(c, s, last), false)
  {
    hide Inv, WriteStep, UncorkStep, FinishStep, SameFinal, Answers;
    var t := if last.Some? then WriteStep(c, s, last.value) else s;
    WriteOrNot(c, s, last);
    var u := if t.corked > 0 then UncorkStep(c, t.(corked := 1)) else t;
    UncorkOrNot(c, t);
    SameFinalAfter(s, t, u);
    if u.ending {
      SameAnswers(c, s, u);
    } else {
      EndedAnswers(c, u);
      AnswersAfter(c, s, u, FinishStep(c, u.(ending := true)));
    }
  }

  lemma WriteOrNot(c: Config, s: State, last: Option<Chunk>)
    requires Inv(c, s)
    ensures var t := if last.Some? then WriteStep(c, s, last.value) else s;
            Inv(c, t) && SameFinal(s, t)
  {
    hide Inv, WriteStep;
    if last.Some? {
      WriteSameFinal(c, s, last.value);
      WriteInv(c, s, last.value);
    }
  }

  lemma UncorkOrNot(c: Config, t: State)
    requires Inv(c, t)
    ensures SameFinal(t, if t.corked > 0 then UncorkStep(c, t.(corked := 1)) else t)
  {
    hide Inv, UncorkStep;
    if t.corked > 0 {
      RecorkedInv(c, t, 1);
      UncorkSameFinal(c, t.(corked := 1));
    }
  }

  lemma EndedAnswers(c: Config, u: State)
    ensures Answers(c, u, FinishStep(c, u.(ending := true)), false)
  {
    hide FinishStep;
  }

  lemma SinkDoneSameFinal(c: Config, s: State)
    requires Inv(c, s) && s.writecb.Some?
    ensures SameFinal(s, OnWrite(c, s))
  {
    hide Conserves, Finals, RunAfterWrite, ClearBuffer, OnWrite;
    var cb, t := s.writecb.value, OffTheBooks(s);
    assert s.writing by { WritesAreNamed(c, s); }
    OffTheBooksKeeps(c, s, cb);
    SinkDoneUnfolds(c, s, cb);
    if !NeedFinish(t) && t.corked == 0 && t.buffered != [] {
      ClearSameFinal(c, t, Some(cb));
    }
  }

  lemma StepAnswers(c: Config, s: State, e: Event)
    requires Inv(c, s) && Enabled(s, e)
    ensures Answers(c, s, Step(c, s, e), e == FinalDone)
    ensures e == FinalDone ==> s.finalCalled && !s.prefinished
  {
    hide Shape, WriteStep, UncorkStep, EndStep, OnWrite, TickStep, ResumeStep, FinishStep, WillFinish, WillDrain, Based, Finals;
    match e
    case Write(chunk) => WriteSameFinal(c, s, chunk);
    case Cork =>
    case Uncork => UncorkSameFinal(c, s);
    case End(last) => EndAnswers(c, s, last);
    case SinkDone => SinkDoneSameFinal(c, s);
    case Tick =>
    case Resume =>
    case FinalDone =>
  }

  /** How often `_final` answered. */
  function FinalAnswers(events: seq<Event>): (n: nat) {
    if events == [] then 0
    else FinalAnswers(events[..|events| - 1]) + if events[|events| - 1] == FinalDone then 1 else 0
  }

  /** With `_final`, a stream has emitted `prefinish` exactly if it answered, which it does once at most; without it,
      nothing waits for an answer. */
  lemma {:induction false} FinalAnswersOnce(c: Config, events: seq<Event>)
    requires RunOf(c, events).Some?
    ensures var s := RunOf(c, events).value;
            && (c.final ==> FinalAnswers(events) == if s.prefinished then 1 else 0)
            && (!c.final ==> FinalAnswers(events) == 0 && !s.finalCalled)
    decreases |events|
  {
    hide Step, Enabled, Inv;
    if events == [] {
    } else {
      var n := |events| - 1;
      FinalAnswersOnce(c, events[..n]);
      RunInv(c, events[..n]);
      StepAnswers(c, RunOf(c, events[..n]).value, events[n]);
    }
  }

  /** A stream with `_final` finishes only after `_final` has answered. */
  lemma FinishAwaitsFinal(c: Config, events: seq<Event>)
    requires RunOf(c, events).Some? && RunOf(c, events).value.finished && c.final
    ensures FinalAnswers(events) == 1
  {
    hide RunOf, FinalAnswers, Offered;
    FinalAnswersOnce(c, events);
    FinishComesOnceAndLast(c, events);
  }
}
