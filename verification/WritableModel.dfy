/** Module 4229 as a state machine: what each operation of a writable stream does to its state.

    The functions follow the bundle's statements. User code (callbacks of `write`, `drain` listeners) may call
    the stream again: wherever the bundle hands control to it, the rest of the running function is kept as a
    frame on a stack, and any operation may happen before the frame is resumed. The sink is an arbitrary
    function that says, for each call of `_write` or `_writev`, whether it completes before returning. */
module WritableModel {
  import opened Optional

  type Chunk = seq<int>

  /** A buffered request; the callback of the n-th accepted write has the number n. */
  datatype Entry = Entry(chunk: Chunk, cb: nat)

  datatype Callback = User(id: nat) | CorkedFinish(entries: seq<Entry>)

  /** What waits in the nextTick queue. */
  datatype Task = AfterWrite(finished: bool, cb: Callback) | CallFinal

  /** What remains to be done once user code returns. */
  datatype Frame = FinishMaybe | CorkedRest(entries: seq<Entry>) | AfterDrain(cb: Callback)

  datatype Config = Config(objectMode: bool, highWaterMark: nat, writev: bool, final: bool, completesNow: nat -> bool)
  {
    function Size(c: Chunk): (n: nat) { if objectMode then 1 else |c| }
  }

  datatype State = State(
    ending: bool, finished: bool, prefinished: bool, finalCalled: bool, needDrain: bool,
    writing: bool, sync: bool, bufferProcessing: bool,
    corked: nat, length: int, writelen: int, pendingcb: int, writecb: Option<Callback>,
    /* the list from bufferedRequest on, whether lastBufferedRequest is set, and bufferedRequestCount */
    buffered: seq<Entry>, last: bool, count: int,
    /* the nextTick queue, the frames above which user code runs, and whether `_final` owes its callback */
    ticks: seq<Task>, stack: seq<Frame>, finalOpen: bool,
    /* history: accepted chunks, chunks handed to the sink, calls of the sink and whether one was made while another
       was outstanding, callbacks run, events emitted */
    accepted: seq<Chunk>, sunk: seq<Chunk>, sinkCalls: nat, overlapped: bool, called: seq<nat>, drains: nat, finishes: nat)

  const INITIAL := State(
    false, false, false, false, false, false, true, false, 0, 0, 0, 0, None, [], false, 0, [], [], false,
    [], [], 0, false, [], 0, 0)

  function Chunks(es: seq<Entry>): (r: seq<Chunk>)
    ensures |r| == |es|
  {
    if es == [] then [] else Chunks(es[..|es| - 1]) + [es[|es| - 1].chunk]
  }

  // ----- The functions of the module -----

  /** `R`: everything is written and `finish` has not been emitted. */
  predicate NeedFinish(s: State) {
    s.ending && s.length == 0 && s.buffered == [] && !s.finished && !s.writing
  }

  /** `A`: hands chunks to the sink. */
  function DoWrite(c: Config, s: State, chunks: seq<Chunk>, len: int, cb: Callback): (r: State)
    ensures r.bufferProcessing == s.bufferProcessing
    ensures r.accepted == s.accepted && r.ending == s.ending && r.corked == s.corked
    decreases if s.bufferProcessing then 0 else 1, 2, 0
  {
    var t := s.(writelen := len, writecb := Some(cb), writing := true, sync := true,
                sunk := s.sunk + chunks, sinkCalls := s.sinkCalls + 1, overlapped := s.overlapped || s.writing);
    var u := if c.completesNow(s.sinkCalls) then OnWrite(c, t) else t;
    u.(sync := false)
  }

  /** `onwrite`, without an error. */
  function OnWrite(c: Config, s: State): (r: State)
    requires s.writecb.Some?
    ensures r.bufferProcessing == s.bufferProcessing
    ensures r.accepted == s.accepted && r.ending == s.ending && r.corked == s.corked
    decreases if s.bufferProcessing then 0 else 1, 1, 0
  {
    var cb := s.writecb.value;
    var t := s.(writing := false, writecb := None, length := s.length - s.writelen, writelen := 0);
    var finished := NeedFinish(t);
    var u := if !finished && t.corked == 0 && !t.bufferProcessing && t.buffered != [] then ClearBuffer(c, t) else t;
    if s.sync then u.(ticks := u.ticks + [AfterWrite(finished, cb)]) else RunAfterWrite(u, finished, cb)
  }

  /** `k`: the drain event, then the callback, then `T`. */
  function RunAfterWrite(s: State, finished: bool, cb: Callback): (r: State)
    ensures r.bufferProcessing == s.bufferProcessing
    ensures r.accepted == s.accepted && r.ending == s.ending && r.corked == s.corked
    ensures r.sunk == s.sunk && r.sinkCalls == s.sinkCalls
    ensures r.prefinished == s.prefinished && r.finalCalled == s.finalCalled
  {
    if !finished && s.length == 0 && s.needDrain then
      s.(needDrain := false, drains := s.drains + 1, stack := s.stack + [AfterDrain(cb)])
    else RunCallback(s, cb)
  }

  function RunCallback(s: State, cb: Callback): (r: State)
    ensures r.bufferProcessing == s.bufferProcessing
    ensures r.accepted == s.accepted && r.ending == s.ending && r.corked == s.corked
    ensures r.sunk == s.sunk && r.sinkCalls == s.sinkCalls && r.drains == s.drains && r.needDrain == s.needDrain
    ensures r.prefinished == s.prefinished && r.finalCalled == s.finalCalled
  {
    var t := s.(pendingcb := s.pendingcb - 1);
    match cb
    case User(id) => t.(called := t.called + [id], stack := t.stack + [FinishMaybe])
    case CorkedFinish(entries) => t.(stack := t.stack + [FinishMaybe, CorkedRest(entries)])
  }

  /** `I`: hands the buffered requests to the sink, all at once or one by one. */
  function ClearBuffer(c: Config, s: State): (r: State)
    requires !s.bufferProcessing
    ensures !r.bufferProcessing
    ensures r.accepted == s.accepted && r.ending == s.ending && r.corked == s.corked
    decreases 1, 0, 0
  {
    var t := s.(bufferProcessing := true);
    if c.writev && |s.buffered| >= 2 then
      var u := DoWrite(c, t, Chunks(s.buffered), t.length, CorkedFinish(s.buffered));
      u.(pendingcb := u.pendingcb + 1, last := false, count := 0, buffered := [], bufferProcessing := false)
    else
      var (u, rest) := OneByOne(c, t, s.buffered);
      u.(last := if rest == [] then false else u.last, buffered := rest, bufferProcessing := false)
  }

  /** The loop of the slow path: stops when the sink has not completed at once. */
  function OneByOne(c: Config, s: State, entries: seq<Entry>): (r: (State, seq<Entry>))
    requires s.bufferProcessing
    ensures r.0.bufferProcessing
    ensures r.0.accepted == s.accepted && r.0.ending == s.ending && r.0.corked == s.corked
    decreases 0, 3, |entries|
  {
    if entries == [] then (s, [])
    else
      var t := DoWrite(c, s, [entries[0].chunk], c.Size(entries[0].chunk), User(entries[0].cb));
      var u := t.(count := t.count - 1);
      if u.writing then (u, entries[1..]) else OneByOne(c, u, entries[1..])
  }

  /** `T` */
  function FinishStep(c: Config, s: State): (r: State)
    ensures r.accepted == s.accepted && r.ending == s.ending && r.corked == s.corked
    ensures r.sunk == s.sunk && r.sinkCalls == s.sinkCalls && r.drains == s.drains && r.needDrain == s.needDrain
    ensures r.called == s.called && r.stack == s.stack
    ensures r.writecb == s.writecb && (r.ticks == s.ticks || r.ticks == s.ticks + [CallFinal])
    ensures (c.final ==> r.prefinished == s.prefinished) && (!c.final ==> r.finalCalled == s.finalCalled)
  {
    if NeedFinish(s) then
      var t := Prefinish(c, s);
      if t.pendingcb == 0 then t.(finished := true, finishes := t.finishes + 1) else t
    else s
  }

  function Prefinish(c: Config, s: State): (r: State)
    ensures r.accepted == s.accepted && r.ending == s.ending && r.corked == s.corked && r.buffered == s.buffered
    ensures r.sunk == s.sunk && r.sinkCalls == s.sinkCalls && r.drains == s.drains && r.needDrain == s.needDrain
    ensures r.called == s.called && r.stack == s.stack
    ensures r.writecb == s.writecb && (r.ticks == s.ticks || r.ticks == s.ticks + [CallFinal])
    ensures (c.final ==> r.prefinished == s.prefinished) && (!c.final ==> r.finalCalled == s.finalCalled)
  {
    if s.prefinished || s.finalCalled then s
    else if c.final then s.(pendingcb := s.pendingcb + 1, finalCalled := true, ticks := s.ticks + [CallFinal])
    else s.(prefinished := true)
  }

  // ----- Operations and events -----

  datatype Event = Write(chunk: Chunk) | Cork | Uncork | End(last: Option<Chunk>) | SinkDone | Tick | Resume | FinalDone

  /** `write`; after `end` the chunk is refused with an error. */
  function WriteStep(c: Config, s: State, chunk: Chunk): (r: State)
    ensures r.corked == s.corked
  {
    if s.ending then s
    else
      var id, len := |s.accepted|, c.Size(chunk);
      var t := s.(accepted := s.accepted + [chunk], pendingcb := s.pendingcb + 1, length := s.length + len,
                  needDrain := s.needDrain || s.length + len >= c.highWaterMark);
      if t.writing || t.corked > 0 then Append(t, Entry(chunk, id))
      else DoWrite(c, t, [chunk], len, User(id))
  }

  /** The new request goes behind the last one; only without a last one does it become the first. */
  function Append(s: State, e: Entry): (r: State) {
    s.(buffered := if !s.last then [e] else if s.buffered == [] then [] else s.buffered + [e],
       last := true, count := s.count + 1)
  }

  function UncorkStep(c: Config, s: State): (r: State)
    ensures r.corked == if s.corked > 0 then s.corked - 1 else 0
  {
    if s.corked == 0 then s
    else
      var t := s.(corked := s.corked - 1);
      if !t.writing && t.corked == 0 && !t.bufferProcessing && t.buffered != [] then ClearBuffer(c, t) else t
  }

  function EndStep(c: Config, s: State, last: Option<Chunk>): (r: State)
    ensures r.corked == 0
  {
    var t := if last.Some? then WriteStep(c, s, last.value) else s;
    var u := if t.corked > 0 then UncorkStep(c, t.(corked := 1)) else t;
    if u.ending then u else FinishStep(c, u.(ending := true))
  }

  /** A nextTick task runs with an empty call stack. */
  function TickStep(s: State): (r: State)
    requires s.ticks != []
    ensures r.accepted == s.accepted && r.ending == s.ending && r.corked == s.corked
    ensures r.prefinished == s.prefinished && r.finalCalled == s.finalCalled
    ensures r.sunk == s.sunk && r.sinkCalls == s.sinkCalls
  {
    var t := s.(ticks := s.ticks[1..]);
    match s.ticks[0]
    case AfterWrite(finished, cb) => RunAfterWrite(t, finished, cb)
    case CallFinal => t.(finalOpen := true)
  }

  /** User code returns to the frame below it. */
  function ResumeStep(c: Config, s: State): (r: State)
    requires s.stack != []
    ensures r.accepted == s.accepted && r.ending == s.ending && r.corked == s.corked
    ensures r.sunk == s.sunk && r.sinkCalls == s.sinkCalls && r.drains == s.drains && r.needDrain == s.needDrain
    ensures (c.final ==> r.prefinished == s.prefinished) && (!c.final ==> r.finalCalled == s.finalCalled)
  {
    var n := |s.stack| - 1;
    var t := s.(stack := s.stack[..n]);
    match s.stack[n]
    case FinishMaybe => FinishStep(c, t)
    case AfterDrain(cb) => RunCallback(t, cb)
    case CorkedRest(entries) =>
      if entries == [] then t
      else t.(pendingcb := t.pendingcb - 1, called := t.called + [entries[0].cb],
              stack := t.stack + [CorkedRest(entries[1..])])
  }

  /** The callback that `_final` owes. */
  function FinalStep(c: Config, s: State): (r: State)
    ensures r.accepted == s.accepted && r.ending == s.ending && r.corked == s.corked
    ensures r.sunk == s.sunk && r.sinkCalls == s.sinkCalls
  {
    FinishStep(c, s.(finalOpen := false, pendingcb := s.pendingcb - 1, prefinished := true))
  }

  predicate Enabled(s: State, e: Event) {
    match e
    case SinkDone => s.writecb.Some?
    case Tick => s.stack == [] && s.ticks != []
    case Resume => s.stack != []
    case FinalDone => s.finalOpen
    case _ => true
  }

  function Step(c: Config, s: State, e: Event): (r: State)
    requires Enabled(s, e)
  {
    match e
    case Write(chunk) => WriteStep(c, s, chunk)
    case Cork => s.(corked := s.corked + 1)
    case Uncork => UncorkStep(c, s)
    case End(last) => EndStep(c, s, last)
    case SinkDone => OnWrite(c, s)
    case Tick => TickStep(s)
    case Resume => ResumeStep(c, s)
    case FinalDone => FinalStep(c, s)
  }

  /** The state after the events, if each of them was possible. */
  function RunOf(c: Config, events: seq<Event>): (r: Option<State>)
    decreases |events|
  {
    if events == [] then Some(INITIAL)
    else
      var n := |events| - 1;
      match RunOf(c, events[..n])
      case None => None
      case Some(s) => if Enabled(s, events[n]) then Some(Step(c, s, events[n])) else None
  }
}
