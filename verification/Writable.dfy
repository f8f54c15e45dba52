/** Module 4229 as the bundle has it: a stream object whose operations update its state in place. Every method does to
    the fields what the function of `WritableModel` of the same name does to a state. */
module Writable {
  import opened Optional
  import opened WritableModel

  /** What is not part of the stream object: the nextTick queue, the frames below running user code, whether `_final`
      owes its callback, and the history. */
  datatype World = World(ticks: seq<Task>, stack: seq<Frame>, finalOpen: bool,
                         accepted: seq<Chunk>, sunk: seq<Chunk>, sinkCalls: nat, overlapped: bool, called: seq<nat>,
                         drains: nat, finishes: nat)

  class WritableStream {
    const config: Config

    var ending: bool
    var finished: bool
    var prefinished: bool
    var finalCalled: bool
    var needDrain: bool
    var writing: bool
    var sync: bool
    var bufferProcessing: bool
    var corked: nat
    var length: int
    var writelen: int
    var pendingcb: int
    var writecb: Option<Callback>
    var buffered: seq<Entry>
    var last: bool
    var count: int
    var world: World

    function Snapshot(): (s: State)
      reads this
    {
      State(ending, finished, prefinished, finalCalled, needDrain, writing, sync, bufferProcessing, corked, length,
            writelen, pendingcb, writecb, buffered, last, count, world.ticks, world.stack, world.finalOpen,
            world.accepted, world.sunk, world.sinkCalls, world.overlapped, world.called, world.drains, world.finishes)
    }

    constructor (config: Config)
      ensures this.config == config && Snapshot() == INITIAL
    {
      this.config := config;
      ending, finished, prefinished, finalCalled, needDrain := false, false, false, false, false;
      writing, sync, bufferProcessing := false, true, false;
      corked, length, writelen, pendingcb, writecb := 0, 0, 0, 0, None;
      buffered, last, count := [], false, 0;
      world := World([], [], false, [], [], 0, false, [], 0, 0);
    }

    // ----- Handing chunks to the sink -----

    /** `A`; the sink may complete before it returns. */
    method DoWrite(chunks: seq<Chunk>, len: int, cb: Callback)
      modifies this
      ensures Snapshot() == WritableModel.DoWrite(config, old(Snapshot()), chunks, len, cb)
      decreases if bufferProcessing then 0 else 1, 2, 0
    {
      hide WritableModel.OnWrite;
      var call := world.sinkCalls;
      Launch(chunks, len, cb);
      if config.completesNow(call) {
        OnWrite();
      }
      sync := false;
    }

    /** Everything that `A` does before the sink gets the chunks. */
    method Launch(chunks: seq<Chunk>, len: int, cb: Callback)
      modifies this
      ensures writecb.Some? && bufferProcessing == old(bufferProcessing)
      ensures var s := old(Snapshot());
              Snapshot() == s.(writelen := len, writecb := Some(cb), writing := true, sync := true,
                               sunk := s.sunk + chunks, sinkCalls := s.sinkCalls + 1, overlapped := s.overlapped || s.writing)
    {
      NoteCall(chunks);
      writelen := len;
      writecb := Some(cb);
      writing := true;
      sync := true;
    }

    method NoteCall(chunks: seq<Chunk>)
      modifies this
      ensures bufferProcessing == old(bufferProcessing)
      ensures var s := old(Snapshot());
              Snapshot() == s.(sunk := s.sunk + chunks, sinkCalls := s.sinkCalls + 1, overlapped := s.overlapped || s.writing)
    {
      hide Snapshot;
      NoteOverlap();
      NoteChunks(chunks);
    }

    method NoteOverlap()
      modifies this
      ensures bufferProcessing == old(bufferProcessing)
      ensures var s := old(Snapshot());
              Snapshot() == s.(overlapped := s.overlapped || s.writing)
    {
      world := world.(overlapped := world.overlapped || writing);
    }

    method NoteChunks(chunks: seq<Chunk>)
      modifies this
      ensures bufferProcessing == old(bufferProcessing)
      ensures var s := old(Snapshot());
              Snapshot() == s.(sunk := s.sunk + chunks, sinkCalls := s.sinkCalls + 1)
    {
      world := world.(sunk := world.sunk + chunks, sinkCalls := world.sinkCalls + 1);
    }

    /** `onwrite` */
    method OnWrite()
      requires writecb.Some?
      modifies this
      ensures Snapshot() == WritableModel.OnWrite(config, old(Snapshot()))
      decreases if bufferProcessing then 0 else 1, 1, 0
    {
      hide WritableModel.ClearBuffer, WritableModel.RunAfterWrite, WritableModel.NeedFinish, Snapshot;
      var wasSync, cb := UpdateState();
      var done := GoOn();
      if wasSync {
        NextTick(AfterWrite(done, cb));
      } else {
        RunAfterWrite(done, cb);
      }
    }

    /** A completed write starts the next one, unless the stream is done, corked or in the middle of clearing. */
    method GoOn() returns (done: bool)
      modifies this
      ensures var t := old(Snapshot());
              && done == WritableModel.NeedFinish(t)
              && Snapshot() == if !done && t.corked == 0 && !t.bufferProcessing && t.buffered != []
                               then WritableModel.ClearBuffer(config, t) else t
      decreases if bufferProcessing then 0 else 1, 0, 1
    {
      hide WritableModel.ClearBuffer;
      done := NeedFinish();
      if !done && corked == 0 && !bufferProcessing && buffered != [] {
        ClearBuffer();
      }
    }

    /** The write in flight is over. */
    method UpdateState() returns (wasSync: bool, cb: Callback)
      requires writecb.Some?
      modifies this
      ensures bufferProcessing == old(bufferProcessing) && old(Snapshot()).writecb.Some?
      ensures var s := old(Snapshot());
              && Snapshot() == s.(writing := false, writecb := None, length := s.length - s.writelen, writelen := 0)
              && wasSync == s.sync && cb == s.writecb.value
    {
      wasSync, cb := sync, writecb.value;
      writing := false;
      writecb := None;
      length := length - writelen;
      writelen := 0;
    }

    method NextTick(task: Task)
      modifies this
      ensures var s := old(Snapshot());
              Snapshot() == s.(ticks := s.ticks + [task])
    {
      world := world.(ticks := world.ticks + [task]);
    }

    /** `I` */
    method ClearBuffer()
      requires !bufferProcessing
      modifies this
      ensures Snapshot() == WritableModel.ClearBuffer(config, old(Snapshot()))
      decreases 1, 0, 0
    {
      hide WritableModel.DoWrite, Chunks, WritableModel.OneByOne;
      if config.writev && |buffered| >= 2 {
        GiveAll();
      } else {
        GiveSome();
      }
    }

    /** The fast path: one `_writev` for everything. */
    method GiveAll()
      requires !bufferProcessing
      modifies this
      ensures var s := old(Snapshot());
              var u := WritableModel.DoWrite(config, s.(bufferProcessing := true), Chunks(s.buffered), s.length,
                                             CorkedFinish(s.buffered));
              Snapshot() == u.(pendingcb := u.pendingcb + 1, last := false, count := 0, buffered := [], bufferProcessing := false)
      decreases 0, 4, 0
    {
      hide WritableModel.DoWrite, Chunks, Snapshot;
      LaunchAll();
      Forget();
    }

    method LaunchAll()
      requires !bufferProcessing
      modifies this
      ensures var s := old(Snapshot());
              Snapshot() == WritableModel.DoWrite(config, s.(bufferProcessing := true), Chunks(s.buffered), s.length,
                                                  CorkedFinish(s.buffered))
      decreases 0, 3, 0
    {
      hide WritableModel.DoWrite, Chunks;
      bufferProcessing := true;
      ghost var t := Snapshot();
      assert t == old(Snapshot()).(bufferProcessing := true);
      DoWrite(Chunks(buffered), length, CorkedFinish(buffered));
    }

    /** Everything is with the sink now. */
    method Forget()
      modifies this
      ensures var u := old(Snapshot());
              Snapshot() == u.(pendingcb := u.pendingcb + 1, last := false, count := 0, buffered := [], bufferProcessing := false)
    {
      hide Snapshot;
      CountGroup();
      Keep([]);
    }

    /** The group has a callback of its own. */
    method CountGroup()
      modifies this
      ensures var u := old(Snapshot());
              Snapshot() == u.(pendingcb := u.pendingcb + 1, count := 0)
    {
      pendingcb := pendingcb + 1;
      count := 0;
    }

    /** The slow path. */
    method GiveSome()
      requires !bufferProcessing
      modifies this
      ensures var s := old(Snapshot());
              var (u, rest) := WritableModel.OneByOne(config, s.(bufferProcessing := true), s.buffered);
              Snapshot() == u.(last := if rest == [] then false else u.last, buffered := rest, bufferProcessing := false)
      decreases 0, 4, 0
    {
      hide WritableModel.OneByOne, Snapshot;
      StartProcessing();
      var rest := OneByOne();
      Keep(rest);
    }

    method StartProcessing()
      modifies this
      ensures bufferProcessing && buffered == old(buffered)
      ensures Snapshot() == old(Snapshot()).(bufferProcessing := true) && Snapshot().buffered == buffered
    {
      bufferProcessing := true;
    }

    /** The requests that are left stay in the list. */
    method Keep(rest: seq<Entry>)
      modifies this
      ensures var u := old(Snapshot());
              Snapshot() == u.(last := if rest == [] then false else u.last, buffered := rest, bufferProcessing := false)
    {
      if rest == [] {
        last := false;
      }
      buffered := rest;
      bufferProcessing := false;
    }

    /** The loop of the slow path; the requests not given to the sink are returned. */
    method OneByOne() returns (entries: seq<Entry>)
      requires bufferProcessing
      modifies this
      ensures bufferProcessing
      ensures (Snapshot(), entries) == WritableModel.OneByOne(config, old(Snapshot()), old(buffered))
      decreases 0, 3, 0
    {
      hide WritableModel.DoWrite, WritableModel.OneByOne, Snapshot;
      entries := buffered;
      Processing();
      while entries != []
        invariant bufferProcessing && Snapshot().bufferProcessing
        invariant WritableModel.OneByOne(config, Snapshot(), entries)
                  == WritableModel.OneByOne(config, old(Snapshot()), old(buffered))
        decreases |entries|
      {
        var entry := entries[0];
        ghost var before, todo := Snapshot(), entries;
        DoWrite([entry.chunk], config.Size(entry.chunk), User(entry.cb));
        entries := entries[1..];
        var stop := OneLess();
        LoopTurn(config, before, todo, Snapshot());
        Processing();
        if stop {
          return;
        }
      }
      NoneLeft(config, Snapshot());
    }

    lemma Processing()
      ensures Snapshot().bufferProcessing == bufferProcessing
    {
    }

    /** One request less is buffered; the loop stops if the sink has not completed the write. */
    method OneLess() returns (stop: bool)
      modifies this
      ensures var u := old(Snapshot());
              Snapshot() == u.(count := u.count - 1) && stop == u.writing
    {
      count := count - 1;
      stop := writing;
    }

    // ----- Callbacks -----

    /** `k`: emits `drain` or runs the callback; what follows the user code stays on the stack. */
    method RunAfterWrite(done: bool, cb: Callback)
      modifies this
      ensures Snapshot() == WritableModel.RunAfterWrite(old(Snapshot()), done, cb)
    {
      hide WritableModel.RunCallback;
      if !done && length == 0 && needDrain {
        needDrain := false;
        world := world.(drains := world.drains + 1, stack := world.stack + [AfterDrain(cb)]);
      } else {
        RunCallback(cb);
      }
    }

    method RunCallback(cb: Callback)
      modifies this
      ensures Snapshot() == WritableModel.RunCallback(old(Snapshot()), cb)
    {
      pendingcb := pendingcb - 1;
      match cb
      case User(id) =>
        world := world.(called := world.called + [id], stack := world.stack + [FinishMaybe]);
      case CorkedFinish(entries) =>
        world := world.(stack := world.stack + [FinishMaybe, CorkedRest(entries)]);
    }

    // ----- Finishing -----

    /** `R` */
    predicate NeedFinish()
      reads this
    {
      ending && length == 0 && buffered == [] && !finished && !writing
    }

    /** `T` */
    method FinishStep()
      modifies this
      ensures Snapshot() == WritableModel.FinishStep(config, old(Snapshot()))
    {
      hide WritableModel.Prefinish;
      if NeedFinish() {
        Prefinish();
        FinishIfDone();
      }
    }

    method FinishIfDone()
      modifies this
      ensures var t := old(Snapshot());
              Snapshot() == if t.pendingcb == 0 then t.(finished := true, finishes := t.finishes + 1) else t
    {
      if pendingcb == 0 {
        finished := true;
        world := world.(finishes := world.finishes + 1);
      }
    }

    method Prefinish()
      modifies this
      ensures Snapshot() == WritableModel.Prefinish(config, old(Snapshot()))
    {
      if !prefinished && !finalCalled {
        if config.final {
          pendingcb := pendingcb + 1;
          finalCalled := true;
          NextTick(CallFinal);
        } else {
          prefinished := true;
        }
      }
    }

    // ----- The operations of a caller -----

    /** `write`: whether the caller may go on, which is false for a chunk after `end`. */
    method Write(chunk: Chunk) returns (more: bool)
      modifies this
      ensures Snapshot() == WriteStep(config, old(Snapshot()), chunk)
      ensures more <==> !old(ending) && old(length) + config.Size(chunk) < config.highWaterMark
    {
      hide WritableModel.DoWrite;
      if ending {
        return false;
      }
      var entry, len := Entry(chunk, |world.accepted|), config.Size(chunk);
      more := Accept(chunk);
      if writing || corked > 0 {
        Append(entry);
      } else {
        DoWrite([chunk], len, User(entry.cb));
      }
    }

    /** The chunk is counted before anything is done with it. */
    method Accept(chunk: Chunk) returns (more: bool)
      modifies this
      ensures var s, len := old(Snapshot()), config.Size(chunk);
              && Snapshot() == s.(accepted := s.accepted + [chunk], pendingcb := s.pendingcb + 1, length := s.length + len,
                                  needDrain := s.needDrain || s.length + len >= config.highWaterMark)
              && more == (s.length + len < config.highWaterMark)
    {
      var len := config.Size(chunk);
      Count(chunk, len);
      more := length < config.highWaterMark;
      needDrain := needDrain || !more;
    }

    method Count(chunk: Chunk, len: nat)
      modifies this
      ensures length == old(length) + len && needDrain == old(needDrain)
      ensures var s := old(Snapshot());
              Snapshot() == s.(accepted := s.accepted + [chunk], pendingcb := s.pendingcb + 1, length := s.length + len)
    {
      world := world.(accepted := world.accepted + [chunk]);
      pendingcb := pendingcb + 1;
      length := length + len;
    }

    /** The new request goes behind the last one, or starts the list. */
    method Append(entry: Entry)
      modifies this
      ensures Snapshot() == WritableModel.Append(old(Snapshot()), entry)
    {
      if !last {
        buffered := [entry];
      } else if buffered != [] {
        buffered := buffered + [entry];
      }
      last := true;
      count := count + 1;
    }

    method Cork()
      modifies this
      ensures Snapshot() == Step(config, old(Snapshot()), Event.Cork)
    {
      corked := corked + 1;
    }

    method Uncork()
      modifies this
      ensures Snapshot() == UncorkStep(config, old(Snapshot()))
    {
      hide WritableModel.ClearBuffer;
      if corked > 0 {
        corked := corked - 1;
        if !writing && corked == 0 && !bufferProcessing && buffered != [] {
          ClearBuffer();
        }
      }
    }

    method End(chunk: Option<Chunk>)
      modifies this
      ensures Snapshot() == EndStep(config, old(Snapshot()), chunk)
    {
      hide WriteStep, UncorkStep, WritableModel.FinishStep;
      if chunk.Some? {
        var _ := Write(chunk.value);
      }
      FullyUncork();
      EndWritable();
    }

    method FullyUncork()
      modifies this
      ensures var t := old(Snapshot());
              Snapshot() == if t.corked > 0 then UncorkStep(config, t.(corked := 1)) else t
    {
      hide UncorkStep;
      if corked > 0 {
        corked := 1;
        Uncork();
      }
    }

    method EndWritable()
      modifies this
      ensures var u := old(Snapshot());
              Snapshot() == if u.ending then u else WritableModel.FinishStep(config, u.(ending := true))
    {
      hide WritableModel.FinishStep;
      if !ending {
        ending := true;
        FinishStep();
      }
    }

    // ----- What happens by itself -----

    /** The next nextTick task. */
    method Tick()
      requires world.ticks != []
      modifies this
      ensures Snapshot() == TickStep(old(Snapshot()))
    {
      hide WritableModel.RunAfterWrite, Snapshot;
      var task := NextTask();
      match task
      case AfterWrite(done, cb) => RunAfterWrite(done, cb);
      case CallFinal => CallsFinal();
    }

    method NextTask() returns (task: Task)
      requires world.ticks != []
      modifies this
      ensures old(Snapshot()).ticks != []
      ensures var s := old(Snapshot());
              task == s.ticks[0] && Snapshot() == s.(ticks := s.ticks[1..])
    {
      task := world.ticks[0];
      world := world.(ticks := world.ticks[1..]);
    }

    method CallsFinal()
      modifies this
      ensures Snapshot() == old(Snapshot()).(finalOpen := true)
    {
      world := world.(finalOpen := true);
    }

    /** User code returns, and the frame below it goes on. */
    method Resume()
      requires world.stack != []
      modifies this
      ensures Snapshot() == ResumeStep(config, old(Snapshot()))
    {
      hide WritableModel.RunCallback, WritableModel.FinishStep, Snapshot;
      var frame := Pop();
      match frame
      case FinishMaybe => FinishStep();
      case AfterDrain(cb) => RunCallback(cb);
      case CorkedRest(entries) =>
        if entries != [] {
          CallFirst(entries);
        }
    }

    method Pop() returns (frame: Frame)
      requires world.stack != []
      modifies this
      ensures old(Snapshot()).stack != []
      ensures var s := old(Snapshot());
              var n := |s.stack| - 1;
              frame == s.stack[n] && Snapshot() == s.(stack := s.stack[..n])
    {
      frame := world.stack[|world.stack| - 1];
      world := world.(stack := world.stack[..|world.stack| - 1]);
    }

    /** One turn of the loop over the callbacks of a group. */
    method CallFirst(entries: seq<Entry>)
      requires entries != []
      modifies this
      ensures var t := old(Snapshot());
              Snapshot() == t.(pendingcb := t.pendingcb - 1, called := t.called + [entries[0].cb],
                               stack := t.stack + [CorkedRest(entries[1..])])
    {
      pendingcb := pendingcb - 1;
      world := world.(called := world.called + [entries[0].cb], stack := world.stack + [CorkedRest(entries[1..])]);
    }

    /** `_final` calls back. */
    method FinalDone()
      requires world.finalOpen
      modifies this
      ensures Snapshot() == FinalStep(config, old(Snapshot()))
    {
      hide WritableModel.FinishStep, Snapshot;
      NoteFinal();
      FinishStep();
    }

    method NoteFinal()
      modifies this
      ensures var s := old(Snapshot());
              Snapshot() == s.(finalOpen := false, pendingcb := s.pendingcb - 1, prefinished := true)
    {
      world := world.(finalOpen := false);
      pendingcb := pendingcb - 1;
      prefinished := true;
    }
  }

  /** A stream object to which the events happen one after the other. */
  method Replay(config: Config, events: seq<Event>) returns (stream: WritableStream)
    requires RunOf(config, events).Some?
    ensures fresh(stream) && stream.config == config
    ensures stream.Snapshot() == RunOf(config, events).value
  {
    hide Step, Enabled, WritableStream.Snapshot;
    stream := new WritableStream(config);
    assert events[..0] == [];
    for k := 0 to |events|
      invariant fresh(stream) && stream.config == config
      invariant RunOf(config, events[..k]) == Some(stream.Snapshot())
    {
      RunsOfPrefixes(config, events, k + 1);
      assert events[..k + 1][..k] == events[..k];
      Happen(stream, events[k]);
    }
    assert events[..|events|] == events;
  }

  lemma {:induction false} RunsOfPrefixes(c: Config, events: seq<Event>, k: nat)
    requires k <= |events| && RunOf(c, events).Some?
    ensures RunOf(c, events[..k]).Some?
    decreases |events|
  {
    hide Step, Enabled;
    if k == |events| {
      assert events[..k] == events;
    } else {
      var n := |events| - 1;
      RunsOfPrefixes(c, events[..n], k);
      assert events[..n][..k] == events[..k];
    }
  }

  method Happen(stream: WritableStream, e: Event)
    requires Enabled(stream.Snapshot(), e)
    modifies stream
    ensures stream.Snapshot() == Step(stream.config, old(stream.Snapshot()), e)
  {
    hide WriteStep, UncorkStep, EndStep, WritableModel.OnWrite, TickStep, ResumeStep, FinalStep;
    match e
    case Write(chunk) => var _ := stream.Write(chunk);
    case Cork => stream.Cork();
    case Uncork => stream.Uncork();
    case End(last) => stream.End(last);
    case SinkDone => stream.OnWrite();
    case Tick => stream.Tick();
    case Resume => stream.Resume();
    case FinalDone => stream.FinalDone();
  }

  lemma NoneLeft(c: Config, s: State)
    requires s.bufferProcessing
    ensures WritableModel.OneByOne(c, s, []) == (s, [])
  {
  }

  /** One turn of the loop is one unfolding of the recursion. */
  lemma LoopTurn(c: Config, s: State, entries: seq<Entry>, r: State)
    requires s.bufferProcessing && entries != []
    requires var e := entries[0];
             var t := WritableModel.DoWrite(c, s, [e.chunk], c.Size(e.chunk), User(e.cb));
             r == t.(count := t.count - 1)
    ensures r.bufferProcessing
    ensures WritableModel.OneByOne(c, s, entries)
            == if r.writing then (r, entries[1..]) else WritableModel.OneByOne(c, r, entries[1..])
  {
    hide WritableModel.DoWrite;
  }
}
