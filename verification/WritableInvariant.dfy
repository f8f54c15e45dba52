/** What every state of a writable stream keeps (module 4229), and that every step keeps it. */
module WritableInvariant {
  import opened Optional
  import opened WritableModel

  // ----- Counting what is owed -----

  function Bytes(c: Config, es: seq<Entry>): (n: nat) {
    if es == [] then 0 else Bytes(c, es[..|es| - 1]) + c.Size(es[|es| - 1].chunk)
  }

  function Ids(es: seq<Entry>): (m: multiset<nat>)
    ensures |m| == |es|
  {
    if es == [] then multiset{} else Ids(es[..|es| - 1]) + multiset{es[|es| - 1].cb}
  }

  /** How much a callback takes off pendingcb: a write's callback one, and the callback of a `_writev` one for
      itself and one for each of its entries. */
  function CallbackWeight(cb: Callback): (n: nat) {
    if cb.User? then 1 else 1 + |cb.entries|
  }

  function CallbackIds(cb: Callback): (m: multiset<nat>) {
    if cb.User? then multiset{cb.id} else Ids(cb.entries)
  }

  function OptionWeight(cb: Option<Callback>): (n: nat) {
    if cb.None? then 0 else CallbackWeight(cb.value)
  }

  function OptionIds(cb: Option<Callback>): (m: multiset<nat>) {
    if cb.None? then multiset{} else CallbackIds(cb.value)
  }

  function TaskWeight(t: Task): (n: nat) {
    if t.CallFinal? then 1 else CallbackWeight(t.cb)
  }

  function TaskIds(t: Task): (m: multiset<nat>) {
    if t.CallFinal? then multiset{} else CallbackIds(t.cb)
  }

  function FrameWeight(f: Frame): (n: nat) {
    match f
    case FinishMaybe => 0
    case CorkedRest(entries) => |entries|
    case AfterDrain(cb) => CallbackWeight(cb)
  }

  function FrameIds(f: Frame): (m: multiset<nat>) {
    match f
    case FinishMaybe => multiset{}
    case CorkedRest(entries) => Ids(entries)
    case AfterDrain(cb) => CallbackIds(cb)
  }

  function TicksWeight(ts: seq<Task>): (n: nat) {
    if ts == [] then 0 else TicksWeight(ts[..|ts| - 1]) + TaskWeight(ts[|ts| - 1])
  }

  function TicksIds(ts: seq<Task>): (m: multiset<nat>) {
    if ts == [] then multiset{} else TicksIds(ts[..|ts| - 1]) + TaskIds(ts[|ts| - 1])
  }

  function StackWeight(fs: seq<Frame>): (n: nat) {
    if fs == [] then 0 else StackWeight(fs[..|fs| - 1]) + FrameWeight(fs[|fs| - 1])
  }

  function StackIds(fs: seq<Frame>): (m: multiset<nat>) {
    if fs == [] then multiset{} else StackIds(fs[..|fs| - 1]) + FrameIds(fs[|fs| - 1])
  }

  /** The numbers 0 to n - 1. */
  function UpTo(n: nat): (m: multiset<nat>)
    ensures |m| == n
  {
    if n == 0 then multiset{} else UpTo(n - 1) + multiset{n - 1}
  }

  // ----- The invariant -----

  /** The callbacks of the requests are numbered from `from` on. */
  ghost predicate Numbered(es: seq<Entry>, from: nat) {
    forall i :: 0 <= i < |es| ==> es[i].cb == from + i
  }

  /** What is accepted has gone to the sink or is in `es`; `length` is the size of what the sink is working on
      and of `es`. */
  ghost predicate Flows(c: Config, s: State, es: seq<Entry>) {
    && (s.writing <==> s.writecb.Some?)
    && (!s.writing ==> s.writelen == 0)
    && s.writelen >= 0
    && s.length == s.writelen + Bytes(c, es)
    && s.accepted == s.sunk + Chunks(es)
    && Numbered(es, |s.sunk|)
    && !s.overlapped
  }

  /** pendingcb counts every callback that is owed, with `hand` one in the hands of the running function. */
  ghost predicate Owes(s: State, es: seq<Entry>, hand: Option<Callback>) {
    s.pendingcb == |es| + OptionWeight(s.writecb) + TicksWeight(s.ticks) + StackWeight(s.stack)
                   + OptionWeight(hand) + (if s.finalOpen then 1 else 0)
  }

  /** Every accepted write has its callback run once or owed once. */
  ghost predicate CallsOnce(s: State, es: seq<Entry>, hand: Option<Callback>) {
    multiset(s.called) + Ids(es) + OptionIds(s.writecb) + TicksIds(s.ticks) + StackIds(s.stack) + OptionIds(hand)
    == UpTo(|s.accepted|)
  }

  /** A queued task was queued by a synchronous completion, which never was the last thing to happen. */
  ghost predicate NoneFinished(ts: seq<Task>) {
    forall i :: 0 <= i < |ts| && ts[i].AfterWrite? ==> !ts[i].finished
  }

  ghost predicate FinishesOnce(s: State, es: seq<Entry>) {
    && NoneFinished(s.ticks)
    && s.finishes == (if s.finished then 1 else 0)
    && (s.finished ==> s.ending && es == [] && !s.writing && s.pendingcb == 0)
  }

  /** All of it, with `es` the requests not yet given to the sink. */
  ghost predicate Conserves(c: Config, s: State, es: seq<Entry>, hand: Option<Callback>) {
    Flows(c, s, es) && Owes(s, es, hand) && CallsOnce(s, es, hand) && FinishesOnce(s, es)
  }

  // ----- Facts about the sums -----

  lemma TicksPush(ts: seq<Task>, t: Task)
    ensures TicksWeight(ts + [t]) == TicksWeight(ts) + TaskWeight(t)
    ensures TicksIds(ts + [t]) == TicksIds(ts) + TaskIds(t)
  {
    assert (ts + [t])[..|ts|] == ts;
  }

  lemma {:induction false} TicksPop(ts: seq<Task>)
    requires ts != []
    ensures TicksWeight(ts) == TaskWeight(ts[0]) + TicksWeight(ts[1..])
    ensures TicksIds(ts) == TaskIds(ts[0]) + TicksIds(ts[1..])
  {
    hide TaskWeight, TaskIds;
    var n := |ts| - 1;
    if n == 0 {
      assert ts[..0] == [] && ts[1..] == [];
    } else {
      TicksPop(ts[..n]);
      TicksPush(ts[..n], ts[n]);
      TicksPush(ts[..n][1..], ts[n]);
      assert ts == ts[..n] + [ts[n]] && ts[1..] == ts[..n][1..] + [ts[n]];
      hide TicksWeight, TicksIds;
    }
  }

  lemma {:induction false} EntriesPop(c: Config, es: seq<Entry>)
    requires es != []
    ensures Bytes(c, es) == c.Size(es[0].chunk) + Bytes(c, es[1..])
    ensures Ids(es) == multiset{es[0].cb} + Ids(es[1..])
    ensures Chunks(es) == [es[0].chunk] + Chunks(es[1..])
  {
    hide Ids, Chunks;
    IdsPop(es);
    ChunksPop(es);
    var n := |es| - 1;
    if n > 0 {
      EntriesPop(c, es[..n]);
      assert es[..n][1..] == es[1..][..n - 1];
    } else {
      assert es[..0] == [] && es[1..] == [];
    }
  }

  lemma {:induction false} ChunksPop(es: seq<Entry>)
    requires es != []
    ensures Chunks(es) == [es[0].chunk] + Chunks(es[1..])
  {
    var n := |es| - 1;
    if n > 0 {
      ChunksPop(es[..n]);
      assert es[..n][1..] == es[1..][..n - 1];
      assert [es[0].chunk] + (Chunks(es[1..][..n - 1]) + [es[n].chunk])
             == [es[0].chunk] + Chunks(es[1..][..n - 1]) + [es[n].chunk];
    } else {
      assert es[..0] == [] && es[1..] == [];
    }
  }

  lemma {:induction false} IdsPop(es: seq<Entry>)
    requires es != []
    ensures Ids(es) == multiset{es[0].cb} + Ids(es[1..])
  {
    var n := |es| - 1;
    if n > 0 {
      IdsPop(es[..n]);
      assert es[..n][1..] == es[1..][..n - 1];
      assert Ids(es) == Ids(es[..n]) + multiset{es[n].cb};
      assert Ids(es[1..]) == Ids(es[..n][1..]) + multiset{es[n].cb};
    } else {
      assert es[..0] == [] && es[1..] == [];
    }
  }

  lemma EntriesPush(c: Config, es: seq<Entry>, e: Entry)
    ensures Bytes(c, es + [e]) == Bytes(c, es) + c.Size(e.chunk)
    ensures Ids(es + [e]) == Ids(es) + multiset{e.cb}
    ensures Chunks(es + [e]) == Chunks(es) + [e.chunk]
  {
    assert (es + [e])[..|es|] == es;
  }

  lemma StackPush(fs: seq<Frame>, f: Frame)
    ensures StackWeight(fs + [f]) == StackWeight(fs) + FrameWeight(f)
    ensures StackIds(fs + [f]) == StackIds(fs) + FrameIds(f)
  {
    assert (fs + [f])[..|fs|] == fs;
  }

  // ----- moving an owed callback from one place to another -----

  /** What is owed by tasks, frames, `_final` and the running function. */
  function Due(s: State, hand: Option<Callback>): (n: nat) {
    TicksWeight(s.ticks) + StackWeight(s.stack) + OptionWeight(hand) + (if s.finalOpen then 1 else 0)
  }

  function DueIds(s: State, hand: Option<Callback>): (m: multiset<nat>) {
    multiset(s.called) + TicksIds(s.ticks) + StackIds(s.stack) + OptionIds(hand)
  }

  /** What the flow of chunks and `finish` depend on. */
  predicate SameFlow(s: State, r: State) {
    && r.writing == s.writing && r.writecb == s.writecb && r.writelen == s.writelen && r.length == s.length
    && r.accepted == s.accepted && r.sunk == s.sunk && r.overlapped == s.overlapped
    && r.finishes == s.finishes && r.finished == s.finished && r.ending == s.ending
  }

  lemma MovedKeeps(c: Config, s: State, r: State, es: seq<Entry>, from: Option<Callback>, to: Option<Callback>)
    requires Conserves(c, s, es, from) && SameFlow(s, r) && NoneFinished(r.ticks)
    requires s.pendingcb - Due(s, from) == r.pendingcb - Due(r, to)
    requires DueIds(s, from) == DueIds(r, to)
    requires r.finished ==> r.pendingcb == s.pendingcb
    ensures Conserves(c, r, es, to)
  {
    hide Bytes, Chunks, Ids, TicksIds, TicksWeight, StackIds, StackWeight, UpTo, OptionIds, OptionWeight, NoneFinished;
    assert Flows(c, r, es) by { hide Owes, CallsOnce, FinishesOnce; }
    assert Owes(r, es, to) by { hide Flows, CallsOnce, FinishesOnce, DueIds; }
    MovedCallsOnce(s, r, es, from, to);
    assert FinishesOnce(r, es) by { hide Flows, Owes, CallsOnce, DueIds, Due; }
    hide Flows, Owes, CallsOnce, FinishesOnce, DueIds, Due;
  }

  lemma MovedCallsOnce(s: State, r: State, es: seq<Entry>, from: Option<Callback>, to: Option<Callback>)
    requires CallsOnce(s, es, from) && SameFlow(s, r) && DueIds(s, from) == DueIds(r, to)
    ensures CallsOnce(r, es, to)
  {
    hide Ids, TicksIds, StackIds, UpTo, OptionIds;
    assert multiset(s.called) + Ids(es) + OptionIds(s.writecb) + TicksIds(s.ticks) + StackIds(s.stack) + OptionIds(from)
           == Ids(es) + OptionIds(s.writecb) + DueIds(s, from);
  }

  lemma QueueIsUnfinished(c: Config, s: State, es: seq<Entry>, hand: Option<Callback>)
    requires Conserves(c, s, es, hand)
    ensures NoneFinished(s.ticks)
  {
    hide Flows, Owes, CallsOnce, NoneFinished;
  }

  // ----- The steps -----

  lemma RunCallbackKeeps(c: Config, s: State, es: seq<Entry>, cb: Callback)
    requires Conserves(c, s, es, Some(cb))
    ensures Conserves(c, RunCallback(s, cb), es, None)
  {
    RunCallbackCallsOnce(s, es, cb);
    RunCallbackOwes(s, es, cb);
    RunCallbackFrame(s, cb);
    hide CallsOnce, Owes, Bytes, Chunks, NoneFinished, RunCallback;
  }

  lemma RunCallbackFrame(s: State, cb: Callback)
    ensures var r := RunCallback(s, cb);
            r == s.(pendingcb := s.pendingcb - 1, called := r.called, stack := r.stack)
  {
    match cb
    case User(_) =>
    case CorkedFinish(_) =>
  }

  lemma RunCallbackOwes(s: State, es: seq<Entry>, cb: Callback)
    requires Owes(s, es, Some(cb))
    ensures Owes(RunCallback(s, cb), es, None)
    ensures s.pendingcb > 0
  {
    RunCallbackStack(s, cb);
    hide TicksWeight, StackWeight, StackIds, Ids;
  }

  lemma RunCallbackStack(s: State, cb: Callback)
    ensures var r := RunCallback(s, cb);
            && StackWeight(r.stack) == StackWeight(s.stack) + CallbackWeight(cb) - 1
            && StackIds(r.stack) == StackIds(s.stack) + (if cb.User? then multiset{} else CallbackIds(cb))
  {
    StackPush(s.stack, FinishMaybe);
    if cb.CorkedFinish? {
      StackPush(s.stack + [FinishMaybe], CorkedRest(cb.entries));
      assert s.stack + [FinishMaybe, CorkedRest(cb.entries)] == s.stack + [FinishMaybe] + [CorkedRest(cb.entries)];
    }
    hide StackWeight, StackIds, Ids;
  }

  lemma RunCallbackCallsOnce(s: State, es: seq<Entry>, cb: Callback)
    requires CallsOnce(s, es, Some(cb))
    ensures CallsOnce(RunCallback(s, cb), es, None)
  {
    RunCallbackStack(s, cb);
    hide Ids, TicksIds, StackIds, UpTo;
    var r := RunCallback(s, cb);
    if cb.User? {
      assert multiset(r.called) == multiset(s.called) + multiset{cb.id};
    }
  }

  lemma DrainKeeps(c: Config, s: State, es: seq<Entry>, cb: Callback)
    requires Conserves(c, s, es, Some(cb))
    ensures Conserves(c, s.(needDrain := false, drains := s.drains + 1, stack := s.stack + [AfterDrain(cb)]), es, None)
  {
    hide Conserves, StackIds, StackWeight, TicksIds, TicksWeight, NoneFinished, CallbackIds, CallbackWeight;
    StackPush(s.stack, AfterDrain(cb));
    QueueIsUnfinished(c, s, es, Some(cb));
    MovedKeeps(c, s, s.(needDrain := false, drains := s.drains + 1, stack := s.stack + [AfterDrain(cb)]), es, Some(cb), None);
  }

  // ----- Handing chunks to the sink -----

  /** What `A` leaves behind when no completion can start another write: while the buffer is being cleared, or
      with nothing buffered. */
  function Handed(c: Config, s: State, chunks: seq<Chunk>, len: int, cb: Callback): (r: State) {
    if c.completesNow(s.sinkCalls) then Completed(s, chunks, len, cb) else Started(s, chunks, len, cb)
  }

  function Started(s: State, chunks: seq<Chunk>, len: int, cb: Callback): (r: State) {
    s.(sync := false, sunk := s.sunk + chunks, sinkCalls := s.sinkCalls + 1, overlapped := s.overlapped || s.writing,
       writing := true, writecb := Some(cb), writelen := len)
  }

  function Completed(s: State, chunks: seq<Chunk>, len: int, cb: Callback): (r: State) {
    s.(sync := false, sunk := s.sunk + chunks, sinkCalls := s.sinkCalls + 1, overlapped := s.overlapped || s.writing,
       length := s.length - len, writing := false, writecb := None, writelen := 0, ticks := s.ticks + [AfterWrite(false, cb)])
  }

  /** No write can start, and nothing can finish, from a completion now. */
  predicate Quiet(s: State) {
    (s.bufferProcessing && s.buffered != []) || (s.buffered == [] && !s.ending)
  }

  /** `A` up to the call of the sink. */
  function Launched(s: State, chunks: seq<Chunk>, len: int, cb: Callback): (r: State) {
    s.(writelen := len, writecb := Some(cb), writing := true, sync := true,
       sunk := s.sunk + chunks, sinkCalls := s.sinkCalls + 1, overlapped := s.overlapped || s.writing)
  }

  /** A completion that starts and finishes nothing. */
  function Landed(s: State): (r: State)
    requires s.writecb.Some?
  {
    s.(writing := false, writecb := None, length := s.length - s.writelen, writelen := 0,
       ticks := s.ticks + [AfterWrite(false, s.writecb.value)])
  }

  lemma OnWriteQuiet(c: Config, s: State)
    requires Quiet(s) && s.writecb.Some? && s.sync
    ensures OnWrite(c, s) == Landed(s)
  {
    var t := s.(writing := false, writecb := None, length := s.length - s.writelen, writelen := 0);
    assert !NeedFinish(t);
    if s.bufferProcessing {
      assert t.bufferProcessing;
    } else {
      assert t.buffered == [];
    }
  }

  lemma LaunchedQuiet(s: State, chunks: seq<Chunk>, len: int, cb: Callback)
    requires Quiet(s)
    ensures var t := Launched(s, chunks, len, cb);
            Quiet(t) && t.sync && t.writecb == Some(cb)
  {
  }

  lemma DoWriteUnfolds(c: Config, s: State, chunks: seq<Chunk>, len: int, cb: Callback)
    ensures var t := Launched(s, chunks, len, cb);
            && t.writecb.Some?
            && DoWrite(c, s, chunks, len, cb) == (if c.completesNow(s.sinkCalls) then OnWrite(c, t) else t).(sync := false)
  {
    hide OnWrite;
  }

  lemma LandedIsCompleted(s: State, chunks: seq<Chunk>, len: int, cb: Callback)
    ensures var t := Launched(s, chunks, len, cb);
            && t.writecb.Some? && Landed(t).(sync := false) == Completed(s, chunks, len, cb)
            && t.(sync := false) == Started(s, chunks, len, cb)
  {
    LaunchedIsStarted(s, chunks, len, cb);
    hide Started;
  }

  lemma LaunchedIsStarted(s: State, chunks: seq<Chunk>, len: int, cb: Callback)
    ensures Launched(s, chunks, len, cb).(sync := false) == Started(s, chunks, len, cb)
  {
  }

  lemma DoWriteHands(c: Config, s: State, chunks: seq<Chunk>, len: int, cb: Callback)
    requires Quiet(s)
    ensures DoWrite(c, s, chunks, len, cb) == Handed(c, s, chunks, len, cb)
  {
    hide OnWrite, DoWrite, Launched, Landed, Quiet, Completed, Started;
    DoWriteUnfolds(c, s, chunks, len, cb);
    LandedIsCompleted(s, chunks, len, cb);
    LaunchedQuiet(s, chunks, len, cb);
    OnWriteQuiet(c, Launched(s, chunks, len, cb));
  }

  /** The requests `es` are a group of chunks of size len with the callback cb, and then `rest`. */
  ghost predicate Splits(c: Config, es: seq<Entry>, chunks: seq<Chunk>, len: int, cb: Callback, rest: seq<Entry>) {
    && Chunks(es) == chunks + Chunks(rest) && Bytes(c, es) == len + Bytes(c, rest) && len >= 0
    && Ids(es) == CallbackIds(cb) + Ids(rest)
    && |chunks| + |rest| == |es| && rest == es[|chunks|..]
  }

  /** How much the callback of a group takes off pendingcb beyond its entries. */
  function Extra(es: seq<Entry>, cb: Callback, rest: seq<Entry>): (n: int) {
    CallbackWeight(cb) - (|es| - |rest|)
  }

  lemma StartedKeeps(c: Config, s: State, es: seq<Entry>, rest: seq<Entry>, chunks: seq<Chunk>, len: int, cb: Callback,
                     hand: Option<Callback>)
    requires Conserves(c, s, es, hand) && !s.writing && !s.finished && Splits(c, es, chunks, len, cb, rest)
    ensures var r := Started(s, chunks, len, cb);
            Conserves(c, r.(pendingcb := r.pendingcb + Extra(es, cb, rest)), rest, hand)
  {
    hide Bytes, Chunks, Ids, TicksIds, TicksWeight, StackIds, StackWeight, UpTo, CallbackWeight, CallbackIds, NoneFinished;
    assert s.sunk + (chunks + Chunks(rest)) == (s.sunk + chunks) + Chunks(rest);
  }

  lemma CompletedKeeps(c: Config, s: State, es: seq<Entry>, rest: seq<Entry>, chunks: seq<Chunk>, len: int, cb: Callback,
                       hand: Option<Callback>)
    requires Conserves(c, s, es, hand) && !s.writing && !s.finished && Splits(c, es, chunks, len, cb, rest)
    ensures var r := Completed(s, chunks, len, cb);
            Conserves(c, r.(pendingcb := r.pendingcb + Extra(es, cb, rest)), rest, hand)
  {
    hide Bytes, Chunks, Ids, TicksIds, TicksWeight, StackIds, StackWeight, UpTo, CallbackIds, CallbackWeight, NoneFinished;
    var r := Completed(s, chunks, len, cb);
    var v := r.(pendingcb := r.pendingcb + Extra(es, cb, rest));
    assert Flows(c, v, rest) by { CompletedFlows(c, s, es, rest, chunks, len, cb); }
    assert Owes(v, rest, hand) by { CompletedOwes(s, es, rest, chunks, len, cb, hand); }
    assert CallsOnce(v, rest, hand) by {
      TicksPush(s.ticks, AfterWrite(false, cb));
      CompletedCallsOnce(s, v, es, rest, cb, hand);
    }
    assert FinishesOnce(v, rest) by { StillNoneFinished(s.ticks, AfterWrite(false, cb)); }
  }

  lemma CompletedFlows(c: Config, s: State, es: seq<Entry>, rest: seq<Entry>, chunks: seq<Chunk>, len: int, cb: Callback)
    requires Flows(c, s, es) && !s.writing && Splits(c, es, chunks, len, cb, rest)
    ensures Flows(c, Completed(s, chunks, len, cb), rest)
  {
    hide Bytes, Chunks, Ids;
    assert s.sunk + (chunks + Chunks(rest)) == (s.sunk + chunks) + Chunks(rest);
  }

  lemma CompletedOwes(s: State, es: seq<Entry>, rest: seq<Entry>, chunks: seq<Chunk>, len: int, cb: Callback,
                      hand: Option<Callback>)
    requires Owes(s, es, hand) && s.writecb.None?
    ensures var r := Completed(s, chunks, len, cb);
            Owes(r.(pendingcb := r.pendingcb + Extra(es, cb, rest)), rest, hand)
  {
    hide TicksWeight, StackWeight, CallbackWeight;
    TicksPush(s.ticks, AfterWrite(false, cb));
  }

  lemma CompletedCallsOnce(s: State, v: State, es: seq<Entry>, rest: seq<Entry>, cb: Callback, hand: Option<Callback>)
    requires CallsOnce(s, es, hand) && s.writecb.None? && v.writecb.None?
    requires v.accepted == s.accepted && v.called == s.called && v.stack == s.stack
    requires TicksIds(v.ticks) == TicksIds(s.ticks) + CallbackIds(cb) && Ids(es) == CallbackIds(cb) + Ids(rest)
    ensures CallsOnce(v, rest, hand)
  {
    hide Ids, TicksIds, StackIds, UpTo, CallbackIds, OptionIds;
    assert OptionIds(s.writecb) == OptionIds(v.writecb);
  }

  lemma StillNoneFinished(ts: seq<Task>, t: Task)
    requires NoneFinished(ts) && (t.AfterWrite? ==> !t.finished)
    ensures NoneFinished(ts + [t])
  {
  }

  lemma HandedKeeps(c: Config, s: State, es: seq<Entry>, rest: seq<Entry>, chunks: seq<Chunk>, len: int, cb: Callback,
                    hand: Option<Callback>)
    requires Conserves(c, s, es, hand) && !s.writing && !s.finished && Splits(c, es, chunks, len, cb, rest)
    ensures var r := Handed(c, s, chunks, len, cb);
            Conserves(c, r.(pendingcb := r.pendingcb + Extra(es, cb, rest)), rest, hand)
  {
    hide Conserves, Started, Completed, Extra;
    if c.completesNow(s.sinkCalls) {
      CompletedKeeps(c, s, es, rest, chunks, len, cb, hand);
    } else {
      StartedKeeps(c, s, es, rest, chunks, len, cb, hand);
    }
  }

  // ----- Clearing the buffer -----

  /** What clearing the buffer does not touch. */
  predicate SameRest(s: State, r: State) {
    && r.ending == s.ending && r.finished == s.finished && r.needDrain == s.needDrain
    && r.prefinished == s.prefinished && r.finalCalled == s.finalCalled && r.finalOpen == s.finalOpen
    && r.corked == s.corked && r.stack == s.stack && r.accepted == s.accepted && r.called == s.called
    && r.drains == s.drains && r.finishes == s.finishes
  }

  predicate EndsInAfterWrite(ts: seq<Task>) {
    ts != [] && ts[|ts| - 1].AfterWrite?
  }

  /** The fields that conservation depends on. */
  predicate SameAccounts(s: State, r: State) {
    && r.writing == s.writing && r.writecb == s.writecb && r.writelen == s.writelen && r.length == s.length
    && r.accepted == s.accepted && r.sunk == s.sunk && r.overlapped == s.overlapped
    && r.pendingcb == s.pendingcb && r.ticks == s.ticks
    && r.stack == s.stack && r.finalOpen == s.finalOpen && r.called == s.called
    && r.finishes == s.finishes && r.finished == s.finished && r.ending == s.ending
  }

  lemma SameConserves(c: Config, s: State, r: State, es: seq<Entry>, hand: Option<Callback>)
    requires Conserves(c, s, es, hand) && SameAccounts(s, r)
    ensures Conserves(c, r, es, hand)
  {
    hide Bytes, Chunks, Ids, TicksIds, TicksWeight, StackIds, StackWeight, UpTo, NoneFinished, OptionIds, OptionWeight;
    assert Flows(c, r, es);
    assert Owes(r, es, hand);
    assert CallsOnce(r, es, hand);
  }

  /** Requests that are owed a callback keep the stream from being finished. */
  lemma NotFinished(c: Config, s: State, es: seq<Entry>, hand: Option<Callback>)
    requires Conserves(c, s, es, hand) && (es != [] || hand.Some? || s.writing)
    ensures !s.finished
  {
    hide Bytes, Chunks, Ids, TicksIds, TicksWeight, StackIds, StackWeight, UpTo, NoneFinished, OptionIds;
  }

  /** One turn of the loop. */
  function GiveOne(c: Config, s: State, e: Entry): (r: State) {
    var t := Handed(c, s, [e.chunk], c.Size(e.chunk), User(e.cb));
    t.(count := t.count - 1)
  }

  lemma SplitsOne(c: Config, e: Entry, rest: seq<Entry>)
    ensures Splits(c, [e] + rest, [e.chunk], c.Size(e.chunk), User(e.cb), rest)
    ensures Extra([e] + rest, User(e.cb), rest) == 0
  {
    EntriesPop(c, [e] + rest);
    assert ([e] + rest)[1..] == rest;
    hide Chunks, Bytes, Ids;
  }

  lemma GiveOneKeeps(c: Config, s: State, e: Entry, rest: seq<Entry>, hand: Option<Callback>)
    requires Conserves(c, s, [e] + rest, hand) && !s.writing && !s.finished
    ensures Conserves(c, GiveOne(c, s, e), rest, hand)
  {
    hide Conserves, Handed, Splits, Extra;
    SplitsOne(c, e, rest);
    HandedKeeps(c, s, [e] + rest, rest, [e.chunk], c.Size(e.chunk), User(e.cb), hand);
    var t := Handed(c, s, [e.chunk], c.Size(e.chunk), User(e.cb));
    SameConserves(c, t.(pendingcb := t.pendingcb + Extra([e] + rest, User(e.cb), rest)), GiveOne(c, s, e), rest, hand);
  }

  lemma GiveOneRest(c: Config, s: State, e: Entry)
    ensures var u := GiveOne(c, s, e);
            && SameRest(s, u) && u.count == s.count - 1 && u.buffered == s.buffered && u.last == s.last
            && u.bufferProcessing == s.bufferProcessing && !u.sync
            && (u.writing <==> !c.completesNow(s.sinkCalls))
            && (!u.writing ==> EndsInAfterWrite(u.ticks))
  {
    if c.completesNow(s.sinkCalls) {
    } else {
    }
  }

  lemma OneByOneUnfolds(c: Config, s: State, entries: seq<Entry>)
    requires s.bufferProcessing && s.buffered != [] && entries != []
    ensures var u := GiveOne(c, s, entries[0]);
            && u.bufferProcessing
            && OneByOne(c, s, entries) == if u.writing then (u, entries[1..]) else OneByOne(c, u, entries[1..])
  {
    var e := entries[0];
    DoWriteHands(c, s, [e.chunk], c.Size(e.chunk), User(e.cb));
    hide DoWrite, Handed;
  }

  lemma OneByOneKeeps(c: Config, s: State, entries: seq<Entry>, hand: Option<Callback>)
    requires Conserves(c, s, entries, hand) && !s.writing && !s.finished && s.bufferProcessing
    requires s.buffered != [] && s.count == |entries|
    ensures var (r, rest) := OneByOne(c, s, entries);
            && Conserves(c, r, rest, hand) && SameRest(s, r) && r.count == |rest|
            && r.buffered == s.buffered && r.last == s.last
            && (r.writing ==> !r.sync) && (!r.writing ==> rest == [])
            && (entries != [] && !r.writing ==> EndsInAfterWrite(r.ticks))
    decreases |entries|
  {
    hide Conserves, GiveOne, EndsInAfterWrite;
    if entries == [] {
    } else {
      var e, rest := entries[0], entries[1..];
      assert entries == [e] + rest;
      GiveOneKeeps(c, s, e, rest, hand);
      GiveOneRest(c, s, e);
      OneByOneUnfolds(c, s, entries);
      var u := GiveOne(c, s, e);
      hide OneByOne;
      if !u.writing {
        OneByOneKeeps(c, u, rest, hand);
        if rest == [] {
          NoneLeft(c, u);
        }
      }
    }
  }

  lemma NoneLeft(c: Config, s: State)
    requires s.bufferProcessing
    ensures OneByOne(c, s, []) == (s, [])
  {
  }

  /** Everything but the promises about wake-ups. */
  ghost predicate Shape(c: Config, s: State, hand: Option<Callback>) {
    && Conserves(c, s, s.buffered, hand)
    && !s.bufferProcessing && (s.writing ==> !s.sync)
    && s.count == |s.buffered| && s.last == (s.buffered != [])
    && (!s.writing && s.corked == 0 ==> s.buffered == [])
  }

  /** The fast path: one `_writev` for all that is buffered. */
  function GiveAll(c: Config, s: State): (r: State) {
    var t := s.(bufferProcessing := true);
    var u := Handed(c, t, Chunks(s.buffered), t.length, CorkedFinish(s.buffered));
    u.(pendingcb := u.pendingcb + 1, last := false, count := 0, buffered := [], bufferProcessing := false)
  }

  lemma SplitsAll(c: Config, es: seq<Entry>)
    ensures Splits(c, es, Chunks(es), Bytes(c, es), CorkedFinish(es), [])
    ensures Extra(es, CorkedFinish(es), []) == 1
  {
    assert Chunks(es) == Chunks(es) + Chunks([]);
    assert Ids(es) == Ids(es) + Ids([]);
  }

  lemma NothingInFlight(c: Config, s: State, es: seq<Entry>, hand: Option<Callback>)
    requires Conserves(c, s, es, hand) && !s.writing
    ensures s.length == Bytes(c, es)
  {
    hide Bytes, Owes, CallsOnce, FinishesOnce;
  }

  lemma GiveAllHanded(c: Config, s: State, hand: Option<Callback>)
    requires Conserves(c, s, s.buffered, hand) && !s.writing && !s.finished
    ensures var t := s.(bufferProcessing := true);
            var u := Handed(c, t, Chunks(s.buffered), t.length, CorkedFinish(s.buffered));
            Conserves(c, u.(pendingcb := u.pendingcb + 1), [], hand)
  {
    hide Conserves, Handed, Splits, Extra, Chunks, Bytes;
    NothingInFlight(c, s, s.buffered, hand);
    var t, es, cb := s.(bufferProcessing := true), s.buffered, CorkedFinish(s.buffered);
    SameConserves(c, s, t, es, hand);
    hide SameAccounts;
    SplitsAll(c, es);
    HandedKeeps(c, t, es, [], Chunks(es), t.length, cb, hand);
  }

  lemma GiveAllKeeps(c: Config, s: State, hand: Option<Callback>)
    requires Conserves(c, s, s.buffered, hand) && !s.writing && !s.finished
    ensures Conserves(c, GiveAll(c, s), [], hand)
  {
    hide Conserves, Handed, Chunks, SameAccounts, GiveAll;
    GiveAllHanded(c, s, hand);
    GiveAllAccounts(c, s);
    var t := s.(bufferProcessing := true);
    var u := Handed(c, t, Chunks(s.buffered), t.length, CorkedFinish(s.buffered));
    SameConserves(c, u.(pendingcb := u.pendingcb + 1), GiveAll(c, s), [], hand);
  }

  lemma GiveAllAccounts(c: Config, s: State)
    ensures var t := s.(bufferProcessing := true);
            var u := Handed(c, t, Chunks(s.buffered), t.length, CorkedFinish(s.buffered));
            SameAccounts(u.(pendingcb := u.pendingcb + 1), GiveAll(c, s))
  {
    hide Handed, Chunks;
  }

  lemma GiveAllRest(c: Config, s: State)
    ensures var r := GiveAll(c, s);
            && SameRest(s, r) && r.count == 0 && r.buffered == [] && !r.last && !r.bufferProcessing && !r.sync
            && (!r.writing ==> EndsInAfterWrite(r.ticks))
  {
    hide Chunks;
    if c.completesNow(s.sinkCalls) {
    } else {
    }
  }

  lemma ClearBufferUnfolds(c: Config, s: State)
    requires !s.bufferProcessing && s.buffered != []
    ensures c.writev && |s.buffered| >= 2 ==> ClearBuffer(c, s) == GiveAll(c, s)
    ensures !(c.writev && |s.buffered| >= 2) ==>
              var (u, rest) := OneByOne(c, s.(bufferProcessing := true), s.buffered);
              ClearBuffer(c, s) == u.(last := if rest == [] then false else u.last, buffered := rest, bufferProcessing := false)
  {
    hide OneByOne, DoWrite, Handed, Chunks;
    var t := s.(bufferProcessing := true);
    DoWriteHands(c, t, Chunks(s.buffered), t.length, CorkedFinish(s.buffered));
  }

  lemma ClearBufferKeeps(c: Config, s: State, hand: Option<Callback>)
    requires Conserves(c, s, s.buffered, hand) && !s.bufferProcessing && !s.writing
    requires s.count == |s.buffered| && s.last && s.buffered != []
    ensures var r := ClearBuffer(c, s);
            && Shape(c, r, hand) && SameRest(s, r)
            && (!r.writing ==> r.buffered == [] && EndsInAfterWrite(r.ticks))
  {
    hide Conserves, ClearBuffer, EndsInAfterWrite, OneByOne, GiveAll;
    NotFinished(c, s, s.buffered, hand);
    if c.writev && |s.buffered| >= 2 {
      ClearAllKeeps(c, s, hand);
    } else {
      ClearSomeKeeps(c, s, hand);
    }
  }

  lemma ClearAllKeeps(c: Config, s: State, hand: Option<Callback>)
    requires Conserves(c, s, s.buffered, hand) && !s.bufferProcessing && !s.writing && !s.finished
    requires c.writev && |s.buffered| >= 2
    ensures var r := ClearBuffer(c, s);
            Shape(c, r, hand) && SameRest(s, r) && r.buffered == [] && (!r.writing ==> EndsInAfterWrite(r.ticks))
  {
    hide Conserves, ClearBuffer, EndsInAfterWrite, OneByOne, GiveAll, SameRest;
    ClearBufferUnfolds(c, s);
    GiveAllKeeps(c, s, hand);
    GiveAllRest(c, s);
  }

  lemma ClearSomeKeeps(c: Config, s: State, hand: Option<Callback>)
    requires Conserves(c, s, s.buffered, hand) && !s.bufferProcessing && !s.writing && !s.finished
    requires s.count == |s.buffered| && s.last && s.buffered != [] && !(c.writev && |s.buffered| >= 2)
    ensures var r := ClearBuffer(c, s);
            && Shape(c, r, hand) && SameRest(s, r)
            && (!r.writing ==> r.buffered == [] && EndsInAfterWrite(r.ticks))
  {
    hide Conserves, ClearBuffer, EndsInAfterWrite, OneByOne, GiveAll;
    ClearBufferUnfolds(c, s);
    var t := s.(bufferProcessing := true);
    SameConserves(c, s, t, s.buffered, hand);
    OneByOneKeeps(c, t, s.buffered, hand);
    var (u, rest) := OneByOne(c, t, s.buffered);
    SameConserves(c, u, ClearBuffer(c, s), rest, hand);
  }

  // ----- The events -----

  /** Something is left that will look again whether the stream is finished. */
  predicate WillFinish(s: State) {
    NeedFinish(s) ==> s.ticks != [] || s.stack != [] || s.finalOpen
  }

  /** Something is left that will emit `drain`. */
  predicate WillDrain(s: State) {
    s.needDrain && !s.ending && s.length == 0 && !s.writing && s.buffered == [] ==>
      exists i :: 0 <= i < |s.ticks| && s.ticks[i].AfterWrite?
  }

  function Finals(ts: seq<Task>): (n: nat) {
    if ts == [] then 0 else Finals(ts[..|ts| - 1]) + (if ts[|ts| - 1].CallFinal? then 1 else 0)
  }

  /** `_final` is called at most once, only after `end`, and answered before `prefinish`; `finish` comes after that. */
  predicate FinalOnce(s: State) {
    && Finals(s.ticks) + (if s.finalOpen then 1 else 0) == (if s.finalCalled && !s.prefinished then 1 else 0)
    && (s.finalCalled ==> s.ending)
    && (s.finished ==> s.prefinished)
  }

  /** Below the rest of a group of callbacks there is the frame that will look whether the stream is finished. */
  predicate Based(s: State) {
    s.stack != [] ==> !s.stack[0].CorkedRest?
  }

  /** Every state between two events. */
  ghost predicate Inv(c: Config, s: State) {
    Shape(c, s, None) && WillFinish(s) && WillDrain(s) && FinalOnce(s) && Based(s)
  }

  lemma FinalsPush(ts: seq<Task>, t: Task)
    ensures Finals(ts + [t]) == Finals(ts) + (if t.CallFinal? then 1 else 0)
  {
    assert (ts + [t])[..|ts|] == ts;
  }

  lemma {:induction false} FinalsPop(ts: seq<Task>)
    requires ts != []
    ensures Finals(ts) == (if ts[0].CallFinal? then 1 else 0) + Finals(ts[1..])
  {
    var n := |ts| - 1;
    if n > 0 {
      FinalsPop(ts[..n]);
      assert ts[..n][1..] == ts[1..][..n - 1];
    } else {
      assert ts[..0] == [] && ts[1..] == [];
    }
  }

  lemma InitialInv(c: Config)
    ensures Inv(c, INITIAL)
  {
    assert multiset([]) + Ids([]) == UpTo(0);
  }

  // ----- write -----

  /** The state of `write` once the chunk is accepted. */
  function Taken(c: Config, s: State, chunk: Chunk): (r: State) {
    var len := c.Size(chunk);
    s.(accepted := s.accepted + [chunk], pendingcb := s.pendingcb + 1, length := s.length + len,
       needDrain := s.needDrain || s.length + len >= c.highWaterMark)
  }

  lemma TakenKeeps(c: Config, s: State, chunk: Chunk)
    requires Conserves(c, s, s.buffered, None) && !s.ending
    ensures Conserves(c, Taken(c, s, chunk), s.buffered + [Entry(chunk, |s.accepted|)], None)
  {
    hide Bytes, Chunks, Ids, TicksIds, TicksWeight, StackIds, StackWeight, NoneFinished, OptionIds, OptionWeight, UpTo;
    var e, t := Entry(chunk, |s.accepted|), Taken(c, s, chunk);
    var es := s.buffered + [e];
    EntriesPush(c, s.buffered, e);
    OneMoreId(|s.accepted|);
    assert s.sunk + (Chunks(s.buffered) + [chunk]) == (s.sunk + Chunks(s.buffered)) + [chunk];
    TakenCallsOnce(s, t, e);
    hide CallsOnce;
  }

  lemma OneMoreId(n: nat)
    ensures UpTo(n + 1) == UpTo(n) + multiset{n}
  {
  }

  lemma TakenCallsOnce(s: State, t: State, e: Entry)
    requires CallsOnce(s, s.buffered, None) && e.cb == |s.accepted| && |t.accepted| == |s.accepted| + 1
    requires Ids(s.buffered + [e]) == Ids(s.buffered) + multiset{e.cb}
    requires t.called == s.called && t.writecb == s.writecb && t.ticks == s.ticks && t.stack == s.stack
    ensures CallsOnce(t, s.buffered + [e], None)
  {
    hide Ids, TicksIds, StackIds, OptionIds, UpTo;
    OneMoreId(|s.accepted|);
  }

  lemma AppendedInv(c: Config, s: State, chunk: Chunk)
    requires Inv(c, s) && !s.ending && (s.writing || s.corked > 0)
    ensures Inv(c, WriteStep(c, s, chunk))
  {
    hide Conserves, Finals, DoWrite;
    var e, t := Entry(chunk, |s.accepted|), Taken(c, s, chunk);
    TakenKeeps(c, s, chunk);
    var r := Append(t, e);
    AppendedTo(c, s, chunk);
    hide WriteStep;
    SameConserves(c, t, r, r.buffered, None);
  }

  lemma AppendedTo(c: Config, s: State, chunk: Chunk)
    requires !s.ending && (s.writing || s.corked > 0) && s.last == (s.buffered != [])
    ensures var t, e := Taken(c, s, chunk), Entry(chunk, |s.accepted|);
            && WriteStep(c, s, chunk) == Append(t, e) && Append(t, e).buffered == s.buffered + [e]
            && SameAccounts(t, Append(t, e)) && SameRest(t, Append(t, e))
  {
    hide DoWrite;
    if s.buffered == [] {
    } else {
    }
  }

  lemma DirectInv(c: Config, s: State, chunk: Chunk)
    requires Inv(c, s) && !s.ending && !s.writing && s.corked == 0
    ensures Inv(c, WriteStep(c, s, chunk))
  {
    hide Conserves, Splits, Extra, DoWrite, Handed, Finals;
    var e, t := Entry(chunk, |s.accepted|), Taken(c, s, chunk);
    TakenKeeps(c, s, chunk);
    assert s.buffered + [e] == [e] + [];
    DirectHanded(c, s, chunk);
    hide WriteStep;
    var r := Handed(c, t, [chunk], c.Size(chunk), User(e.cb));
    HandedRest(c, t, [chunk], c.Size(chunk), User(e.cb));
    HandedAlone(c, t, e);
  }

  lemma DirectHanded(c: Config, s: State, chunk: Chunk)
    requires !s.ending && !s.writing && s.corked == 0 && s.buffered == []
    ensures WriteStep(c, s, chunk) == Handed(c, Taken(c, s, chunk), [chunk], c.Size(chunk), User(|s.accepted|))
  {
    hide DoWrite, Handed;
    DoWriteHands(c, Taken(c, s, chunk), [chunk], c.Size(chunk), User(|s.accepted|));
  }

  lemma HandedAlone(c: Config, t: State, e: Entry)
    requires Conserves(c, t, [e] + [], None) && !t.writing
    ensures Conserves(c, Handed(c, t, [e.chunk], c.Size(e.chunk), User(e.cb)), [], None)
  {
    hide Conserves, Splits, Extra, Handed;
    NotFinished(c, t, [e] + [], None);
    SplitsOne(c, e, []);
    HandedKeeps(c, t, [e] + [], [], [e.chunk], c.Size(e.chunk), User(e.cb), None);
    var r := Handed(c, t, [e.chunk], c.Size(e.chunk), User(e.cb));
    assert r.(pendingcb := r.pendingcb + 0) == r;
  }

  /** What handing chunks over does not touch, and what it leaves in the queue. */
  lemma HandedRest(c: Config, s: State, chunks: seq<Chunk>, len: int, cb: Callback)
    ensures var r := Handed(c, s, chunks, len, cb);
            && SameRest(s, r) && r.count == s.count && r.buffered == s.buffered && r.last == s.last
            && r.bufferProcessing == s.bufferProcessing && !r.sync
            && (!r.writing ==> EndsInAfterWrite(r.ticks))
            && Finals(r.ticks) == Finals(s.ticks)
  {
    FinalsPush(s.ticks, AfterWrite(false, cb));
    if c.completesNow(s.sinkCalls) {
    } else {
    }
  }

  lemma WriteInv(c: Config, s: State, chunk: Chunk)
    requires Inv(c, s)
    ensures Inv(c, WriteStep(c, s, chunk))
  {
    hide Inv, DoWrite;
    if s.ending {
    } else if s.writing || s.corked > 0 {
      AppendedInv(c, s, chunk);
    } else {
      DirectInv(c, s, chunk);
    }
  }

  // ----- uncork -----

  /** Clearing the buffer keeps the number of pending `_final` calls. */
  lemma {:induction false} OneByOneFinals(c: Config, s: State, entries: seq<Entry>)
    requires s.bufferProcessing && s.buffered != []
    ensures Finals(OneByOne(c, s, entries).0.ticks) == Finals(s.ticks)
    decreases |entries|
  {
    hide Finals;
    if entries == [] {
    } else {
      var e := entries[0];
      OneByOneUnfolds(c, s, entries);
      HandedRest(c, s, [e.chunk], c.Size(e.chunk), User(e.cb));
      GiveOneRest(c, s, e);
      var u := GiveOne(c, s, e);
      hide OneByOne, Handed;
      if !u.writing {
        OneByOneFinals(c, u, entries[1..]);
      }
    }
  }

  lemma ClearBufferFinals(c: Config, s: State)
    requires !s.bufferProcessing && s.buffered != []
    ensures Finals(ClearBuffer(c, s).ticks) == Finals(s.ticks)
  {
    hide Finals, OneByOne, ClearBuffer, Handed;
    ClearBufferUnfolds(c, s);
    var t := s.(bufferProcessing := true);
    if c.writev && |s.buffered| >= 2 {
      HandedRest(c, t, Chunks(s.buffered), t.length, CorkedFinish(s.buffered));
    } else {
      OneByOneFinals(c, t, s.buffered);
    }
  }

  /** What is promised about wake-ups holds as soon as a completed write has queued its task. */
  lemma QueuedWakesUp(s: State)
    requires s.writing || EndsInAfterWrite(s.ticks)
    ensures WillFinish(s) && WillDrain(s)
  {
  }

  lemma ClearedInv(c: Config, s: State)
    requires Conserves(c, s, s.buffered, None) && !s.bufferProcessing && !s.writing
    requires s.count == |s.buffered| && s.last && s.buffered != [] && FinalOnce(s) && Based(s)
    ensures Inv(c, ClearBuffer(c, s))
  {
    hide Conserves, Shape, ClearBuffer, Finals, WillFinish, WillDrain, EndsInAfterWrite;
    ClearBufferKeeps(c, s, None);
    ClearBufferFinals(c, s);
    QueuedWakesUp(ClearBuffer(c, s));
  }

  /** The corked count alone is not part of any account. */
  lemma RecorkedInv(c: Config, s: State, n: nat)
    requires Inv(c, s) && (n == 0 ==> s.writing || s.buffered == [])
    ensures Inv(c, s.(corked := n))
  {
    hide Conserves, Finals;
    SameConserves(c, s, s.(corked := n), s.buffered, None);
  }

  lemma UncorkInv(c: Config, s: State)
    requires Inv(c, s)
    ensures Inv(c, UncorkStep(c, s))
  {
    hide Conserves, ClearBuffer, Finals;
    if s.corked == 0 {
    } else {
      var t := s.(corked := s.corked - 1);
      if !t.writing && t.corked == 0 && t.buffered != [] {
        SameConserves(c, s, t, t.buffered, None);
        ClearedInv(c, t);
      } else {
        RecorkedInv(c, s, t.corked);
      }
    }
  }

  // ----- T, and end -----

  lemma SumsOfNothing(s: State)
    requires s.ticks == [] && s.stack == []
    ensures TicksWeight(s.ticks) == 0 && StackWeight(s.stack) == 0
  {
  }

  /** An owed callback is owed somewhere. */
  lemma OwedSomewhere(s: State)
    requires Owes(s, [], None) && s.writecb.None? && s.pendingcb > 0
    ensures s.ticks != [] || s.stack != [] || s.finalOpen
  {
    hide TicksWeight, StackWeight;
    if s.ticks == [] && s.stack == [] {
      SumsOfNothing(s);
    }
  }

  /** Everything but the promise to finish, which `T` is about to keep. */
  ghost predicate Rechecks(c: Config, s: State) {
    Shape(c, s, None) && WillDrain(s) && FinalOnce(s) && Based(s)
  }

  lemma PrefinishKeeps(c: Config, s: State)
    requires Rechecks(c, s) && NeedFinish(s)
    ensures var t := Prefinish(c, s);
            Rechecks(c, t) && NeedFinish(t) && (t.prefinished || t.finalCalled)
  {
    hide Rechecks, NeedFinish;
    if s.prefinished || s.finalCalled {
    } else if c.final {
      CallsFinalKeeps(c, s);
    } else {
      PrefinishesKeeps(c, s);
    }
  }

  lemma CallsFinalKeeps(c: Config, s: State)
    requires Rechecks(c, s) && NeedFinish(s) && !s.prefinished && !s.finalCalled && c.final
    ensures var t := Prefinish(c, s);
            Rechecks(c, t) && NeedFinish(t) && t.finalCalled
  {
    hide Rechecks, NeedFinish;
    FinalCalledKeeps(c, s);
  }

  lemma PrefinishesKeeps(c: Config, s: State)
    requires Rechecks(c, s) && NeedFinish(s) && !s.prefinished && !s.finalCalled && !c.final
    ensures var t := Prefinish(c, s);
            Rechecks(c, t) && NeedFinish(t) && t.prefinished
  {
    hide Rechecks, NeedFinish;
    PrefinishedKeeps(c, s);
  }

  lemma PrefinishedKeeps(c: Config, s: State)
    requires Rechecks(c, s) && NeedFinish(s) && !s.finalCalled
    ensures var t := s.(prefinished := true);
            Rechecks(c, t) && NeedFinish(t)
  {
    hide Conserves, Finals;
    SameConserves(c, s, s.(prefinished := true), s.buffered, None);
  }

  lemma FinalCalledKeeps(c: Config, s: State)
    requires Rechecks(c, s) && NeedFinish(s) && !s.finalCalled && !s.prefinished
    ensures var t := s.(pendingcb := s.pendingcb + 1, finalCalled := true, ticks := s.ticks + [CallFinal]);
            Rechecks(c, t) && NeedFinish(t)
  {
    hide Bytes, Chunks, Ids, TicksIds, TicksWeight, StackIds, StackWeight, OptionIds, OptionWeight, UpTo, Finals, NoneFinished;
    FinalsPush(s.ticks, CallFinal);
    TicksPush(s.ticks, CallFinal);
    StillNoneFinished(s.ticks, CallFinal);
    var t := s.(pendingcb := s.pendingcb + 1, finalCalled := true, ticks := s.ticks + [CallFinal]);
    assert Flows(c, t, t.buffered);
    assert Owes(t, t.buffered, None);
    assert CallsOnce(t, t.buffered, None);
  }

  lemma {:induction false} FinalsAreOwed(ts: seq<Task>)
    ensures Finals(ts) <= TicksWeight(ts)
  {
    if ts == [] {
    } else {
      FinalsAreOwed(ts[..|ts| - 1]);
    }
  }

  /** While `_final` is pending, pendingcb is not 0. */
  lemma FinalIsOwed(c: Config, s: State)
    requires Rechecks(c, s) && s.finalCalled && !s.prefinished
    ensures s.pendingcb > 0
  {
    hide Bytes, Chunks, TicksWeight, StackWeight, Finals, CallsOnce, FinishesOnce, Flows, WillDrain, OptionWeight;
    FinalsAreOwed(s.ticks);
  }

  lemma FinishedKeeps(c: Config, s: State)
    requires Rechecks(c, s) && NeedFinish(s) && s.pendingcb == 0 && s.prefinished
    ensures Inv(c, s.(finished := true, finishes := s.finishes + 1))
  {
    hide Bytes, Chunks, Ids, TicksIds, TicksWeight, StackIds, StackWeight, OptionIds, OptionWeight, UpTo, Finals, NoneFinished;
    var t := s.(finished := true, finishes := s.finishes + 1);
    assert Flows(c, t, t.buffered);
    assert Owes(t, t.buffered, None);
    assert CallsOnce(t, t.buffered, None);
  }

  lemma UnfinishedKeeps(c: Config, s: State)
    requires Rechecks(c, s) && NeedFinish(s) && s.pendingcb != 0
    ensures Inv(c, s)
  {
    hide Bytes, Chunks, TicksWeight, StackWeight, Finals, CallsOnce, NoneFinished;
    assert s.writecb.None? && s.buffered == [];
    OwedSomewhere(s);
  }

  /** After `T` the stream is finished, or something is left that will look again. */
  lemma FinishStepInv(c: Config, s: State)
    requires Rechecks(c, s)
    ensures Inv(c, FinishStep(c, s))
  {
    hide Rechecks, Prefinish, Inv;
    if NeedFinish(s) {
      PrefinishKeeps(c, s);
      var t := Prefinish(c, s);
      hide NeedFinish;
      if !t.prefinished {
        FinalIsOwed(c, t);
      }
      if t.pendingcb == 0 {
        FinishedKeeps(c, t);
      } else {
        UnfinishedKeeps(c, t);
      }
    } else {
      NothingToFinish(c, s);
    }
  }

  lemma NothingToFinish(c: Config, s: State)
    requires Rechecks(c, s) && !NeedFinish(s)
    ensures Inv(c, s)
  {
  }

  /** `end` sets one more flag, and `T` looks at once. */
  lemma EndingRechecks(c: Config, s: State)
    requires Inv(c, s)
    ensures Rechecks(c, s.(ending := true))
  {
    hide Bytes, Chunks, Ids, TicksIds, TicksWeight, StackIds, StackWeight, OptionIds, OptionWeight, UpTo, Finals, NoneFinished;
    var t := s.(ending := true);
    assert Flows(c, t, t.buffered);
    assert Owes(t, t.buffered, None);
    assert CallsOnce(t, t.buffered, None);
  }

  lemma EndInv(c: Config, s: State, last: Option<Chunk>)
    requires Inv(c, s)
    ensures Inv(c, EndStep(c, s, last))
  {
    hide Inv, WriteStep, UncorkStep, FinishStep, Rechecks;
    var t := if last.Some? then WriteStep(c, s, last.value) else s;
    if last.Some? {
      WriteInv(c, s, last.value);
    }
    var u := if t.corked > 0 then UncorkStep(c, t.(corked := 1)) else t;
    if t.corked > 0 {
      RecorkedInv(c, t, 1);
      UncorkInv(c, t.(corked := 1));
    }
    if !u.ending {
      EndingRechecks(c, u);
      FinishStepInv(c, u.(ending := true));
    }
  }

  // ----- completions -----

  /** What `k` leaves behind, whoever called it. */
  lemma AfterWriteInv(c: Config, s: State, finished: bool, cb: Callback)
    requires Shape(c, s, Some(cb)) && FinalOnce(s) && Based(s) && (finished ==> s.ending)
    ensures Inv(c, RunAfterWrite(s, finished, cb))
  {
    hide Shape, FinalOnce, Based, Inv, RunCallback;
    if !finished && s.length == 0 && s.needDrain {
      DrainInv(c, s, cb);
    } else {
      AfterCallbackInv(c, s, cb);
    }
  }

  lemma DrainInv(c: Config, s: State, cb: Callback)
    requires Shape(c, s, Some(cb)) && FinalOnce(s) && Based(s)
    ensures Inv(c, s.(needDrain := false, drains := s.drains + 1, stack := s.stack + [AfterDrain(cb)]))
  {
    hide Conserves, Finals;
    DrainKeeps(c, s, s.buffered, cb);
  }

  lemma AfterCallbackInv(c: Config, s: State, cb: Callback)
    requires Shape(c, s, Some(cb)) && FinalOnce(s) && Based(s) && (s.ending || s.length != 0 || !s.needDrain)
    ensures Inv(c, RunCallback(s, cb))
  {
    hide Conserves, Finals;
    RunCallbackKeeps(c, s, s.buffered, cb);
    CallbackRest(s, cb);
    hide RunCallback;
  }

  lemma CallbackRest(s: State, cb: Callback)
    requires Based(s)
    ensures var r := RunCallback(s, cb);
            && r == s.(pendingcb := s.pendingcb - 1, called := r.called, stack := r.stack)
            && r.stack != [] && Based(r)
  {
    match cb
    case User(_) =>
    case CorkedFinish(_) =>
  }

  /** The state of `onwrite` once the write is off the books: its callback is in hand. */
  function OffTheBooks(s: State): (r: State) {
    s.(writing := false, writecb := None, length := s.length - s.writelen, writelen := 0)
  }

  lemma OffTheBooksKeeps(c: Config, s: State, cb: Callback)
    requires Conserves(c, s, s.buffered, None) && s.writecb == Some(cb)
    ensures Conserves(c, OffTheBooks(s), s.buffered, Some(cb))
  {
    hide Bytes, Chunks, Ids, TicksIds, TicksWeight, StackIds, StackWeight, UpTo, NoneFinished, CallbackIds, CallbackWeight;
    NotFinished(c, s, s.buffered, None);
    var t := OffTheBooks(s);
    assert Flows(c, t, t.buffered);
    assert Owes(t, t.buffered, Some(cb));
    assert CallsOnce(t, t.buffered, Some(cb));
  }

  lemma SinkDoneUnfolds(c: Config, s: State, cb: Callback)
    requires s.writecb == Some(cb) && !s.sync && !s.bufferProcessing
    ensures var t := OffTheBooks(s);
            var finished := NeedFinish(t);
            OnWrite(c, s) ==
            RunAfterWrite(if !finished && t.corked == 0 && t.buffered != [] then ClearBuffer(c, t) else t, finished, cb)
  {
    hide ClearBuffer, RunAfterWrite;
  }

  lemma SinkDoneInv(c: Config, s: State)
    requires Inv(c, s) && s.writecb.Some?
    ensures Inv(c, OnWrite(c, s))
  {
    hide Conserves, Finals, RunAfterWrite, WillFinish, WillDrain, ClearBuffer, OnWrite;
    var cb, t := s.writecb.value, OffTheBooks(s);
    assert s.writing by { WritesAreNamed(c, s); }
    OffTheBooksKeeps(c, s, cb);
    SinkDoneUnfolds(c, s, cb);
    if !NeedFinish(t) && t.corked == 0 && t.buffered != [] {
      ClearBufferKeeps(c, t, Some(cb));
      ClearBufferFinals(c, t);
      AfterWriteInv(c, ClearBuffer(c, t), false, cb);
    } else {
      AfterWriteInv(c, t, NeedFinish(t), cb);
    }
  }

  lemma WritesAreNamed(c: Config, s: State)
    requires Conserves(c, s, s.buffered, None)
    ensures s.writing <==> s.writecb.Some?
  {
    hide Bytes, Chunks, Owes, CallsOnce, FinishesOnce;
  }

  // ----- the queue of tasks -----

  lemma NoneFinishedPops(ts: seq<Task>)
    requires ts != [] && NoneFinished(ts)
    ensures NoneFinished(ts[1..]) && (ts[0].AfterWrite? ==> !ts[0].finished)
  {
  }

  lemma AfterWriteTick(c: Config, s: State, cb: Callback)
    requires Conserves(c, s, s.buffered, None) && s.ticks != [] && s.ticks[0].AfterWrite? && s.ticks[0].cb == cb
    ensures Conserves(c, s.(ticks := s.ticks[1..]), s.buffered, Some(cb))
    ensures !s.ticks[0].finished
  {
    hide Conserves, TicksIds, TicksWeight, StackIds, StackWeight, CallbackIds, CallbackWeight, NoneFinished;
    TicksPop(s.ticks);
    QueueIsUnfinished(c, s, s.buffered, None);
    NoneFinishedPops(s.ticks);
    MovedKeeps(c, s, s.(ticks := s.ticks[1..]), s.buffered, None, Some(cb));
  }

  lemma FinalTick(c: Config, s: State)
    requires Conserves(c, s, s.buffered, None) && s.ticks != [] && s.ticks[0] == CallFinal && !s.finalOpen
    ensures Conserves(c, s.(ticks := s.ticks[1..], finalOpen := true), s.buffered, None)
  {
    hide Conserves, TicksIds, TicksWeight, StackIds, StackWeight, NoneFinished;
    TicksPop(s.ticks);
    QueueIsUnfinished(c, s, s.buffered, None);
    NoneFinishedPops(s.ticks);
    MovedKeeps(c, s, s.(ticks := s.ticks[1..], finalOpen := true), s.buffered, None, None);
  }

  lemma TickInv(c: Config, s: State)
    requires Inv(c, s) && s.stack == [] && s.ticks != []
    ensures Inv(c, TickStep(s))
  {
    hide Conserves, Finals, RunAfterWrite, WillFinish;
    FinalsPop(s.ticks);
    match s.ticks[0]
    case AfterWrite(finished, cb) =>
      AfterWriteTick(c, s, cb);
      hide WillDrain;
      AfterWriteInv(c, s.(ticks := s.ticks[1..]), finished, cb);
    case CallFinal =>
      FinalTick(c, s);
      FinalTickWakesUp(TickStep(s));
  }

  lemma FinalTickWakesUp(s: State)
    requires s.finalOpen
    ensures WillFinish(s)
  {
  }

  // ----- the frames -----

  /** The state in which the frame below the returning user code goes on. */
  function Popped(s: State): (r: State)
    requires s.stack != []
  {
    s.(stack := s.stack[..|s.stack| - 1])
  }

  lemma FinishMaybeResumed(c: Config, s: State)
    requires Conserves(c, s, s.buffered, None) && s.stack != [] && s.stack[|s.stack| - 1] == FinishMaybe
    ensures Conserves(c, Popped(s), s.buffered, None)
  {
    hide Conserves, TicksIds, TicksWeight, StackIds, StackWeight, NoneFinished;
    StackTop(s.stack);
    QueueIsUnfinished(c, s, s.buffered, None);
    MovedKeeps(c, s, Popped(s), s.buffered, None, None);
  }

  lemma StackTop(fs: seq<Frame>)
    requires fs != []
    ensures var n := |fs| - 1;
            && StackWeight(fs) == StackWeight(fs[..n]) + FrameWeight(fs[n])
            && StackIds(fs) == StackIds(fs[..n]) + FrameIds(fs[n])
  {
  }

  lemma AfterDrainResumed(c: Config, s: State, cb: Callback)
    requires Conserves(c, s, s.buffered, None) && s.stack != [] && s.stack[|s.stack| - 1] == AfterDrain(cb)
    ensures Conserves(c, Popped(s), s.buffered, Some(cb))
  {
    hide Conserves, TicksIds, TicksWeight, StackIds, StackWeight, NoneFinished, CallbackIds, CallbackWeight;
    StackTop(s.stack);
    QueueIsUnfinished(c, s, s.buffered, None);
    MovedKeeps(c, s, Popped(s), s.buffered, None, Some(cb));
  }

  lemma CorkedRestDone(c: Config, s: State)
    requires Conserves(c, s, s.buffered, None) && s.stack != [] && s.stack[|s.stack| - 1] == CorkedRest([])
    ensures Conserves(c, Popped(s), s.buffered, None)
  {
    hide Conserves, TicksIds, TicksWeight, StackIds, StackWeight, NoneFinished;
    StackTop(s.stack);
    QueueIsUnfinished(c, s, s.buffered, None);
    MovedKeeps(c, s, Popped(s), s.buffered, None, None);
  }

  /** One callback of a group has run. */
  function CalledOne(s: State, es: seq<Entry>): (r: State)
    requires s.stack != [] && es != []
  {
    var t := Popped(s);
    t.(pendingcb := t.pendingcb - 1, called := t.called + [es[0].cb], stack := t.stack + [CorkedRest(es[1..])])
  }

  lemma CalledOneStack(c: Config, s: State, es: seq<Entry>)
    requires es != [] && s.stack != [] && s.stack[|s.stack| - 1] == CorkedRest(es)
    ensures StackWeight(CalledOne(s, es).stack) == StackWeight(s.stack) - 1
    ensures StackIds(CalledOne(s, es).stack) + multiset{es[0].cb} == StackIds(s.stack)
  {
    hide StackWeight, StackIds, Ids, Bytes, Chunks, CalledOne;
    CalledOneOnStack(s, es);
    EntriesPop(c, es);
  }

  lemma CalledOneOnStack(s: State, es: seq<Entry>)
    requires es != [] && s.stack != [] && s.stack[|s.stack| - 1] == CorkedRest(es)
    ensures var below := s.stack[..|s.stack| - 1];
            && StackWeight(s.stack) == StackWeight(below) + |es| && StackIds(s.stack) == StackIds(below) + Ids(es)
            && StackWeight(CalledOne(s, es).stack) == StackWeight(below) + |es| - 1
            && StackIds(CalledOne(s, es).stack) == StackIds(below) + Ids(es[1..])
  {
    hide StackWeight, StackIds, Ids;
    StackTop(s.stack);
    StackPush(s.stack[..|s.stack| - 1], CorkedRest(es[1..]));
  }

  lemma CalledOneIds(s: State, es: seq<Entry>)
    requires es != [] && s.stack != []
    requires StackIds(CalledOne(s, es).stack) + multiset{es[0].cb} == StackIds(s.stack)
    ensures DueIds(s, None) == DueIds(CalledOne(s, es), None)
  {
    hide StackWeight, StackIds, TicksIds, Ids;
    assert multiset(CalledOne(s, es).called) == multiset(s.called) + multiset{es[0].cb};
  }

  lemma CorkedRestResumed(c: Config, s: State, es: seq<Entry>)
    requires Conserves(c, s, s.buffered, None) && es != [] && s.stack != [] && s.stack[|s.stack| - 1] == CorkedRest(es)
    ensures Conserves(c, CalledOne(s, es), s.buffered, None)
  {
    hide Conserves, TicksWeight, StackWeight, NoneFinished, DueIds, StackIds;
    CalledOneStack(c, s, es);
    CalledOneIds(s, es);
    QueueIsUnfinished(c, s, s.buffered, None);
    PendingStays(c, s, es);
    MovedKeeps(c, s, CalledOne(s, es), s.buffered, None, None);
  }

  lemma PendingStays(c: Config, s: State, es: seq<Entry>)
    requires Conserves(c, s, s.buffered, None) && es != [] && s.stack != [] && s.stack[|s.stack| - 1] == CorkedRest(es)
    ensures !s.finished
  {
    StackTop(s.stack);
    hide Bytes, Chunks, Ids, TicksIds, TicksWeight, StackIds, StackWeight, UpTo, OptionIds, OptionWeight, NoneFinished;
  }

  lemma FrameStepInv(c: Config, s: State)
    requires Inv(c, s) && s.stack != [] && s.stack[|s.stack| - 1] == FinishMaybe
    ensures Inv(c, FinishStep(c, Popped(s)))
  {
    hide Conserves, Finals, FinishStep;
    FinishMaybeResumed(c, s);
    hide Inv;
    FinishStepInv(c, Popped(s));
  }

  lemma DrainedInv(c: Config, s: State, cb: Callback)
    requires Inv(c, s) && s.stack != [] && s.stack[|s.stack| - 1] == AfterDrain(cb)
    ensures Inv(c, RunCallback(Popped(s), cb))
  {
    hide Conserves, Finals, RunCallback;
    AfterDrainResumed(c, s, cb);
    RunCallbackKeeps(c, Popped(s), s.buffered, cb);
    CallbackRest(Popped(s), cb);
  }

  lemma GroupDoneInv(c: Config, s: State)
    requires Inv(c, s) && s.stack != [] && s.stack[|s.stack| - 1] == CorkedRest([])
    ensures Inv(c, Popped(s))
  {
    hide Conserves, Finals;
    CorkedRestDone(c, s);
  }

  lemma GroupStepInv(c: Config, s: State, es: seq<Entry>)
    requires Inv(c, s) && es != [] && s.stack != [] && s.stack[|s.stack| - 1] == CorkedRest(es)
    ensures Inv(c, CalledOne(s, es))
  {
    hide Conserves, Finals;
    CorkedRestResumed(c, s, es);
  }

  lemma ResumeInv(c: Config, s: State)
    requires Inv(c, s) && s.stack != []
    ensures Inv(c, ResumeStep(c, s))
  {
    hide Inv, FinishStep, RunCallback;
    match s.stack[|s.stack| - 1]
    case FinishMaybe => FrameStepInv(c, s);
    case AfterDrain(cb) => DrainedInv(c, s, cb);
    case CorkedRest(es) =>
      if es == [] {
        GroupDoneInv(c, s);
      } else {
        GroupStepInv(c, s, es);
      }
  }

  // ----- the callback of `_final` -----

  lemma FinalDoneRechecks(c: Config, s: State)
    requires Inv(c, s) && s.finalOpen
    ensures Rechecks(c, s.(finalOpen := false, pendingcb := s.pendingcb - 1, prefinished := true))
  {
    hide Bytes, Chunks, Ids, TicksIds, TicksWeight, StackIds, StackWeight, OptionIds, OptionWeight, UpTo, Finals, NoneFinished;
    var t := s.(finalOpen := false, pendingcb := s.pendingcb - 1, prefinished := true);
    assert Flows(c, t, t.buffered);
    assert Owes(t, t.buffered, None);
    assert CallsOnce(t, t.buffered, None);
  }

  lemma FinalDoneInv(c: Config, s: State)
    requires Inv(c, s) && s.finalOpen
    ensures Inv(c, FinalStep(c, s))
  {
    hide Inv, Rechecks, FinishStep;
    FinalDoneRechecks(c, s);
    FinishStepInv(c, s.(finalOpen := false, pendingcb := s.pendingcb - 1, prefinished := true));
  }

  // ----- every step -----

  lemma CorkInv(c: Config, s: State)
    requires Inv(c, s)
    ensures Inv(c, s.(corked := s.corked + 1))
  {
    hide Inv;
    RecorkedInv(c, s, s.corked + 1);
  }

  lemma StepInv(c: Config, s: State, e: Event)
    requires Inv(c, s) && Enabled(s, e)
    ensures Inv(c, Step(c, s, e))
  {
    hide Inv, WriteStep, UncorkStep, EndStep, OnWrite, TickStep, ResumeStep, FinalStep;
    match e
    case Write(chunk) => WriteInv(c, s, chunk);
    case Cork => CorkInv(c, s);
    case Uncork => UncorkInv(c, s);
    case End(last) => EndInv(c, s, last);
    case SinkDone => SinkDoneInv(c, s);
    case Tick => TickInv(c, s);
    case Resume => ResumeInv(c, s);
    case FinalDone => FinalDoneInv(c, s);
  }

  /** Every state that any sequence of events can reach keeps the invariant. */
  lemma {:induction false} RunInv(c: Config, events: seq<Event>)
    requires RunOf(c, events).Some?
    ensures Inv(c, RunOf(c, events).value)
    decreases |events|
  {
    hide Inv, Step, Enabled;
    if events == [] {
      InitialInv(c);
    } else {
      var n := |events| - 1;
      RunInv(c, events[..n]);
      StepInv(c, RunOf(c, events[..n]).value, events[n]);
    }
  }
}
