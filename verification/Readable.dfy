/** Module 9481: a readable stream of bytes, as far as its buffer is concerned. */
module Readable {
  import opened Optional
  import opened Bytes
  import opened BufferList
  import HighWaterMark

  /** What is pushed while `_read` runs: chunks, and None for the end of the data. */
  type Production = seq<Option<seq<Byte>>>

  /** The chunks that come into the buffer: those before the end, without the empty ones. */
  function Chunks(production: Production): (r: seq<seq<Byte>>)
    ensures NoneEmpty(r)
  {
    if production == [] || production[0].None? then []
    else (if production[0].value == [] then [] else [production[0].value]) + Chunks(production[1..])
  }

  /** How many bytes a read of n gives if these chunks are there and more may come or not: none if nothing is asked for,
      nothing is there, or what is missing may still come. A read without a number gives everything, or the first chunk
      while the stream flows. */
  function Due(n: Option<int>, chunks: seq<seq<Byte>>, flows: bool, mayCome: bool): (r: nat)
    requires NoneEmpty(chunks)
    ensures r <= |Flat(chunks)|
    ensures r == 0 <==> (n.Some? && n.value <= 0) || chunks == [] || (n.Some? && n.value > |Flat(chunks)| && mayCome)
  {
    var there := |Flat(chunks)|;
    match n
    case None => if flows && chunks != [] then |chunks[0]| else there
    case Some(k) => if k <= 0 then 0 else if k <= there then k else if mayCome then 0 else there
  }

  /** `flowing`: null before anyone decided, true, or false. */
  datatype Mode = Undecided | Flows | Stopped

  /** What concerns `readable`: whether an event is owed, whether one is announced, how many nextTick tasks are queued
      for emitReadable_, and how many events have been emitted. */
  datatype Notice = Notice(need: bool, emitted: bool, ticks: nat, events: nat)

  /** emitReadable: the event comes on the next tick, if none is announced. */
  function Emit(n: Notice): (r: Notice) {
    Notice(false, true, if n.emitted then n.ticks else n.ticks + 1, n.events)
  }

  /** emitReadable_: the event is emitted if there is something to read; then `more` says whether another one is owed. */
  function EmitNow(n: Notice, some: bool, more: bool): (r: Notice) {
    Notice(more, n.emitted && !some, n.ticks, if some then n.events + 1 else n.events)
  }

  class ReadableStream {
    const buffer: ChunkList<Byte>
    var length: int
    var highWaterMark: int
    var flowing: Mode
    var readableListening: bool
    var resumeScheduled: bool
    var paused: bool
    var ended: bool
    var endEmitted: bool
    var reading: bool
    var sync: bool
    var needReadable: bool
    var emittedReadable: bool
    /* nextTick tasks that are queued for emitReadable_, endReadableNT and nReadingNextTick */
    var readableTicks: nat
    var endTicks: nat
    var readTicks: nat
    /* history: bytes accepted by push, bytes handed to the consumer, `end` and `readable` events */
    ghost var pushed: seq<Byte>
    ghost var handed: seq<Byte>
    ghost var ends: nat
    ghost var readables: nat

    /** Every byte is handed out or buffered, in order; `length` counts the buffered ones; `end` comes once, after
        everything was handed out. */
    ghost predicate Valid()
      reads this, buffer, buffer.repr
    {
      && buffer.Valid() && NoneEmpty(buffer.chunks)
      && pushed == handed + Flat(buffer.chunks)
      && length == |Flat(buffer.chunks)|
      && highWaterMark >= 0
      && ends == (if endEmitted then 1 else 0)
      && (endEmitted || endTicks > 0 ==> ended && length == 0)
    }

    ghost function Notices(): (n: Notice)
      reads this
    {
      Notice(needReadable, emittedReadable, readableTicks, readables)
    }

    /** An event that is announced will come: its task is queued, and there is something to read. */
    predicate Announced()
      reads this
    {
      emittedReadable ==> readableTicks > 0 && (length > 0 || ended)
    }

    constructor (highWaterMark: nat)
      ensures Valid() && fresh(buffer) && fresh(buffer.repr) && pushed == [] && handed == [] && buffer.chunks == []
      ensures Notices() == Notice(false, false, 0, 0) && flowing == Undecided && !ended && !reading
    {
      buffer := new ChunkList<Byte>();
      length, this.highWaterMark := 0, highWaterMark;
      flowing, readableListening, resumeScheduled, paused := Undecided, false, false, true;
      ended, endEmitted, reading, sync, needReadable, emittedReadable := false, false, false, true, false, false;
      readableTicks, endTicks, readTicks := 0, 0, 0;
      pushed, handed, ends, readables := [], [], 0, 0;
    }

    // ----- Putting data in -----

    /** A chunk goes to the consumer at once: the stream flows, nothing waits before the chunk, and it does not come
        out of a call of `_read`. */
    predicate HandsOn()
      reads this
    {
      flowing == Flows && length == 0 && !sync
    }

    /** `push`: a chunk, or the end of the data. Empty chunks and chunks after the end are not accepted. */
    method Push(chunk: Option<seq<Byte>>) returns (more: bool)
      requires Valid()
      modifies this, buffer, buffer.repr
      ensures Valid() && fresh(buffer.repr - old(buffer.repr))
      ensures pushed == old(pushed) + old(Accepted(chunk))
      ensures handed == old(handed) + if old(HandsOn()) then old(Accepted(chunk)) else []
      ensures buffer.chunks == old(buffer.chunks) + if old(HandsOn()) || old(Accepted(chunk)) == [] then [] else [chunk.value]
      ensures ended == (old(ended) || chunk.None?)
      ensures reading == (old(reading) && old(ended) && chunk.Some? && chunk.value != [])
      ensures more == (!ended && (length < highWaterMark || length == 0)) && highWaterMark == old(highWaterMark)
      ensures unchanged(`sync) && unchanged(`endEmitted) && unchanged(`endTicks) && SameMode()
      ensures Notices() == old(NoticesAfter(chunk)) && (old(Announced()) ==> Announced())
    {
      hide Flat, NoneEmpty, ChunkList.Valid;
      match chunk {
        case None =>
          reading := false;
          OnEofChunk();
        case Some(data) =>
          if |data| > 0 {
            if !ended {
              reading := false;
              AddChunk(data);
            }
          } else {
            reading := false;
          }
      }
      return !ended && (length < highWaterMark || length == 0);
    }

    /** A push into a stream that owes a `readable` event announces one; the end of the data announces one on the next
        tick if it is pushed by `_read`, and else emits it at once. */
    ghost function NoticesAfter(chunk: Option<seq<Byte>>): (n: Notice)
      reads this
    {
      if chunk.None? && !ended then
        if sync then Emit(Notices())
        else if emittedReadable then Notices().(need := false)
        else EmitNow(Notices(), true, false)
      else if Accepted(chunk) != [] && !HandsOn() && needReadable then Emit(Notices())
      else Notices()
    }

    /** What a push adds to the data. */
    function Accepted(chunk: Option<seq<Byte>>): (r: seq<Byte>)
      reads this
    {
      if chunk.Some? && !ended then chunk.value else []
    }

    twostate predicate SameMode()
      reads this
    {
      unchanged(`flowing) && unchanged(`readableListening) && unchanged(`resumeScheduled) && unchanged(`paused)
    }

    method AddChunk(data: seq<Byte>)
      requires Valid() && data != [] && !ended
      modifies this`pushed, this`handed, this`length, this`needReadable, this`emittedReadable, this`readableTicks, buffer, buffer.repr
      ensures Valid() && fresh(buffer.repr - old(buffer.repr))
      ensures pushed == old(pushed) + data
      ensures handed == old(handed) + if old(HandsOn()) then data else []
      ensures buffer.chunks == old(buffer.chunks) + if old(HandsOn()) then [] else [data]
      ensures Notices() == old(if HandsOn() || !needReadable then Notices() else Emit(Notices())) && length >= old(length)
      ensures !old(HandsOn()) ==> length > 0
    {
      hide Flat, Chain;
      FlatAppend(buffer.chunks, [data]);
      FlatOne(data);
      assert handed + Flat(buffer.chunks) + data == handed + (Flat(buffer.chunks) + data);
      pushed := pushed + data;
      if flowing == Flows && length == 0 && !sync {
        handed := handed + data;
      } else {
        length := length + |data|;
        buffer.Push(data);
        if needReadable {
          EmitReadable();
        }
      }
    }

    method OnEofChunk()
      requires Valid()
      modifies this`ended, this`needReadable, this`emittedReadable, this`readableTicks, this`readables
      ensures Valid() && ended
      ensures Notices() == old(NoticesAfter(None))
    {
      if ended {
        return;
      }
      ended := true;
      if sync {
        EmitReadable();
      } else {
        needReadable := false;
        if !emittedReadable {
          emittedReadable := true;
          EmitReadableNow();
        }
      }
    }

    /** emitReadable: the event comes on the next tick. */
    method EmitReadable()
      modifies this`needReadable, this`emittedReadable, this`readableTicks
      ensures Notices() == Emit(old(Notices()))
    {
      needReadable := false;
      if !emittedReadable {
        emittedReadable := true;
        readableTicks := readableTicks + 1;
      }
    }

    /** emitReadable_; what the listeners and the flowing mode then read are operations of their own. */
    method EmitReadableNow()
      modifies this`needReadable, this`emittedReadable, this`readables
      ensures Notices() == EmitNow(old(Notices()), length != 0 || ended, flowing != Flows && !ended && length <= highWaterMark)
    {
      if length != 0 || ended {
        readables := readables + 1;
        emittedReadable := false;
      }
      needReadable := flowing != Flows && !ended && length <= highWaterMark;
    }

    /** The nextTick task that emitReadable queues. */
    method ReadableTick()
      requires Valid() && readableTicks > 0
      modifies this`readableTicks, this`needReadable, this`emittedReadable, this`readables
      ensures Valid() && readableTicks == old(readableTicks) - 1
      ensures readables == old(readables) + if length > 0 || ended then 1 else 0
      ensures emittedReadable == (old(emittedReadable) && length == 0 && !ended)
      ensures needReadable == (flowing != Flows && !ended && length <= highWaterMark)
    {
      readableTicks := readableTicks - 1;
      EmitReadableNow();
    }

    // ----- Taking data out -----

    /** The mark after a read of n. */
    function MarkFor(n: Option<int>): (h: int)
      requires highWaterMark >= 0
      reads this
    {
      if n.Some? && n.value > highWaterMark && (length > 0 || !ended) then HighWaterMark.Raised(n.value) else highWaterMark
    }

    /** How many bytes a read of n is to return; None stands for a read without a number. A number above the high-water
        mark raises the mark, and a number that cannot be met yet asks for a `readable` event. */
    method HowMuchToRead(n: Option<int>) returns (r: int)
      requires Valid()
      modifies this`highWaterMark, this`needReadable
      ensures Valid() && r == Due(n, buffer.chunks, flowing == Flows, !ended)
      ensures highWaterMark == old(MarkFor(n))
      ensures needReadable == (old(needReadable) || (n.Some? && n.value > length && !ended))
    {
      hide Flat, NoneEmpty, ChunkList.Valid, HighWaterMark.Raised;
      HeadIsFirst();
      if (n.Some? && n.value <= 0) || (length == 0 && ended) {
        return 0;
      }
      match n {
        case None =>
          if flowing == Flows && length != 0 {
            return |buffer.head.data|;
          }
          return length;
        case Some(k) =>
          if k > highWaterMark {
            highWaterMark := HighWaterMark.Raised(k);
            RaisedIsPositive(k);
          }
          if k <= length {
            return k;
          }
          if !ended {
            needReadable := true;
            return 0;
          }
          return length;
      }
    }

    lemma HeadIsFirst()
      requires Valid()
      ensures length == 0 <==> buffer.chunks == []
      ensures length > 0 ==> buffer.head != null && buffer.head.data == buffer.chunks[0]
    {
    }

    /** `B`: all of the buffer, or the first n bytes. */
    method FromList(n: int) returns (ret: seq<Byte>)
      requires Valid() && 0 < n <= length
      modifies buffer, buffer.repr
      ensures buffer.Valid() && NoneEmpty(buffer.chunks) && buffer.repr == old(buffer.repr)
      ensures ret == old(Flat(buffer.chunks))[..n] && Flat(buffer.chunks) == old(Flat(buffer.chunks))[n..]
    {
      if n >= length {
        if buffer.length == 1 {
          assert buffer.chunks == [buffer.chunks[0]];
          FlatOne(buffer.chunks[0]);
          ret := buffer.head.data;
        } else {
          var all := buffer.Concat(length);
          ret := all[..];
        }
        buffer.Clear();
      } else {
        RestIsSuffix(buffer.chunks, n);
        RestHasNoneEmpty(buffer.chunks, n);
        ret := buffer.Consume(n, false);
      }
    }

    /** `_read`, with what it pushes before it returns. */
    method Produce(production: Production)
      requires Valid() && sync
      modifies this, buffer, buffer.repr
      ensures Valid() && fresh(buffer.repr - old(buffer.repr))
      ensures buffer.chunks == old(buffer.chunks) + (if old(ended) then [] else Chunks(production))
      ensures handed == old(handed)
      ensures ended == (old(ended) || None in production)
      ensures !old(ended) && old(reading) ==> (reading <==> production == [])
      ensures reading ==> old(reading)
      ensures unchanged(`highWaterMark) && unchanged(`endEmitted) && unchanged(`endTicks) && unchanged(`sync) && SameMode()
      ensures unchanged(`readables) && (old(Announced()) ==> Announced())
      ensures old(emittedReadable) || (old(needReadable) && Chunks(production) != [] && !old(ended)) ==> emittedReadable
      decreases |production|
    {
      hide Flat, NoneEmpty, ChunkList.Valid, Chunks;
      ChunksUnfold(production, buffer.chunks);
      if production != [] {
        var _ := Push(production[0]);
        Produce(production[1..]);
      }
    }

    /** `read`, which may call `_read`: then the chunks that are there are those buffered before and those that `_read`
        pushed. The bytes that are due come out, and the others stay. A stream with too few bytes for n is always asked
        for more, unless it has ended or is being asked already. */
    method Read(n: Option<int>, production: Production) returns (ret: Option<seq<Byte>>, asked: bool)
      requires Valid()
      modifies this, buffer, buffer.repr
      ensures Valid() && fresh(buffer.repr - old(buffer.repr))
      ensures var there := old(buffer.chunks) + (if asked then Chunks(production) else []);
              var due := Due(n, there, flowing == Flows, !ended);
              && ret == (if due > 0 then Some(Flat(there)[..due]) else None)
              && Flat(buffer.chunks) == Flat(there)[due..]
      ensures pushed == old(pushed) + (if asked then Flat(Chunks(production)) else [])
      ensures handed == old(handed) + (if ret.Some? then ret.value else [])
      ensures n.None? && ret.None? ==> length == 0
      ensures n.None? && ret.Some? && (!asked || production == []) ==> length < old(length)
      ensures highWaterMark == old(MarkFor(n))
      ensures asked <==> old(!ended && !reading && !OnlyAnnounces(n) && (needReadable || FallsShort(n)))
      ensures ended == (old(ended) || (asked && None in production)) && unchanged(`endEmitted) && SameMode()
      ensures var read := if ret.Some? then |ret.value| else 0;
              var reachesEnd := ended && length == 0 && ((old(ended) && old(length) == 0) || n != Some(read));
              endTicks == old(endTicks) + if reachesEnd && !endEmitted then 1 else 0
      ensures unchanged(`readables) && (length == 0 && !ended ==> needReadable)
      ensures ret.None? && (n != Some(0) || old(Announced())) ==> Announced()
      ensures ret.Some? ==> (Announced() <==> !emittedReadable || length > 0 || ended)
      ensures asked && old(length) == 0 && Chunks(production) != [] ==> emittedReadable
    {
      hide Flat, NoneEmpty, ChunkList.Valid, Chunks, Due, FallsShort, OnlyAnnounces, MarkFor, Valid;
      NothingThere(buffer.chunks);
      ChunksUnfold(production, buffer.chunks);
      LengthIsCounted();
      var stop, take;
      stop, take, asked := Prepare(n, production);
      LengthIsCounted();
      ret := None;
      if !stop {
        ret := Finish(n, take);
        LengthIsCounted();
      }
    }

    lemma LengthIsCounted()
      requires Valid()
      ensures length == |Flat(buffer.chunks)| && NoneEmpty(buffer.chunks) && highWaterMark >= 0
    {
    }

    /** `read` up to the point where the bytes are taken out. */
    method Prepare(n: Option<int>, production: Production) returns (stop: bool, take: int, asked: bool)
      requires Valid()
      modifies this, buffer, buffer.repr
      ensures Valid() && fresh(buffer.repr - old(buffer.repr))
      ensures buffer.chunks == old(buffer.chunks) + (if asked then Chunks(production) else [])
      ensures take == Due(n, buffer.chunks, flowing == Flows, !ended) && (stop ==> take == 0)
      ensures pushed == old(pushed) + (if asked then Flat(Chunks(production)) else []) && handed == old(handed)
      ensures highWaterMark == old(MarkFor(n))
      ensures asked <==> old(!ended && !reading && !OnlyAnnounces(n) && (needReadable || FallsShort(n)))
      ensures ended == (old(ended) || (asked && None in production)) && unchanged(`endEmitted) && SameMode()
      ensures (old(ended && length == 0) ==> stop) && (stop && length == 0 ==> old(ended && length == 0))
      ensures endTicks == old(endTicks) + if stop && length == 0 && !endEmitted then 1 else 0
      ensures unchanged(`readables) && (old(Announced()) || n != Some(0) ==> Announced())
      ensures asked && old(length) == 0 && Chunks(production) != [] ==> emittedReadable
    {
      hide Flat, NoneEmpty, ChunkList.Valid, Chunks, Due, Valid, OnlyAnnounces, HighWaterMark.Raised;
      NothingThere(buffer.chunks);
      LengthIsCounted();
      stop, take := Begin(n);
      asked := false;
      if !stop {
        asked, take := Ask(n, take, production);
      }
    }

    /** read(0) with enough in the buffer: it announces an event that is owed, and does no more. */
    predicate OnlyAnnounces(n: Option<int>)
      reads this
    {
      n == Some(0) && needReadable && ((if highWaterMark != 0 then length >= highWaterMark else length > 0) || ended)
    }

    /** There are too few bytes for n, or fewer than the mark would be left. */
    ghost predicate FallsShort(n: Option<int>)
      requires NoneEmpty(buffer.chunks) && highWaterMark >= 0
      reads this, buffer
    {
      || length == 0 || (n.Some? && n.value > length)
      || length - Due(n, buffer.chunks, flowing == Flows, !ended) < MarkFor(n)
    }

    /** The beginning of `read`: whether it ends here without a result, and else how much it is to take. */
    method Begin(n: Option<int>) returns (stop: bool, take: int)
      requires Valid()
      modifies this`emittedReadable, this`needReadable, this`readableTicks, this`highWaterMark, this`ended, this`endTicks
      ensures Valid() && ended == old(ended) && (ended || (stop <==> old(OnlyAnnounces(n))))
      ensures !stop ==> needReadable == (old(needReadable) || (n.Some? && n.value > length && !ended))
      ensures highWaterMark == old(MarkFor(n))
      ensures stop ==> Due(n, buffer.chunks, flowing == Flows, !ended) == 0 == take && (ended || n == Some(0))
      ensures stop && !ended ==> length > 0
      ensures !stop ==> take == Due(n, buffer.chunks, flowing == Flows, !ended)
      ensures (ended && length == 0 ==> stop)
      ensures endTicks == old(endTicks) + if stop && length == 0 && !endEmitted then 1 else 0
      ensures (n != Some(0) ==> !emittedReadable) && (old(Announced()) ==> Announced())
    {
      hide Flat, NoneEmpty, ChunkList.Valid, Due;
      if n != Some(0) {
        emittedReadable := false;
      }
      if OnlyAnnounces(n) {
        if length == 0 && ended {
          EndReadable();
        } else {
          EmitReadable();
        }
        return true, 0;
      }
      take := HowMuchToRead(n);
      if take == 0 && ended {
        if length == 0 {
          EndReadable();
        }
        return true, 0;
      }
      stop := false;
    }

    /** The call of `_read` within `read`, if it is made: if something was pushed meanwhile, it is asked again how much
        to take. */
    method Ask(n: Option<int>, before: int, production: Production) returns (asked: bool, take: int)
      requires Valid() && before == Due(n, buffer.chunks, flowing == Flows, !ended)
      requires n.Some? && n.value > highWaterMark ==> highWaterMark == HighWaterMark.Raised(n.value)
      modifies this, buffer, buffer.repr
      ensures Valid() && fresh(buffer.repr - old(buffer.repr)) && take == Due(n, buffer.chunks, flowing == Flows, !ended)
      ensures asked == old(WantsMore(before)) && handed == old(handed) && unchanged(`highWaterMark)
      ensures buffer.chunks == old(buffer.chunks) + if asked then Chunks(production) else []
      ensures pushed == old(pushed) + if asked then Flat(Chunks(production)) else []
      ensures ended == (old(ended) || (asked && None in production)) && unchanged(`endEmitted) && unchanged(`endTicks) && SameMode()
      ensures unchanged(`readables) && (old(Announced()) ==> Announced())
      ensures asked && old(length) == 0 && Chunks(production) != [] ==> emittedReadable
    {
      hide Flat, NoneEmpty, ChunkList.Valid, Chunks, Due;
      ghost var had := buffer.chunks;
      assert had + [] == had;
      ChunksUnfold(production, had);
      asked, take := WantsMore(before), before;
      if asked {
        CallRead(production);
        assert reading ==> buffer.chunks == had;
        if !reading {
          take := HowMuchToRead(n);
        }
      }
    }

    method CallRead(production: Production)
      requires Valid() && !ended
      modifies this, buffer, buffer.repr
      ensures Valid() && fresh(buffer.repr - old(buffer.repr))
      ensures buffer.chunks == old(buffer.chunks) + Chunks(production) && handed == old(handed)
      ensures pushed == old(pushed) + Flat(Chunks(production))
      ensures ended == (None in production) && (reading <==> production == [])
      ensures unchanged(`endEmitted) && unchanged(`endTicks) && unchanged(`highWaterMark) && SameMode()
      ensures unchanged(`readables) && (old(Announced()) ==> Announced())
      ensures old(length) == 0 && Chunks(production) != [] ==> emittedReadable
    {
      hide Flat, NoneEmpty, ChunkList.Valid, Chunks;
      reading := true;
      sync := true;
      if length == 0 {
        needReadable := true;
      }
      PushedBehind(handed, buffer.chunks, Chunks(production));
      Produce(production);
      sync := false;
    }

    /** Whether `_read` is to be called before taking so many bytes. */
    predicate WantsMore(take: int)
      reads this
    {
      !ended && !reading && (needReadable || length == 0 || length - take < highWaterMark)
    }

    /** The end of `read`: takes the bytes out, and sees whether the stream has come to its end. */
    method Finish(nOrig: Option<int>, n: int) returns (ret: Option<seq<Byte>>)
      requires Valid() && 0 <= n <= length
      modifies this, buffer, buffer.repr
      ensures Valid() && fresh(buffer.repr - old(buffer.repr))
      ensures ret == if n > 0 then Some(old(Flat(buffer.chunks))[..n]) else None
      ensures Flat(buffer.chunks) == old(Flat(buffer.chunks))[n..] && pushed == old(pushed)
      ensures handed == old(handed) + (if ret.Some? then ret.value else [])
      ensures unchanged(`ended) && unchanged(`endEmitted) && SameMode()
      ensures unchanged(`emittedReadable) && unchanged(`readableTicks) && unchanged(`readables) && unchanged(`highWaterMark)
      ensures endTicks == old(endTicks) + if length == 0 && ended && nOrig != Some(n) && !endEmitted then 1 else 0
      ensures needReadable == if length == 0 && !ended then true else if n == 0 then length <= highWaterMark else old(needReadable)
    {
      hide Flat, NoneEmpty, ChunkList.Valid;
      var taken := n;
      if n > 0 {
        ghost var had := Flat(buffer.chunks);
        var data := FromList(n);
        assert had == had[..n] + had[n..];
        ret := Some(data);
        handed := handed + data;
        length := length - n;
      } else {
        ret := None;
        needReadable := length <= highWaterMark;
        taken := 0;
      }
      if length == 0 {
        if !ended {
          needReadable := true;
        }
        if nOrig != Some(taken) && ended {
          EndReadable();
        }
      }
    }

    method EndReadable()
      requires ended
      modifies this`ended, this`endTicks
      ensures ended && endTicks == old(endTicks) + if endEmitted then 0 else 1
    {
      if !endEmitted {
        ended := true;
        endTicks := endTicks + 1;
      }
    }

    // ----- Flowing -----

    /** `resume`: the stream flows from now on, unless someone listens for `readable`; it starts on the next tick. */
    method Resume()
      modifies this`flowing, this`resumeScheduled, this`paused
      ensures flowing == Flows <==> old(flowing) == Flows || !readableListening
      ensures resumeScheduled == (old(resumeScheduled) || old(flowing) != Flows) && !paused
      ensures old(flowing) != Flows && readableListening ==> flowing == Stopped
    {
      if flowing != Flows {
        flowing := if readableListening then Stopped else Flows;
        resumeScheduled := true;
      }
      paused := false;
    }

    /** `pause`, and whether it emits the event. */
    method Pause() returns (emitted: bool)
      modifies this`flowing, this`paused
      ensures flowing == Stopped && paused && emitted == (old(flowing) != Stopped)
    {
      emitted := flowing != Stopped;
      flowing := Stopped;
      paused := true;
    }

    method Listen()
      modifies this`readableListening, this`needReadable, this`flowing, this`emittedReadable
      ensures readableListening && flowing == Stopped && Notices() == old(Notices()).(need := true, emitted := false)
    {
      readableListening := true;
      needReadable := true;
      flowing := Stopped;
      emittedReadable := false;
    }

    /** A first listener for `readable` stops the flow; it is told of what is buffered, or a read is queued. */
    method OnReadable()
      requires Valid()
      modifies this`readableListening, this`needReadable, this`flowing, this`emittedReadable, this`readableTicks, this`readTicks
      ensures Valid()
      ensures endEmitted || readableListening
      ensures flowing == if endEmitted || old(readableListening) then old(flowing) else Stopped
      ensures var n := old(Notices()).(need := true, emitted := false);
              && Notices() == (if endEmitted || old(readableListening) then old(Notices()) else if length > 0 then Emit(n) else n)
              && readTicks == old(readTicks)
                              + if endEmitted || old(readableListening) || length > 0 || reading then 0 else 1
    {
      hide Flat, NoneEmpty, ChunkList.Valid;
      if !endEmitted && !readableListening {
        Listen();
        if length != 0 {
          EmitReadable();
        } else if !reading {
          readTicks := readTicks + 1;
        }
      }
    }

    /** A read(0), which may only ask for more. `later` is what the next calls of `_read` push, one after the other,
        and nothing after that. */
    method ReadZero(later: seq<Production>) returns (rest: seq<Production>)
      requires Valid()
      modifies this, buffer, buffer.repr
      ensures Valid() && fresh(buffer.repr - old(buffer.repr)) && handed == old(handed) && old(pushed) <= pushed
      ensures SameMode() && (rest == later || (later != [] && rest == later[1..]))
    {
      hide Flat, NoneEmpty, ChunkList.Valid, Chunks, Due;
      var _, asked := Read(Some(0), if later == [] then [] else later[0]);
      rest := if asked && later != [] then later[1..] else later;
    }

    /** `flow`: reads until nothing comes or a listener stops the flow, which is said by `patience`: after so many
        chunks. While nobody stops it, everything that was pushed is handed out. */
    method Flow(later: seq<Production>, patience: Option<nat>) returns (rest: seq<Production>)
      requires Valid()
      modifies this, buffer, buffer.repr
      ensures Valid() && fresh(buffer.repr - old(buffer.repr))
      ensures old(handed) <= handed && old(pushed) <= pushed
      ensures flowing == Flows ==> length == 0 && handed == pushed
      ensures flowing == Flows && ended ==> endEmitted || endTicks > 0
      ensures patience.None? ==> flowing == old(flowing)
      ensures flowing != old(flowing) ==> flowing == Stopped
      ensures unchanged(`resumeScheduled) && unchanged(`readableListening)
    {
      hide Flat, NoneEmpty, ChunkList.Valid, Chunks, Due;
      rest := later;
      var left := patience;
      var more := true;
      while flowing == Flows && more
        invariant Valid() && fresh(buffer.repr - old(buffer.repr))
        invariant old(handed) <= handed && old(pushed) <= pushed
        invariant flowing == Flows && !more ==> length == 0 && (ended ==> endEmitted || endTicks > 0)
        invariant (patience.None? ==> left.None? && flowing == old(flowing)) && (flowing != old(flowing) ==> flowing == Stopped)
        invariant unchanged(`resumeScheduled) && unchanged(`readableListening)
        decreases |rest|, length, more
      {
        var ret, asked := Read(None, if rest == [] then [] else rest[0]);
        if asked && rest != [] {
          rest := rest[1..];
        }
        match ret {
          case None => more := false;
          case Some(_) =>
            if left.Some? {
              if left.value <= 1 {
                var _ := Pause();
              } else {
                left := Some(left.value - 1);
              }
            }
        }
      }
      if flowing == Flows {
        AllHanded();
      }
    }

    lemma AllHanded()
      requires Valid() && length == 0
      ensures handed == pushed
    {
    }

    /** `resume_`: a read to get things going, and then the flow. What had been pushed before is handed out unless
        the flow is stopped. */
    method ResumeTick(later: seq<Production>, patience: Option<nat>) returns (rest: seq<Production>)
      requires Valid() && resumeScheduled
      modifies this, buffer, buffer.repr
      ensures Valid() && fresh(buffer.repr - old(buffer.repr)) && !resumeScheduled
      ensures old(handed) <= handed && old(pushed) <= pushed
      ensures flowing == Flows ==> old(pushed) <= handed
      ensures patience.None? ==> flowing == old(flowing)
    {
      hide Flat, NoneEmpty, ChunkList.Valid;
      rest := later;
      if !reading {
        rest := ReadZero(rest);
      }
      resumeScheduled := false;
      rest := Flow(rest, patience);
      if flowing == Flows && !reading {
        rest := ReadZero(rest);
      }
    }

    /** endReadableNT: `end` is emitted, once, and by then every byte pushed was handed out. */
    method EndReadableTick()
      requires Valid() && endTicks > 0
      modifies this`endTicks, this`endEmitted, this`ends
      ensures Valid() && endTicks == old(endTicks) - 1
      ensures endEmitted && ends == 1 && handed == pushed
    {
      endTicks := endTicks - 1;
      if !endEmitted && length == 0 {
        endEmitted := true;
        ends := ends + 1;
      }
      AllHanded();
    }
  }

  /** A consumer that reads with any sizes until nothing comes, once the end of the data was pushed, and then lets the
      queued tasks run: it has got every byte, and `end` once. */
  method ReadToTheEnd(stream: ReadableStream, sizes: nat -> Option<int>)
    requires stream.Valid()
    requires forall i :: sizes(i).Some? ==> sizes(i).value > 0
    modifies stream, stream.buffer, stream.buffer.repr
    ensures stream.Valid() && stream.ends == 1 && stream.handed == stream.pushed == old(stream.pushed)
  {
    hide Flat, NoneEmpty, ChunkList.Valid, Chunks, Due;
    var _ := stream.Push(None);
    var i, more := 0, true;
    while more
      invariant stream.Valid() && stream.ended && stream.pushed == old(stream.pushed)
      invariant fresh(stream.buffer.repr - old(stream.buffer.repr))
      invariant !more ==> stream.endEmitted || stream.endTicks > 0
      decreases more, stream.length
    {
      NothingThere(stream.buffer.chunks);
      DueAtTheEnd(sizes(i), stream.buffer.chunks, stream.flowing == Flows);
      stream.HeadIsFirst();
      var ret, _ := stream.Read(sizes(i), []);
      more := ret.Some?;
      i := i + 1;
    }
    while stream.endTicks > 0
      invariant stream.Valid() && stream.pushed == old(stream.pushed)
      invariant stream.endEmitted || stream.endTicks > 0
      decreases stream.endTicks
    {
      stream.EndReadableTick();
    }
    stream.AllHanded();
  }

  /** Something is due as long as something is there and no more can come. */
  lemma DueAtTheEnd(n: Option<int>, chunks: seq<seq<Byte>>, flows: bool)
    requires NoneEmpty(chunks) && (n.Some? ==> n.value > 0)
    ensures Due(n, chunks, flows, false) == 0 <==> chunks == []
  {
  }

  /** The tasks of emitReadable run, one after the other. */
  method RunReadableTicks(stream: ReadableStream)
    requires stream.Valid()
    modifies stream`readableTicks, stream`needReadable, stream`emittedReadable, stream`readables
    ensures stream.Valid() && stream.readableTicks == 0
    ensures stream.readables == old(stream.readables) + if stream.length > 0 || stream.ended then old(stream.readableTicks) else 0
    ensures stream.length == 0 && !stream.ended ==> stream.emittedReadable == old(stream.emittedReadable)
  {
    hide Flat, NoneEmpty, ChunkList.Valid;
    while stream.readableTicks > 0
      invariant stream.Valid() && stream.readableTicks <= old(stream.readableTicks)
      invariant stream.readables == old(stream.readables)
                + if stream.length > 0 || stream.ended then old(stream.readableTicks) - stream.readableTicks else 0
      invariant stream.length == 0 && !stream.ended ==> stream.emittedReadable == old(stream.emittedReadable)
      decreases stream.readableTicks
    {
      stream.ReadableTick();
    }
  }

  /** A chunk pushed into a stream that owes a `readable` event is followed by one, once the queued tasks have run, exactly
      if none is announced without a task. */
  method PushIsAnnounced(stream: ReadableStream, chunk: seq<Byte>)
    requires stream.Valid() && stream.needReadable && !stream.HandsOn()
    requires chunk != [] && !stream.ended
    modifies stream, stream.buffer, stream.buffer.repr
    ensures stream.Valid()
    ensures stream.readables > old(stream.readables) <==> old(!stream.emittedReadable || stream.readableTicks > 0)
  {
    hide Flat, NoneEmpty, ChunkList.Valid;
    var _ := stream.Push(Some(chunk));
    stream.HeadIsFirst();
    RunReadableTicks(stream);
  }

  /** A read that takes everything which `_read` pushed meanwhile leaves an event announced that cannot come: the next
      chunk is buffered, and no `readable` event follows. */
  method AnEventIsLost() returns (stream: ReadableStream)
    ensures fresh(stream) && stream.Valid()
    ensures stream.buffer.chunks == [[2]] && stream.readables == 0 && stream.readableTicks == 0
  {
    hide Flat, NoneEmpty, ChunkList.Valid, Chunks, Due, ReadableStream.MarkFor, ReadableStream.Valid;
    stream := new ReadableStream(16);
    var first: Production := [Some([1])];
    OneChunk(first);
    stream.HeadIsFirst();
    assert stream.buffer.chunks + Chunks(first) == Chunks(first);
    var _, _ := stream.Read(None, first);
    stream.LengthIsCounted();
    stream.HeadIsFirst();
    RunReadableTicks(stream);
    var _ := stream.Push(Some([2]));
  }

  lemma OneChunk(production: Production)
    requires production == [Some([1])]
    ensures Chunks(production) == [[1]] && Flat(Chunks(production)) == [1]
    ensures Due(None, Chunks(production), false, true) == 1
  {
    assert production[1..] == [] && Chunks(production[1..]) == [];
    FlatOne([1 as Byte]);
  }

  lemma ChunksUnfold(production: Production, before: seq<seq<Byte>>)
    ensures production == [] || production[0].None? ==> Chunks(production) == [] && before + Chunks(production) == before
    ensures production != [] && production[0].Some? ==>
              before + (if production[0].value == [] then [] else [production[0].value]) + Chunks(production[1..])
              == before + Chunks(production)
  {
    if production == [] || production[0].None? {
    } else {
      var first := if production[0].value == [] then [] else [production[0].value];
      Associates(before, first, Chunks(production[1..]));
    }
  }

  lemma Associates(a: seq<seq<Byte>>, b: seq<seq<Byte>>, c: seq<seq<Byte>>)
    ensures a + b + c == a + (b + c)
  {
  }

  lemma NothingThere(chunks: seq<seq<Byte>>)
    ensures Flat<Byte>([]) == [] && chunks + [] == chunks && Flat(chunks)[0..] == Flat(chunks)
  {
  }

  /** What is pushed behind what is buffered is pushed behind all that was pushed. */
  lemma PushedBehind(handed: seq<Byte>, had: seq<seq<Byte>>, more: seq<seq<Byte>>)
    ensures handed + Flat(had + more) == handed + Flat(had) + Flat(more)
  {
    hide Flat;
    FlatAppend(had, more);
  }

  lemma RaisedIsPositive(n: int)
    requires n > 0
    ensures HighWaterMark.Raised(n) >= n || HighWaterMark.Raised(n) == HighWaterMark.MAX
  {
    HighWaterMark.RaisedIsLeastPower(n);
  }
}
