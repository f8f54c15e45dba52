/** Module 4155: the `nextTick` queue. Tasks are taken in batches, a task may enqueue others or throw, and a timer picks
    up what a throwing task left. It behaves like one first-in-first-out queue. */
module NextTick {
  import opened Optional

  /** A task enqueues others and then returns or throws. */
  datatype Task = Task(id: nat, enqueues: seq<Task>, throws: bool)

  function Size(t: Task): (n: nat)
    ensures n > 0
  {
    1 + Sizes(t.enqueues)
  }

  function Sizes(ts: seq<Task>): (n: nat) {
    if ts == [] then 0 else Size(ts[0]) + Sizes(ts[1..])
  }

  /** The plain queue: take the first task, put what it enqueues at the end. */
  function Order(ts: seq<Task>): (r: seq<Task>)
    decreases Sizes(ts)
  {
    if ts == [] then []
    else
      SizesAppend(ts[1..], ts[0].enqueues);
      assert Size(ts[0]) == 1 + Sizes(ts[0].enqueues);
      [ts[0]] + Order(ts[1..] + ts[0].enqueues)
  }

  lemma {:induction false} SizesAppend(a: seq<Task>, b: seq<Task>)
    ensures Sizes(a + b) == Sizes(a) + Sizes(b)
  {
    if a == [] {
      assert a + b == b;
    } else {
      SizesAppend(a[1..], b);
      assert (a + b)[1..] == a[1..] + b;
    }
  }

  /** Taking the first task: the order that was to come starts with it. */
  lemma OrderStarts(t: Task, rest: seq<Task>)
    ensures Order([t] + rest) == [t] + Order(rest + t.enqueues)
    ensures Sizes(rest + t.enqueues) < Sizes([t] + rest)
  {
    assert ([t] + rest)[1..] == rest;
    SizesAppend(rest, t.enqueues);
  }

  /** What the tasks enqueue, in order. */
  function Children(ts: seq<Task>): (r: seq<Task>) {
    if ts == [] then [] else ts[0].enqueues + Children(ts[1..])
  }

  /** The plain queue is breadth-first: a task starts after everything that was queued before it, and what a group
      of tasks enqueues comes after the whole group. */
  lemma {:induction false} OrderByLevels(a: seq<Task>, b: seq<Task>)
    ensures Order(a + b) == a + Order(b + Children(a))
  {
    hide Order, Sizes, Size;
    if a == [] {
      assert a + b == b && b + Children(a) == b;
    } else {
      var rest := a[1..] + b;
      assert a + b == [a[0]] + rest;
      OrderStarts(a[0], rest);
      assert rest + a[0].enqueues == a[1..] + (b + a[0].enqueues);
      OrderByLevels(a[1..], b + a[0].enqueues);
      assert b + a[0].enqueues + Children(a[1..]) == b + Children(a);
      assert [a[0]] + a[1..] == a;
    }
  }

  /** Every task of the trees, counted. */
  function Everything(ts: seq<Task>): (m: multiset<Task>)
    decreases Sizes(ts)
  {
    if ts == [] then multiset{}
    else
      assert Size(ts[0]) == 1 + Sizes(ts[0].enqueues);
      multiset{ts[0]} + Everything(ts[0].enqueues) + Everything(ts[1..])
  }

  lemma EverythingFirst(t: Task, rest: seq<Task>)
    ensures Everything([t] + rest) == multiset{t} + Everything(t.enqueues) + Everything(rest)
  {
    assert ([t] + rest)[1..] == rest;
    hide Sizes, Size;
  }

  lemma {:induction false} EverythingAppend(a: seq<Task>, b: seq<Task>)
    ensures Everything(a + b) == Everything(a) + Everything(b)
    decreases |a|
  {
    hide Everything, Sizes, Size;
    if a == [] {
      assert a + b == b;
      EverythingOfNothing();
    } else {
      EverythingAppend(a[1..], b);
      EverythingFirst(a[0], a[1..]);
      EverythingFirst(a[0], a[1..] + b);
      assert a == [a[0]] + a[1..] && a + b == [a[0]] + (a[1..] + b);
    }
  }

  lemma EverythingOfNothing()
    ensures Everything([]) == multiset{}
  {
  }

  /** The plain queue starts every task once, also those enqueued on the way. */
  lemma {:induction false} OrderIsEverything(ts: seq<Task>)
    ensures multiset(Order(ts)) == Everything(ts)
    decreases Sizes(ts)
  {
    if ts == [] {
    } else {
      var t, rest := ts[0], ts[1..];
      assert ts == [t] + rest;
      OrderStarts(t, rest);
      OrderIsEverything(rest + t.enqueues);
      EverythingAppend(rest, t.enqueues);
      hide Order, Sizes, Size;
      assert multiset([t] + Order(rest + t.enqueues)) == multiset{t} + multiset(Order(rest + t.enqueues));
    }
  }

  lemma NothingIsLess(ts: seq<Task>)
    ensures ts == [] || Sizes([]) < Sizes(ts)
  {
  }

  class TickQueue {
    var queue: seq<Task>                 // s
    var draining: bool                   // i
    var currentQueue: Option<seq<Task>>  // u
    var queueIndex: int                  // c
    /* timers that will call the draining function and the cleaning function */
    var drainTimers: nat
    var cleanupTimers: nat
    /* every task ever enqueued, and every task started, in order */
    ghost var enqueued: seq<Task>
    ghost var started: seq<Task>

    /** The tasks not started yet, while a batch is being worked on or after one of its tasks threw. */
    ghost function InBatch(): (r: seq<Task>)
      reads this
      requires currentQueue.Some? && -1 <= queueIndex < |currentQueue.value|
    {
      currentQueue.value[queueIndex + 1..] + queue
    }

    /** The tasks not started yet, when no task is running. */
    ghost function Unstarted(): (r: seq<Task>)
      reads this
    {
      if draining && currentQueue.Some? && -1 <= queueIndex < |currentQueue.value| then InBatch() else queue
    }

    /** What holds whenever no task is running. A throwing task leaves `draining` set, and then exactly one cleaning
        timer is there; otherwise exactly one draining timer is there just when something is to be started. */
    ghost predicate Valid()
      reads this
    {
      && (if draining then currentQueue.Some? && 0 <= queueIndex < |currentQueue.value|
          else currentQueue.None? && queueIndex == -1)
      && cleanupTimers == (if draining then 1 else 0)
      && drainTimers == (if !draining && queue != [] then 1 else 0)
      && enqueued == started + Unstarted()
    }

    constructor ()
      ensures Valid() && enqueued == [] && !draining
    {
      queue, draining, currentQueue, queueIndex := [], false, None, -1;
      drainTimers, cleanupTimers := 0, 0;
      enqueued, started := [], [];
    }

    /** `nextTick`, which may be called at any time. */
    method Enqueue(task: Task)
      modifies this
      ensures queue == old(queue) + [task] && enqueued == old(enqueued) + [task] && started == old(started)
      ensures draining == old(draining) && currentQueue == old(currentQueue) && queueIndex == old(queueIndex)
      ensures cleanupTimers == old(cleanupTimers)
      ensures drainTimers == old(drainTimers) + (if old(queue) == [] && !draining then 1 else 0)
    {
      queue := queue + [task];
      enqueued := enqueued + [task];
      if |queue| == 1 && !draining {
        drainTimers := drainTimers + 1;
      }
    }

    /** A call of `nextTick` from outside any task. */
    method EnqueueFromOutside(task: Task)
      requires Valid()
      modifies this
      ensures Valid() && Unstarted() == old(Unstarted()) + [task] && started == old(started)
    {
      Enqueue(task);
      assert old(started) + (old(Unstarted()) + [task]) == (old(started) + old(Unstarted())) + [task];
      assert Unstarted() == old(Unstarted()) + [task];
    }

    /** The running of a task. */
    method Run(task: Task) returns (threw: bool)
      requires draining
      modifies this
      ensures threw == task.throws
      ensures started == old(started) + [task]
      ensures queue == old(queue) + task.enqueues && enqueued == old(enqueued) + task.enqueues
      ensures draining && currentQueue == old(currentQueue) && queueIndex == old(queueIndex)
      ensures cleanupTimers == old(cleanupTimers) && drainTimers == old(drainTimers)
    {
      started := started + [task];
      for k := 0 to |task.enqueues|
        invariant started == old(started) + [task]
        invariant queue == old(queue) + task.enqueues[..k] && enqueued == old(enqueued) + task.enqueues[..k]
        invariant draining && currentQueue == old(currentQueue) && queueIndex == old(queueIndex)
        invariant cleanupTimers == old(cleanupTimers) && drainTimers == old(drainTimers)
      {
        Enqueue(task.enqueues[k]);
        assert task.enqueues[..k] + [task.enqueues[k]] == task.enqueues[..k + 1];
      }
      assert task.enqueues[..|task.enqueues|] == task.enqueues;
      threw := task.throws;
    }

    /** What is still to be started, from place k of the batch on. */
    ghost function FromPlace(k: nat): (r: seq<Task>)
      requires currentQueue.Some? && k <= |currentQueue.value|
      reads this
    {
      currentQueue.value[k..] + queue
    }

    /** Starts the task at queueIndex. */
    method RunCurrent() returns (threw: bool)
      requires draining && currentQueue.Some? && 0 <= queueIndex < |currentQueue.value|
      requires enqueued == started + FromPlace(queueIndex)
      modifies this
      ensures draining && currentQueue == old(currentQueue) && queueIndex == old(queueIndex)
      ensures cleanupTimers == old(cleanupTimers) && drainTimers == old(drainTimers)
      ensures enqueued == started + FromPlace(queueIndex + 1)
      ensures started + Order(FromPlace(queueIndex + 1)) == old(started + Order(FromPlace(queueIndex)))
      ensures Sizes(FromPlace(queueIndex + 1)) < old(Sizes(FromPlace(queueIndex)))
    {
      hide Order, Sizes, Size;
      var task := currentQueue.value[queueIndex];
      ghost var rest, before := FromPlace(queueIndex + 1), started;
      assert FromPlace(queueIndex) == [task] + rest;
      OrderStarts(task, rest);
      threw := Run(task);
      assert FromPlace(queueIndex + 1) == rest + task.enqueues;
      assert before + ([task] + rest) + task.enqueues == (before + [task]) + (rest + task.enqueues);
      assert before + ([task] + Order(rest + task.enqueues)) == (before + [task]) + Order(rest + task.enqueues);
    }

    /** The inner loop of `f`: the tasks of the batch from queueIndex on, up to one that throws. */
    method RunBatch(len: nat) returns (threw: bool)
      requires draining && currentQueue.Some? && len == |currentQueue.value| && 0 <= queueIndex <= len
      requires enqueued == started + FromPlace(queueIndex)
      modifies this
      ensures draining && currentQueue == old(currentQueue)
      ensures cleanupTimers == old(cleanupTimers) && drainTimers == old(drainTimers)
      ensures if threw then 0 <= queueIndex < len else queueIndex == len
      ensures var next := if threw then queueIndex + 1 else queueIndex;
              && enqueued == started + FromPlace(next)
              && started + Order(FromPlace(next)) == old(started + Order(FromPlace(queueIndex)))
              && (Sizes(FromPlace(next)) < old(Sizes(FromPlace(queueIndex)))
                  || (!threw && old(queueIndex) == len && FromPlace(next) == old(FromPlace(queueIndex))))
    {
      hide Order, Sizes, Size;
      while queueIndex < len
        invariant draining && currentQueue == old(currentQueue) && 0 <= queueIndex <= len
        invariant cleanupTimers == old(cleanupTimers) && drainTimers == old(drainTimers)
        invariant enqueued == started + FromPlace(queueIndex)
        invariant started + Order(FromPlace(queueIndex)) == old(started + Order(FromPlace(queueIndex)))
        invariant Sizes(FromPlace(queueIndex)) < old(Sizes(FromPlace(queueIndex)))
                  || (queueIndex == old(queueIndex) && FromPlace(queueIndex) == old(FromPlace(queueIndex)))
        decreases len - queueIndex
      {
        threw := RunCurrent();
        if threw {
          return;
        }
        queueIndex := queueIndex + 1;
      }
      threw := false;
    }

    /** `f`: works on batches until the queue is empty or a task throws. The tasks up to queueIndex were started before. */
    method DrainQueue() returns (threw: bool)
      requires !draining && -1 <= queueIndex && queueIndex + 1 <= |queue|
      requires cleanupTimers == 0 && drainTimers == 0
      requires enqueued == started + queue[queueIndex + 1..]
      modifies this
      ensures Valid() && draining == threw
      ensures !threw ==> Unstarted() == []
      ensures started + Order(Unstarted()) == old(started + Order(queue[queueIndex + 1..]))
      ensures var before := old(queue[queueIndex + 1..]);
              Sizes(Unstarted()) < Sizes(before) || (before == [] && !threw)
    {
      hide Order, Size, Sizes;
      ghost var before := queue[queueIndex + 1..];
      ghost var fate := started + Order(before);
      cleanupTimers := cleanupTimers + 1;
      draining := true;
      var len := |queue|;
      while len != 0
        invariant draining && len == |queue| && cleanupTimers == 1 && drainTimers == 0
        invariant -1 <= queueIndex && queueIndex + 1 <= |queue|
        invariant queue == [] ==> queueIndex == -1
        invariant enqueued == started + queue[queueIndex + 1..]
        invariant started + Order(queue[queueIndex + 1..]) == fate
        invariant Sizes(queue[queueIndex + 1..]) < Sizes(before) || queue[queueIndex + 1..] == before
        decreases Sizes(queue[queueIndex + 1..]), len
      {
        ghost var todo := queue[queueIndex + 1..];
        currentQueue := Some(queue);
        queue := [];
        queueIndex := queueIndex + 1;
        assert FromPlace(queueIndex) == todo;
        threw := RunBatch(len);
        if threw {
          assert Unstarted() == FromPlace(queueIndex + 1);
          return;
        }
        assert FromPlace(queueIndex) == queue;
        queueIndex := -1;
        len := |queue|;
        assert queue[queueIndex + 1..] == queue;
      }
      assert queue[queueIndex + 1..] == [] == queue;
      currentQueue := None;
      draining := false;
      cleanupTimers := cleanupTimers - 1;
      threw := false;
      NothingIsLess(before);
    }

    /** `d`, with its timer gone: what a throwing task left is put before what was enqueued since. */
    method CleanUpNextTick() returns (threw: bool)
      requires drainTimers == (if !draining && queue != [] then 1 else 0) && cleanupTimers == 0
      requires if draining then currentQueue.Some? && 0 <= queueIndex < |currentQueue.value|
               else currentQueue.None? && queueIndex == -1
      requires enqueued == started + Unstarted()
      modifies this
      ensures Valid() && draining == threw
      ensures old(draining) ==>
                && (!threw ==> Unstarted() == [])
                && (Sizes(Unstarted()) < old(Sizes(Unstarted())) || (old(Unstarted()) == [] && !threw))
      ensures started + Order(Unstarted()) == old(started + Order(Unstarted()))
    {
      hide Order, Size, Sizes;
      if !draining || currentQueue.None? {
        return false;
      }
      ghost var rest := Unstarted();
      draining := false;
      if |currentQueue.value| != 0 {
        queue := currentQueue.value + queue;
        assert queue[queueIndex + 1..] == rest;
      } else {
        assert false;  // the task that threw is in the batch
      }
      if |queue| != 0 {
        threw := DrainQueue();
      } else {
        assert false;
      }
    }

    // ----- Timers -----

    method FireDrainTimer() returns (threw: bool)
      requires Valid() && drainTimers > 0
      modifies this
      ensures Valid() && draining == threw
      ensures started + Order(Unstarted()) == old(started + Order(Unstarted()))
      ensures Sizes(Unstarted()) < old(Sizes(Unstarted()))
    {
      drainTimers := drainTimers - 1;
      assert queue[queueIndex + 1..] == queue;
      threw := DrainQueue();
    }

    method FireCleanupTimer() returns (threw: bool)
      requires Valid() && cleanupTimers > 0
      modifies this
      ensures Valid() && draining == threw
      ensures started + Order(Unstarted()) == old(started + Order(Unstarted()))
      ensures Sizes(Unstarted()) < old(Sizes(Unstarted())) || (old(Unstarted()) == [] && !threw)
      ensures !threw ==> Unstarted() == []
    {
      cleanupTimers := cleanupTimers - 1;
      threw := CleanUpNextTick();
    }

    /** The timers fire one after the other until none is left: every task that was ever enqueued is started exactly once,
        in the order of the plain queue, however many tasks throw. */
    method FireTimers()
      requires Valid()
      modifies this
      ensures Valid() && drainTimers == 0 && cleanupTimers == 0
      ensures started == enqueued == old(started + Order(Unstarted()))
    {
      while drainTimers + cleanupTimers > 0
        invariant Valid() && started + Order(Unstarted()) == old(started + Order(Unstarted()))
        decreases Sizes(Unstarted()), draining
      {
        if drainTimers > 0 {
          var _ := FireDrainTimer();
        } else {
          var _ := FireCleanupTimer();
        }
      }
      assert Unstarted() == [];
    }
  }
}
