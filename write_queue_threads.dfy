// `BLEWriteQueue` under two threads. `enqueueWrite` runs on the UI thread
// and `onWriteComplete` on the GATT callback thread, and neither takes a
// lock: the queue is a plain `LinkedList` and the flag a plain `Boolean`.
// This module runs the two calls statement by statement under a schedule
// that says which thread moves next, with a transport that accepts every
// request, and shows one schedule that hands the transport a second write
// while the first is still in flight.
module WriteQueueThreads {
  import opened CharacteristicModel
  import opened WriteQueue

  datatype Thread = Ui | Binder

  /** Where a thread is inside its call: at the call's first statement
      (`writeQueue.add` or `isWriting = false`), at the guard of
      `processNextWrite`, at `poll`, at `isWriting = true` holding the polled
      request, at the transport call, or finished. */
  datatype Pc = Entry | Check | Poll | Raise(request: WriteRequest) | Invoke(request: WriteRequest) | Done

  /** The fields both threads share, and the transport's log. */
  datatype Shared = Shared(queue: seq<WriteRequest>, isWriting: bool, events: seq<Event>)

  /** The UI thread enqueues `enqueued`; the callback thread completes. */
  datatype World = World(shared: Shared, ui: Pc, binder: Pc, enqueued: WriteRequest)

  /** One statement of thread t. */
  function Step(sh: Shared, t: Thread, pc: Pc, enqueued: WriteRequest): (Shared, Pc)
  {
    match pc
    case Entry =>
      if t == Ui then (sh.(queue := sh.queue + [enqueued]), Check)
      else (sh.(isWriting := false, events := sh.events + [Completed]), Check)
    case Check => if sh.isWriting || sh.queue == [] then (sh, Done) else (sh, Poll)
    case Poll => if sh.queue == [] then (sh, Done) else (sh.(queue := sh.queue[1..]), Raise(sh.queue[0]))
    case Raise(r) => (sh.(isWriting := true), Invoke(r))
    case Invoke(r) => (sh.(events := sh.events + [Requested(r, true)]), Done)
    case Done => (sh, Done)
  }

  /** The world after thread t takes one step. */
  function StepWorld(w: World, t: Thread): World
  {
    var (sh, pc) := Step(w.shared, t, if t == Ui then w.ui else w.binder, w.enqueued);
    if t == Ui then w.(shared := sh, ui := pc) else w.(shared := sh, binder := pc)
  }

  /** The world after the threads move in the order the schedule gives. */
  function Run(w: World, schedule: seq<Thread>): World
    decreases |schedule|
  {
    if schedule == [] then w else Run(StepWorld(w, schedule[0]), schedule[1..])
  }

  /** Running a schedule is taking its first step, then running the rest. */
  lemma {:induction false} RunFirst(w: World, t: Thread, rest: seq<Thread>)
    ensures Run(w, [t] + rest) == Run(StepWorld(w, t), rest)
  {
    assert ([t] + rest)[1..] == rest;
  }

  /** Running two schedules one after the other is running their concatenation. */
  lemma {:induction false} RunAppend(w: World, a: seq<Thread>, b: seq<Thread>)
    ensures Run(w, a + b) == Run(Run(w, a), b)
    decreases |a|
  {
    if a == [] {
      assert a + b == b;
    } else {
      assert (a + b)[0] == a[0] && (a + b)[1..] == a[1..] + b;
      RunAppend(StepWorld(w, a[0]), a[1..], b);
    }
  }

  /** Write `inFlight` was accepted and is outstanding, `waiting` is queued
      behind it; the UI thread is about to enqueue `next` just as the
      transport reports `inFlight` complete. */
  function Start(inFlight: WriteRequest, waiting: WriteRequest, next: WriteRequest): World
  {
    World(Shared([waiting], true, [Requested(inFlight, true)]), Entry, Entry, next)
  }

  /** The log once `inFlight` has completed. */
  function Completion(inFlight: WriteRequest): seq<Event>
  {
    [Requested(inFlight, true), Completed]
  }

  /** Both threads pass the guard before either raises the flag. */
  const Interleaved: seq<Thread> := [Binder, Binder, Ui, Ui] + [Binder, Ui, Binder, Ui] + [Binder, Ui]

  /** The callback thread's call runs to its end before the UI thread's starts. */
  const Serialised: seq<Thread> := [Binder, Binder, Binder, Binder] + [Binder, Ui, Ui, Ui]

  /** Interleaved, first part: the completion clears the flag and passes the
      guard; the enqueue adds `next` and passes the guard too. */
  lemma {:induction false} BothPassTheGuard(inFlight: WriteRequest, waiting: WriteRequest, next: WriteRequest)
    ensures Run(Start(inFlight, waiting, next), [Binder, Binder, Ui, Ui])
      == World(Shared([waiting, next], false, Completion(inFlight)), Poll, Poll, next)
  {
    var ev := Completion(inFlight);
    var w0 := Start(inFlight, waiting, next);
    var w1 := World(Shared([waiting], false, ev), Entry, Check, next);
    var w2 := World(Shared([waiting], false, ev), Entry, Poll, next);
    var w3 := World(Shared([waiting, next], false, ev), Check, Poll, next);
    var w4 := World(Shared([waiting, next], false, ev), Poll, Poll, next);
    assert StepWorld(w0, Binder) == w1;
    assert StepWorld(w1, Binder) == w2;
    assert StepWorld(w2, Ui) == w3;
    assert StepWorld(w3, Ui) == w4;
    RunFirst(w3, Ui, []);
    RunFirst(w2, Ui, [Ui]);
    RunFirst(w1, Binder, [Ui, Ui]);
    RunFirst(w0, Binder, [Binder, Ui, Ui]);
  }

  /** Interleaved, second part: each thread polls one request and raises the flag. */
  lemma {:induction false} BothPoll(inFlight: WriteRequest, waiting: WriteRequest, next: WriteRequest)
    ensures Run(World(Shared([waiting, next], false, Completion(inFlight)), Poll, Poll, next), [Binder, Ui, Binder, Ui])
      == World(Shared([], true, Completion(inFlight)), Invoke(next), Invoke(waiting), next)
  {
    var ev := Completion(inFlight);
    var w0 := World(Shared([waiting, next], false, ev), Poll, Poll, next);
    var w1 := World(Shared([next], false, ev), Poll, Raise(waiting), next);
    var w2 := World(Shared([], false, ev), Raise(next), Raise(waiting), next);
    var w3 := World(Shared([], true, ev), Raise(next), Invoke(waiting), next);
    var w4 := World(Shared([], true, ev), Invoke(next), Invoke(waiting), next);
    assert StepWorld(w0, Binder) == w1 by { assert [waiting, next][1..] == [next]; }
    assert StepWorld(w1, Ui) == w2;
    assert StepWorld(w2, Binder) == w3;
    assert StepWorld(w3, Ui) == w4;
    RunFirst(w3, Ui, []);
    RunFirst(w2, Binder, [Ui]);
    RunFirst(w1, Ui, [Binder, Ui]);
    RunFirst(w0, Binder, [Ui, Binder, Ui]);
  }

  /** Interleaved, last part: both threads call the transport. */
  lemma {:induction false} BothWrite(inFlight: WriteRequest, waiting: WriteRequest, next: WriteRequest)
    ensures Run(World(Shared([], true, Completion(inFlight)), Invoke(next), Invoke(waiting), next), [Binder, Ui])
      == World(Shared([], true, Completion(inFlight) + [Requested(waiting, true), Requested(next, true)]), Done, Done, next)
  {
    var ev := Completion(inFlight);
    var w0 := World(Shared([], true, ev), Invoke(next), Invoke(waiting), next);
    var w1 := World(Shared([], true, ev + [Requested(waiting, true)]), Invoke(next), Done, next);
    var w2 := World(Shared([], true, ev + [Requested(waiting, true), Requested(next, true)]), Done, Done, next);
    assert StepWorld(w0, Binder) == w1;
    assert StepWorld(w1, Ui) == w2;
    RunFirst(w1, Ui, []);
    RunFirst(w0, Binder, [Ui]);
  }

  /** As written: under the interleaved schedule both threads poll and
      both hand their request to the transport, so two accepted writes are
      in flight with no completion between them. */
  lemma {:induction false} UnsynchronisedRace(inFlight: WriteRequest, waiting: WriteRequest, next: WriteRequest)
    ensures var end := Run(Start(inFlight, waiting, next), Interleaved);
      end.ui == Done && end.binder == Done
      && end.shared.events == [Requested(inFlight, true), Completed, Requested(waiting, true), Requested(next, true)]
      && !OneAtATime(end.shared.events)
  {
    var guard, poll, write := [Binder, Binder, Ui, Ui], [Binder, Ui, Binder, Ui], [Binder, Ui];
    var w0 := Start(inFlight, waiting, next);
    RunAppend(w0, guard + poll, write);
    RunAppend(w0, guard, poll);
    BothPassTheGuard(inFlight, waiting, next);
    BothPoll(inFlight, waiting, next);
    BothWrite(inFlight, waiting, next);
    var events := [Requested(inFlight, true), Completed, Requested(waiting, true), Requested(next, true)];
    assert Completion(inFlight) + [Requested(waiting, true), Requested(next, true)] == events;
    assert events[..3][..2][..1] == [Requested(inFlight, true)];
    assert Busy(events[..3]);
  }

  /** Serialised, first part: the completion runs to its end and sends `waiting`. */
  lemma {:induction false} CompletionRunsAlone(inFlight: WriteRequest, waiting: WriteRequest, next: WriteRequest)
    ensures Run(Start(inFlight, waiting, next), [Binder, Binder, Binder, Binder])
      == World(Shared([], true, Completion(inFlight)), Entry, Invoke(waiting), next)
  {
    var ev := Completion(inFlight);
    var w0 := Start(inFlight, waiting, next);
    var w1 := World(Shared([waiting], false, ev), Entry, Check, next);
    var w2 := World(Shared([waiting], false, ev), Entry, Poll, next);
    var w3 := World(Shared([], false, ev), Entry, Raise(waiting), next);
    var w4 := World(Shared([], true, ev), Entry, Invoke(waiting), next);
    assert StepWorld(w0, Binder) == w1;
    assert StepWorld(w1, Binder) == w2;
    assert StepWorld(w2, Binder) == w3;
    assert StepWorld(w3, Binder) == w4;
    RunFirst(w3, Binder, []);
    RunFirst(w2, Binder, [Binder]);
    RunFirst(w1, Binder, [Binder, Binder]);
    RunFirst(w0, Binder, [Binder, Binder, Binder]);
  }

  /** Serialised, second part: the write goes out, then the enqueue finds the
      flag raised and leaves `next` queued. */
  lemma {:induction false} EnqueueWaits(inFlight: WriteRequest, waiting: WriteRequest, next: WriteRequest)
    ensures Run(World(Shared([], true, Completion(inFlight)), Entry, Invoke(waiting), next), [Binder, Ui, Ui, Ui])
      == World(Shared([next], true, Completion(inFlight) + [Requested(waiting, true)]), Done, Done, next)
  {
    var ev := Completion(inFlight) + [Requested(waiting, true)];
    var w0 := World(Shared([], true, Completion(inFlight)), Entry, Invoke(waiting), next);
    var w1 := World(Shared([], true, ev), Entry, Done, next);
    var w2 := World(Shared([next], true, ev), Check, Done, next);
    var w3 := World(Shared([next], true, ev), Done, Done, next);
    assert StepWorld(w0, Binder) == w1;
    assert StepWorld(w1, Ui) == w2;
    assert StepWorld(w2, Ui) == w3;
    assert StepWorld(w3, Ui) == w3;
    RunFirst(w3, Ui, []);
    RunFirst(w2, Ui, [Ui]);
    RunFirst(w1, Ui, [Ui, Ui]);
    RunFirst(w0, Binder, [Ui, Ui, Ui]);
  }

  /** With the two calls serialised, as `@Synchronized` on both would make
      them, the same start keeps one write in flight: `next` waits in the
      queue behind `waiting`. */
  lemma {:induction false} SerialisedCalls(inFlight: WriteRequest, waiting: WriteRequest, next: WriteRequest)
    ensures var end := Run(Start(inFlight, waiting, next), Serialised);
      end.ui == Done && end.binder == Done
      && end.shared.events == [Requested(inFlight, true), Completed, Requested(waiting, true)]
      && end.shared.queue == [next] && end.shared.isWriting
      && OneAtATime(end.shared.events)
  {
    RunAppend(Start(inFlight, waiting, next), [Binder, Binder, Binder, Binder], [Binder, Ui, Ui, Ui]);
    CompletionRunsAlone(inFlight, waiting, next);
    EnqueueWaits(inFlight, waiting, next);
    var events := [Requested(inFlight, true), Completed, Requested(waiting, true)];
    assert Completion(inFlight) + [Requested(waiting, true)] == events;
    assert events[..2][..1] == [Requested(inFlight, true)];
    assert events[..1][..0] == [];
    assert !Busy(events[..2]) && !Busy(events[..0]);
    assert forall i :: 0 <= i < |events| && events[i].Requested? ==> i == 0 || i == 2;
  }
}
