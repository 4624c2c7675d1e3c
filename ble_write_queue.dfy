// `BLEWriteQueue`: writes to characteristics go out one at a time. A request
// waits in a FIFO until no accepted write is outstanding; it is then handed
// to the transport (`onRequestWrite`). A refused request is dropped and the
// next one is tried at once; an accepted one holds the queue until
// `onWriteComplete`.
module WriteQueue {
  import opened CharacteristicModel

  /** What the queue did on the transport, in order: a request handed over
      with the transport's answer, or a reported completion. */
  datatype Event = Requested(request: WriteRequest, accepted: bool) | Completed

  /** The transport's `i`-th answer; once the answers run out it refuses. */
  function Answer(answers: seq<bool>, i: nat): bool
  {
    i < |answers| && answers[i]
  }

  /** The answers left after `n` requests. */
  function Drop(answers: seq<bool>, n: nat): seq<bool>
  {
    if n < |answers| then answers[n..] else []
  }

  /** Whether an accepted write is outstanding after these events: the last
      accepted request has not been followed by a completion. */
  function Busy(events: seq<Event>): bool
  {
    if events == [] then false
    else match events[|events| - 1]
      case Completed => false
      case Requested(_, accepted) => accepted || Busy(events[..|events| - 1])
  }

  /** The requests handed to the transport, in order. */
  function RequestsOf(events: seq<Event>): (r: seq<WriteRequest>)
    ensures |r| <= |events|
  {
    if events == [] then []
    else if events[0].Requested? then [events[0].request] + RequestsOf(events[1..])
    else RequestsOf(events[1..])
  }

  /** A request is handed over only while no accepted write is outstanding. */
  ghost predicate OneAtATime(events: seq<Event>)
  {
    forall i :: 0 <= i < |events| && events[i].Requested? ==> !Busy(events[..i])
  }

  /** One dispatch round from an idle queue holding `q`: the events it
      produces, given the transport's answers. */
  function Pump(q: seq<WriteRequest>, answers: seq<bool>): (r: seq<Event>)
    ensures |r| <= |q|
    ensures q != [] ==> r != []
  {
    if q == [] then []
    else if Answer(answers, 0) then [Requested(q[0], true)]
    else [Requested(q[0], false)] + Pump(q[1..], Drop(answers, 1))
  }

  /** A round hands the requests over from the head in queue order, each
      with the transport's next answer; each refused one is dropped and the
      next tried; the round stops at the first accepted request or when the
      queue runs out. */
  lemma {:induction false} PumpRound(q: seq<WriteRequest>, answers: seq<bool>)
    ensures var r := Pump(q, answers);
      && (forall i :: 0 <= i < |r| ==> r[i] == Requested(q[i], Answer(answers, i)))
      && (forall i :: 0 <= i < |r| - 1 ==> !r[i].accepted)
      && (|r| < |q| ==> r != [] && r[|r| - 1].accepted)
  {
    if q != [] && !Answer(answers, 0) {
      var rest := Pump(q[1..], Drop(answers, 1));
      PumpRound(q[1..], Drop(answers, 1));
      var r := Pump(q, answers);
      assert r == [Requested(q[0], false)] + rest;
      forall i | 0 <= i < |r| ensures r[i] == Requested(q[i], Answer(answers, i)) {
        if i > 0 {
          assert r[i] == rest[i - 1];
        }
      }
    }
  }

  /** The requests of a round are the head of the queue, in order. */
  lemma {:induction false} PumpTakesHead(q: seq<WriteRequest>, answers: seq<bool>)
    ensures RequestsOf(Pump(q, answers)) == q[..|Pump(q, answers)|]
  {
    if q != [] && !Answer(answers, 0) {
      var rest := Pump(q[1..], Drop(answers, 1));
      PumpTakesHead(q[1..], Drop(answers, 1));
      assert Pump(q, answers) == [Requested(q[0], false)] + rest;
      HeadSlice(q, |rest| + 1);
    }
  }

  lemma {:induction false} HeadSlice<T>(q: seq<T>, n: int)
    requires 0 < n <= |q|
    ensures q[..n] == [q[0]] + q[1..][..n - 1]
  {
  }

  /** A round from an idle queue never asks the transport twice at once,
      and leaves a write in flight exactly when the transport accepted one
      of the queued requests. */
  lemma {:induction false} PumpOneAtATime(events: seq<Event>, q: seq<WriteRequest>, answers: seq<bool>)
    requires OneAtATime(events) && !Busy(events)
    ensures OneAtATime(events + Pump(q, answers))
    ensures Busy(events + Pump(q, answers)) <==> exists i :: 0 <= i < |q| && Answer(answers, i)
    decreases |q|
  {
    if q == [] {
      assert events + Pump(q, answers) == events;
    } else {
      var e := Requested(q[0], Answer(answers, 0));
      var events' := events + [e];
      SnocOneAtATime(events, e);
      if e.accepted {
        assert events + Pump(q, answers) == events';
      } else {
        var rest := Pump(q[1..], Drop(answers, 1));
        PumpOneAtATime(events', q[1..], Drop(answers, 1));
        Assoc(events, [e], rest);
        assert (exists i :: 0 <= i < |q| && Answer(answers, i)) <==>
               (exists i :: 0 <= i < |q[1..]| && Answer(Drop(answers, 1), i)) by {
          if exists i :: 0 <= i < |q| && Answer(answers, i) {
            var i :| 0 <= i < |q| && Answer(answers, i);
            assert Answer(Drop(answers, 1), i - 1);
          }
          if exists i :: 0 <= i < |q[1..]| && Answer(Drop(answers, 1), i) {
            var i :| 0 <= i < |q[1..]| && Answer(Drop(answers, 1), i);
            assert Answer(answers, i + 1);
          }
        }
      }
    }
  }

  lemma {:induction false} Assoc<T>(a: seq<T>, b: seq<T>, c: seq<T>)
    ensures a + (b + c) == a + b + c
  {
  }

  /** A round whose first request is refused is that refusal followed by
      the round over the rest of the queue. */
  lemma {:induction false} RefusedRound(events0: seq<Event>, q: seq<WriteRequest>, answers0: seq<bool>,
                                        events: seq<Event>, queue: seq<WriteRequest>, answers: seq<bool>)
    requires q != [] && !Answer(answers0, 0)
    requires var rest := Pump(q[1..], Drop(answers0, 1));
      events == events0 + [Requested(q[0], false)] + rest
      && queue == q[1..][|rest|..]
      && answers == Drop(Drop(answers0, 1), |rest|)
    ensures var sent := Pump(q, answers0);
      events == events0 + sent && queue == q[|sent|..] && answers == Drop(answers0, |sent|)
  {
    var rest := Pump(q[1..], Drop(answers0, 1));
    assert Pump(q, answers0) == [Requested(q[0], false)] + rest;
    Assoc(events0, [Requested(q[0], false)], rest);
    SliceOfSlice(q, |rest|);
    DropOfDrop(answers0, |rest|);
  }

  lemma {:induction false} PopHead<T>(done: seq<T>, q: seq<T>)
    requires q != []
    ensures done + q == done + [q[0]] + q[1..]
  {
    assert q == [q[0]] + q[1..];
  }

  lemma {:induction false} SliceOfSlice<T>(q: seq<T>, k: int)
    requires 0 <= k < |q|
    ensures q[1..][k..] == q[k + 1..]
  {
  }

  lemma {:induction false} DropOfDrop(answers: seq<bool>, k: nat)
    ensures Drop(Drop(answers, 1), k) == Drop(answers, k + 1)
  {
  }

  /** Appending one event: a request keeps OneAtATime when the queue was
      idle, and the queue is busy afterwards exactly when the event is an
      accepted request or a refused one while already busy. */
  lemma {:induction false} SnocOneAtATime(events: seq<Event>, e: Event)
    requires OneAtATime(events)
    requires e.Requested? ==> !Busy(events)
    ensures OneAtATime(events + [e])
    ensures Busy(events + [e]) == (e.Requested? && (e.accepted || Busy(events)))
  {
    var events' := events + [e];
    assert events'[..|events|] == events;
    forall i | 0 <= i < |events'| && events'[i].Requested? ensures !Busy(events'[..i]) {
      if i < |events| {
        assert events'[..i] == events[..i];
      }
    }
  }

  /** Between two accepted requests there is always a completion: at most
      one accepted write is ever outstanding. */
  lemma {:induction false} AtMostOneOutstanding(events: seq<Event>, i: int, j: int)
    requires OneAtATime(events)
    requires 0 <= i < j < |events|
    requires events[i].Requested? && events[i].accepted && events[j].Requested?
    ensures exists k :: i < k < j && events[k].Completed?
  {
    if forall k :: i < k < j ==> !events[k].Completed? {
      BusyUntilCompleted(events, i, j);
      assert false;
    }
  }

  /** An accepted request keeps the queue busy until a completion. */
  lemma {:induction false} BusyUntilCompleted(events: seq<Event>, i: int, j: int)
    requires 0 <= i < j <= |events|
    requires events[i].Requested? && events[i].accepted
    requires forall k :: i < k < j ==> !events[k].Completed?
    ensures Busy(events[..j])
    decreases j
  {
    var p := events[..j];
    assert p[..j - 1] == events[..j - 1];
    if j - 1 > i {
      BusyUntilCompleted(events, i, j - 1);
    }
  }

  /** The transport behind `onRequestWrite`. Its answers are not known in
      advance, so they are an oracle: `answers` lists what it will say to the
      coming requests (it refuses once they run out), and `received` is what
      it has been handed. */
  class Link {
    var answers: seq<bool>
    var received: seq<WriteRequest>

    constructor (answers: seq<bool>)
      ensures this.answers == answers && received == []
    {
      this.answers := answers;
      received := [];
    }

    method RequestWrite(r: WriteRequest) returns (accepted: bool)
      modifies this
      ensures accepted == Answer(old(answers), 0)
      ensures answers == Drop(old(answers), 1)
      ensures received == old(received) + [r]
    {
      accepted := Answer(answers, 0);
      answers := Drop(answers, 1);
      received := received + [r];
    }
  }

  class BleWriteQueue {
    var queue: seq<WriteRequest>
    var isWriting: bool
    const link: Link
    /** Every request ever enqueued, in order. */
    ghost var enqueued: seq<WriteRequest>
    /** What the queue did on the transport, in order. */
    ghost var events: seq<Event>

    /** Holds between the steps of a dispatch round: each enqueued request
        has either reached the transport or is still queued, in enqueue
        order; the flag says whether an accepted write is outstanding; and
        the transport is never asked twice at once. */
    ghost predicate Consistent()
      reads this, link
    {
      enqueued == link.received + queue
      && link.received == RequestsOf(events)
      && isWriting == Busy(events)
      && OneAtATime(events)
    }

    /** Holds after every public call: besides the above, a write is in
        flight or nothing waits. */
    ghost predicate Valid()
      reads this, link
    {
      Consistent() && (isWriting || queue == [])
    }

    constructor (link: Link)
      requires link.received == []
      ensures Valid() && this.link == link
      ensures queue == [] && !isWriting && enqueued == [] && events == []
    {
      this.link := link;
      queue := [];
      isWriting := false;
      enqueued := [];
      events := [];
    }

    /** `processNextWrite`: nothing while a write is in flight; otherwise one
        dispatch round over the queue. */
    method ProcessNextWrite()
      requires Consistent()
      modifies this, link
      ensures Valid()
      ensures enqueued == old(enqueued)
      ensures old(isWriting) ==> queue == old(queue) && events == old(events) && link.answers == old(link.answers)
      ensures !old(isWriting) ==>
        var sent := Pump(old(queue), old(link.answers));
        events == old(events) + sent
        && queue == old(queue)[|sent|..]
        && link.answers == Drop(old(link.answers), |sent|)
      decreases |queue|
    {
      if isWriting || queue == [] {
        return;
      }
      ghost var answers0 := link.answers;
      ghost var events0 := events;
      ghost var queue0 := queue;
      var request := queue[0];
      queue := queue[1..];
      isWriting := true;
      var success := link.RequestWrite(request);
      events := events + [Requested(request, success)];
      RequestsOfSnoc(events0, Requested(request, success));
      SnocOneAtATime(events0, Requested(request, success));
      PopHead(link.received[..|link.received| - 1], queue0);
      if !success {
        isWriting := false;
        ProcessNextWrite();
        RefusedRound(events0, queue0, answers0, events, queue, link.answers);
      }
    }

    /** `enqueueWrite`: appends at the tail, then dispatches. */
    method EnqueueWrite(r: WriteRequest)
      requires Valid()
      modifies this, link
      ensures Valid()
      ensures enqueued == old(enqueued) + [r]
      ensures old(isWriting) ==> queue == old(queue) + [r] && events == old(events) && link.answers == old(link.answers)
      ensures !old(isWriting) ==>
        events == old(events) + [Requested(r, Answer(old(link.answers), 0))]
        && queue == [] && link.answers == Drop(old(link.answers), 1)
    {
      queue := queue + [r];
      enqueued := enqueued + [r];
      ProcessNextWrite();
    }

    /** `onWriteComplete`: clears the in-flight flag, whatever the write's
        outcome, and dispatches the next request. */
    method OnWriteComplete()
      requires Valid()
      modifies this, link
      ensures Valid()
      ensures enqueued == old(enqueued)
      ensures var sent := Pump(old(queue), old(link.answers));
        events == old(events) + [Completed] + sent
        && queue == old(queue)[|sent|..]
        && link.answers == Drop(old(link.answers), |sent|)
    {
      isWriting := false;
      ghost var events0 := events;
      events := events + [Completed];
      RequestsOfSnoc(events0, Completed);
      SnocOneAtATime(events0, Completed);
      ProcessNextWrite();
    }
  }

  lemma {:induction false} RequestsOfSnoc(events: seq<Event>, e: Event)
    ensures RequestsOf(events + [e]) == RequestsOf(events) + (if e.Requested? then [e.request] else [])
  {
    if events != [] {
      assert (events + [e])[1..] == events[1..] + [e];
      RequestsOfSnoc(events[1..], e);
    } else {
      assert ([e])[1..] == [];
    }
  }
}
