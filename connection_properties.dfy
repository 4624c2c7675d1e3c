// What the connection state machine guarantees: closed forms of the three
// drains of the load pipeline, which characteristics the queues receive,
// and the behaviour of the public calls and callbacks across calls.
module ConnectionProperties {
  import opened Outcomes
  import opened Uuids
  import opened Gatt
  import BluetoothService
  import ServiceModel
  import CM = CharacteristicModel
  import opened WriteQueue
  import opened Connection

  // ---- Drains ---------------------------------------------------------------

  /** How many requests a drain over `n` entries makes: one per entry up to
      and including the first accepted one. */
  function Tried(n: nat, answers: seq<bool>): (k: nat)
    ensures k <= n
    decreases n
  {
    if n == 0 then 0
    else if Answer(answers, 0) then 1
    else 1 + Tried(n - 1, Drop(answers, 1))
  }

  /** Whether one of the first `n` requests is accepted. */
  predicate SomeAccepted(n: nat, answers: seq<bool>)
  {
    exists i :: 0 <= i < n && Answer(answers, i)
  }

  lemma {:induction false} AnswerDrop(answers: seq<bool>, i: nat)
    ensures Answer(Drop(answers, 1), i) == Answer(answers, i + 1)
  {
  }

  /** A drain stops at the first accepted request, or tries every entry. */
  lemma {:induction false} TriedStopsAtFirstAcceptance(n: nat, answers: seq<bool>)
    ensures var k := Tried(n, answers);
      k <= n
      && (n > 0 ==> k > 0)
      && (forall i :: 0 <= i < k - 1 ==> !Answer(answers, i))
      && (k < n ==> 0 < k && Answer(answers, k - 1))
      && (SomeAccepted(n, answers) <==> 0 < k && Answer(answers, k - 1))
    decreases n
  {
    if n > 0 && !Answer(answers, 0) {
      var rest := Drop(answers, 1);
      TriedStopsAtFirstAcceptance(n - 1, rest);
      var k := Tried(n, answers);
      forall i | 0 <= i < k - 1 ensures !Answer(answers, i) {
        if i > 0 {
          AnswerDrop(answers, i - 1);
        }
      }
      if k > 1 {
        AnswerDrop(answers, k - 2);
      }
      if SomeAccepted(n, answers) {
        var i :| 0 <= i < n && Answer(answers, i);
        AnswerDrop(answers, i - 1);
        assert SomeAccepted(n - 1, rest);
      }
      if SomeAccepted(n - 1, rest) {
        var i :| 0 <= i < n - 1 && Answer(rest, i);
        AnswerDrop(answers, i);
      }
    }
  }

  /** A refused first request: the drain goes on over the rest. */
  lemma {:induction false} TriedStep(n: nat, answers: seq<bool>)
    requires n > 0 && !Answer(answers, 0)
    ensures Tried(n, answers) == Tried(n - 1, Drop(answers, 1)) + 1
    ensures Refused(n, answers) == Refused(n - 1, Drop(answers, 1)) + 1
    ensures SomeAccepted(n, answers) == SomeAccepted(n - 1, Drop(answers, 1))
  {
    var rest := Drop(answers, 1);
    var k1 := Tried(n - 1, rest);
    if k1 > 0 {
      AnswerDrop(answers, k1 - 1);
    }
    if SomeAccepted(n, answers) {
      var i :| 0 <= i < n && Answer(answers, i);
      AnswerDrop(answers, i - 1);
      assert SomeAccepted(n - 1, rest);
    }
    if SomeAccepted(n - 1, rest) {
      var i :| 0 <= i < n - 1 && Answer(rest, i);
      AnswerDrop(answers, i);
    }
  }

  /** How many tried entries were refused. */
  function Refused(n: nat, answers: seq<bool>): (r: nat)
    ensures r <= Tried(n, answers)
  {
    var k := Tried(n, answers);
    if 0 < k && Answer(answers, k - 1) then k - 1 else k
  }

  function CharacteristicReads(cs: seq<CharacteristicRef>): seq<Request>
  {
    if cs == [] then [] else [ReadCharacteristic(cs[0])] + CharacteristicReads(cs[1..])
  }

  function NoReadReports(cs: seq<CharacteristicRef>): seq<Notice>
  {
    if cs == [] then []
    else [Error(BluetoothService.NoPropertyRead, UuidText(cs[0].characteristic.uuid))] + NoReadReports(cs[1..])
  }

  function DescriptorReads(ds: seq<DescriptorRef>): seq<Request>
  {
    if ds == [] then [] else [ReadDescriptor(ds[0])] + DescriptorReads(ds[1..])
  }

  function ReadFailedReports(ds: seq<DescriptorRef>): seq<Notice>
  {
    if ds == [] then []
    else [Error(BluetoothService.DescriptorReadFailed, UuidText(ds[0].characteristic.uuid))] + ReadFailedReports(ds[1..])
  }

  /** The state after the characteristic reads a drain tries: the tried
      entries leave the queue, one answer each is used, each is read, and
      each refused one is reported. */
  function CharacteristicsTried(st: State): State
  {
    var q := st.characteristicQueue;
    var k := Tried(|q|, st.accepts);
    st.(characteristicQueue := q[k..],
        accepts := Drop(st.accepts, k),
        requests := st.requests + CharacteristicReads(q[..k]),
        notices := st.notices + NoReadReports(q[..Refused(|q|, st.accepts)]))
  }

  /** The closed form of `readNextCharacteristic` followed through its
      refusals: only when no read is accepted (or the queue is empty) are the
      values read so far reported and the work ended. */
  function CharacteristicsDrained(st: State): State
  {
    var tried := CharacteristicsTried(st);
    if SomeAccepted(|st.characteristicQueue|, st.accepts) then tried
    else Notify(tried, [CharacteristicsRead(st.loadedCharacteristics), WorkEnded])
  }

  /** The state `readNextCharacteristic` recurses on after a refused read. */
  function AfterRefusedRead(st: State): State
    requires st.characteristicQueue != []
  {
    var c := st.characteristicQueue[0];
    Notify(Asked(st.(characteristicQueue := st.characteristicQueue[1..]), ReadCharacteristic(c)),
           [Error(BluetoothService.NoPropertyRead, UuidText(c.characteristic.uuid))])
  }

  lemma {:induction false} CharacteristicsDrainedStep(st: State)
    requires st.characteristicQueue != [] && !Answer(st.accepts, 0)
    ensures CharacteristicsDrained(st) == CharacteristicsDrained(AfterRefusedRead(st))
  {
    var q := st.characteristicQueue;
    var a := st.accepts;
    var st1 := AfterRefusedRead(st);
    var t, t1 := CharacteristicsTried(st), CharacteristicsTried(st1);
    assert t1.characteristicQueue == t.characteristicQueue && t1.accepts == t.accepts by {
      TriedSlices(q, a);
    }
    assert t1.requests == t.requests by {
      CharacteristicReadsAfterRefusal(st.requests, q, a);
    }
    assert t1.notices == t.notices by {
      NoReadReportsAfterRefusal(st.notices, q, a);
    }
    assert t1 == t;
    TriedStep(|q|, a);
  }

  /** The queue and the answers left after a refused first read. */
  lemma {:induction false} TriedSlices<T>(q: seq<T>, a: seq<bool>)
    requires q != [] && !Answer(a, 0)
    ensures var k1 := Tried(|q| - 1, Drop(a, 1));
      q[1..][k1..] == q[Tried(|q|, a)..] && Drop(Drop(a, 1), k1) == Drop(a, Tried(|q|, a))
  {
    TriedStep(|q|, a);
    var k1 := Tried(|q| - 1, Drop(a, 1));
    SliceOfSlice(q, k1);
    DropOfDrop(a, k1);
  }

  lemma {:induction false} CharacteristicReadsAfterRefusal(requests: seq<Request>, q: seq<CharacteristicRef>, a: seq<bool>)
    requires q != [] && !Answer(a, 0)
    ensures requests + [ReadCharacteristic(q[0])] + CharacteristicReads(q[1..][..Tried(|q| - 1, Drop(a, 1))])
      == requests + CharacteristicReads(q[..Tried(|q|, a)])
  {
    TriedStep(|q|, a);
    var k1 := Tried(|q| - 1, Drop(a, 1));
    CharacteristicReadsStep(q, k1);
    Assoc(requests, [ReadCharacteristic(q[0])], CharacteristicReads(q[1..][..k1]));
  }

  lemma {:induction false} NoReadReportsAfterRefusal(notices: seq<Notice>, q: seq<CharacteristicRef>, a: seq<bool>)
    requires q != [] && !Answer(a, 0)
    ensures notices + [Error(BluetoothService.NoPropertyRead, UuidText(q[0].characteristic.uuid))]
        + NoReadReports(q[1..][..Refused(|q| - 1, Drop(a, 1))])
      == notices + NoReadReports(q[..Refused(|q|, a)])
  {
    TriedStep(|q|, a);
    var r1 := Refused(|q| - 1, Drop(a, 1));
    NoReadReportsStep(q, r1);
    Assoc(notices, [Error(BluetoothService.NoPropertyRead, UuidText(q[0].characteristic.uuid))], NoReadReports(q[1..][..r1]));
  }

  lemma {:induction false} CharacteristicsDrainedStop(st: State)
    requires st.characteristicQueue == [] || Answer(st.accepts, 0)
    ensures CharacteristicDrain(st) == CharacteristicsDrained(st)
  {
    var q := st.characteristicQueue;
    if q == [] {
      assert q[0..] == q && q[..0] == [];
    } else {
      assert q[..1] == [q[0]] && q[..0] == [] && [q[0]][1..] == [];
      assert SomeAccepted(|q|, st.accepts);
      assert CharacteristicReads(q[..1]) == [ReadCharacteristic(q[0])];
      assert st.notices + NoReadReports(q[..0]) == st.notices;
    }
  }

  /** `readNextCharacteristic` equals its closed form. */
  lemma {:induction false} CharacteristicDrainClosedForm(st: State)
    ensures CharacteristicDrain(st) == CharacteristicsDrained(st)
    decreases |st.characteristicQueue|
  {
    if st.characteristicQueue == [] || Answer(st.accepts, 0) {
      CharacteristicsDrainedStop(st);
    } else {
      var st1 := AfterRefusedRead(st);
      calc {
        CharacteristicDrain(st);
        CharacteristicDrain(st1);
        { CharacteristicDrainClosedForm(st1); }
        CharacteristicsDrained(st1);
        { CharacteristicsDrainedStep(st); }
        CharacteristicsDrained(st);
      }
    }
  }

  /** The state after the descriptor reads a drain tries. */
  function DescriptorsTried(st: State): State
  {
    var q := st.descriptorQueue;
    var k := Tried(|q|, st.accepts);
    st.(descriptorQueue := q[k..],
        accepts := Drop(st.accepts, k),
        requests := st.requests + DescriptorReads(q[..k]),
        notices := st.notices + ReadFailedReports(q[..Refused(|q|, st.accepts)]))
  }

  /** The closed form of `readNextDescriptor` followed through its refusals:
      when no read is accepted (or the queue is empty) the descriptors read
      are reported and notifications are enabled next. */
  function DescriptorsDrained(st: State): State
  {
    var tried := DescriptorsTried(st);
    if SomeAccepted(|st.descriptorQueue|, st.accepts) then tried
    else NotifyDrain(Notify(tried, [DescriptorsRead(st.loadedDescriptors)]))
  }

  /** The state `readNextDescriptor` recurses on after a refused read. */
  function AfterRefusedDescriptorRead(st: State): State
    requires st.descriptorQueue != []
  {
    var d := st.descriptorQueue[0];
    Notify(Asked(st.(descriptorQueue := st.descriptorQueue[1..]), ReadDescriptor(d)),
           [Error(BluetoothService.DescriptorReadFailed, UuidText(d.characteristic.uuid))])
  }

  lemma {:induction false} DescriptorsDrainedStep(st: State)
    requires st.descriptorQueue != [] && !Answer(st.accepts, 0)
    ensures DescriptorsDrained(st) == DescriptorsDrained(AfterRefusedDescriptorRead(st))
  {
    var q := st.descriptorQueue;
    var a := st.accepts;
    var st1 := AfterRefusedDescriptorRead(st);
    var t, t1 := DescriptorsTried(st), DescriptorsTried(st1);
    assert t1.descriptorQueue == t.descriptorQueue && t1.accepts == t.accepts by {
      TriedSlices(q, a);
    }
    assert t1.requests == t.requests by {
      DescriptorReadsAfterRefusal(st.requests, q, a);
    }
    assert t1.notices == t.notices by {
      ReadFailedReportsAfterRefusal(st.notices, q, a);
    }
    assert t1 == t;
    TriedStep(|q|, a);
  }

  lemma {:induction false} DescriptorReadsAfterRefusal(requests: seq<Request>, q: seq<DescriptorRef>, a: seq<bool>)
    requires q != [] && !Answer(a, 0)
    ensures requests + [ReadDescriptor(q[0])] + DescriptorReads(q[1..][..Tried(|q| - 1, Drop(a, 1))])
      == requests + DescriptorReads(q[..Tried(|q|, a)])
  {
    TriedStep(|q|, a);
    var k1 := Tried(|q| - 1, Drop(a, 1));
    DescriptorReadsStep(q, k1);
    Assoc(requests, [ReadDescriptor(q[0])], DescriptorReads(q[1..][..k1]));
  }

  lemma {:induction false} ReadFailedReportsAfterRefusal(notices: seq<Notice>, q: seq<DescriptorRef>, a: seq<bool>)
    requires q != [] && !Answer(a, 0)
    ensures notices + [Error(BluetoothService.DescriptorReadFailed, UuidText(q[0].characteristic.uuid))]
        + ReadFailedReports(q[1..][..Refused(|q| - 1, Drop(a, 1))])
      == notices + ReadFailedReports(q[..Refused(|q|, a)])
  {
    TriedStep(|q|, a);
    var r1 := Refused(|q| - 1, Drop(a, 1));
    ReadFailedReportsStep(q, r1);
    Assoc(notices, [Error(BluetoothService.DescriptorReadFailed, UuidText(q[0].characteristic.uuid))], ReadFailedReports(q[1..][..r1]));
  }

  lemma {:induction false} DescriptorsDrainedStop(st: State)
    requires st.descriptorQueue == [] || Answer(st.accepts, 0)
    ensures DescriptorDrain(st) == DescriptorsDrained(st)
  {
    var q := st.descriptorQueue;
    if q == [] {
      assert q[0..] == q && q[..0] == [];
      assert Drop(st.accepts, 0) == st.accepts;
      assert DescriptorsTried(st) == st;
    } else {
      assert q[..1] == [q[0]] && q[..0] == [] && [q[0]][1..] == [];
      assert SomeAccepted(|q|, st.accepts);
      assert DescriptorReads(q[..1]) == [ReadDescriptor(q[0])];
      assert st.notices + ReadFailedReports(q[..0]) == st.notices;
    }
  }

  /** `readNextDescriptor` equals its closed form. */
  lemma {:induction false} DescriptorDrainClosedForm(st: State)
    ensures DescriptorDrain(st) == DescriptorsDrained(st)
    decreases |st.descriptorQueue|
  {
    if st.descriptorQueue == [] || Answer(st.accepts, 0) {
      DescriptorsDrainedStop(st);
    } else {
      var st1 := AfterRefusedDescriptorRead(st);
      calc {
        DescriptorDrain(st);
        DescriptorDrain(st1);
        { DescriptorDrainClosedForm(st1); }
        DescriptorsDrained(st1);
        { DescriptorsDrainedStep(st); }
        DescriptorsDrained(st);
      }
    }
  }

  lemma {:induction false} CharacteristicReadsStep(q: seq<CharacteristicRef>, k: nat)
    requires k < |q|
    ensures CharacteristicReads(q[..k + 1]) == [ReadCharacteristic(q[0])] + CharacteristicReads(q[1..][..k])
  {
    assert q[..k + 1][0] == q[0] && q[..k + 1][1..] == q[1..][..k];
  }

  lemma {:induction false} NoReadReportsStep(q: seq<CharacteristicRef>, k: nat)
    requires k < |q|
    ensures NoReadReports(q[..k + 1])
      == [Error(BluetoothService.NoPropertyRead, UuidText(q[0].characteristic.uuid))] + NoReadReports(q[1..][..k])
  {
    assert q[..k + 1][0] == q[0] && q[..k + 1][1..] == q[1..][..k];
  }

  lemma {:induction false} DescriptorReadsStep(q: seq<DescriptorRef>, k: nat)
    requires k < |q|
    ensures DescriptorReads(q[..k + 1]) == [ReadDescriptor(q[0])] + DescriptorReads(q[1..][..k])
  {
    assert q[..k + 1][0] == q[0] && q[..k + 1][1..] == q[1..][..k];
  }

  lemma {:induction false} ReadFailedReportsStep(q: seq<DescriptorRef>, k: nat)
    requires k < |q|
    ensures ReadFailedReports(q[..k + 1])
      == [Error(BluetoothService.DescriptorReadFailed, UuidText(q[0].characteristic.uuid))] + ReadFailedReports(q[1..][..k])
  {
    assert q[..k + 1][0] == q[0] && q[..k + 1][1..] == q[1..][..k];
  }

  /** The position of the first characteristic that gets a CCCD write, or
      the length when none does. */
  function FirstEnabled(q: seq<CharacteristicRef>): (k: nat)
    ensures k <= |q|
    ensures k < |q| ==> PlanFor(q[k].characteristic).Enable?
    ensures forall j :: 0 <= j < k ==> !PlanFor(q[j].characteristic).Enable?
  {
    if q == [] then 0
    else if PlanFor(q[0].characteristic).Enable? then 0
    else 1 + FirstEnabled(q[1..])
  }

  /** The reports for characteristics that can notify but have no CCCD. */
  function No2902Reports(cs: seq<CharacteristicRef>): seq<Notice>
  {
    if cs == [] then [] else No2902Report(cs[0]) + No2902Reports(cs[1..])
  }

  /** The state once the characteristics without a CCCD write are passed
      over: they leave the queue, together with the one that gets the write,
      and those without a CCCD are reported. */
  function NotificationsSkipped(st: State): State
  {
    var q := st.notifyQueue;
    var k := FirstEnabled(q);
    st.(notifyQueue := if k < |q| then q[k + 1..] else [],
        notices := st.notices + No2902Reports(q[..k]))
  }

  /** The closed form of `enableNextNotifications`: the first characteristic
      that gets a CCCD write is subscribed and written; when there is none,
      the value reads start. */
  function NotificationsDrained(st: State): State
  {
    var q := st.notifyQueue;
    var k := FirstEnabled(q);
    var skipped := NotificationsSkipped(st);
    if k < |q| then EnableNotifications(skipped, q[k]) else ReadAllCharacteristics(skipped)
  }

  /** The state `enableNextNotifications` polls on after passing over a
      characteristic without a CCCD write. */
  function AfterNotEnabled(st: State): State
    requires st.notifyQueue != []
  {
    EnableNotifications(st.(notifyQueue := st.notifyQueue[1..]), st.notifyQueue[0])
  }

  lemma {:induction false} No2902ReportsStep(notices: seq<Notice>, q: seq<CharacteristicRef>, k: nat)
    requires k < |q|
    ensures notices + No2902Report(q[0]) + No2902Reports(q[1..][..k]) == notices + No2902Reports(q[..k + 1])
  {
    assert q[..k + 1][0] == q[0] && q[..k + 1][1..] == q[1..][..k];
    Assoc(notices, No2902Report(q[0]), No2902Reports(q[1..][..k]));
  }

  /** The report `enableNotifications` makes for one characteristic. */
  function No2902Report(c: CharacteristicRef): seq<Notice>
  {
    if PlanFor(c.characteristic).No2902? then [Error(BluetoothService.No2902Descriptor, UuidText(c.characteristic.uuid))] else []
  }

  lemma {:induction false} AfterNotEnabledIs(st: State)
    requires st.notifyQueue != [] && !PlanFor(st.notifyQueue[0].characteristic).Enable?
    ensures AfterNotEnabled(st) == st.(notifyQueue := st.notifyQueue[1..], notices := st.notices + No2902Report(st.notifyQueue[0]))
  {
  }

  lemma {:induction false} NotificationsSkippedStep(st: State)
    requires st.notifyQueue != [] && !PlanFor(st.notifyQueue[0].characteristic).Enable?
    ensures FirstEnabled(st.notifyQueue) == FirstEnabled(st.notifyQueue[1..]) + 1
    ensures NotificationsSkipped(AfterNotEnabled(st)) == NotificationsSkipped(st)
  {
    var q := st.notifyQueue;
    var st1 := AfterNotEnabled(st);
    var k1 := FirstEnabled(q[1..]);
    assert st1 == st.(notifyQueue := q[1..], notices := st.notices + No2902Report(q[0])) by {
      AfterNotEnabledIs(st);
    }
    var t, t1 := NotificationsSkipped(st), NotificationsSkipped(st1);
    assert t1.notifyQueue == t.notifyQueue by {
      if k1 < |q| - 1 {
        SliceOfSlice(q, k1 + 1);
      }
    }
    assert t1.notices == t.notices by {
      No2902ReportsStep(st.notices, q, k1);
    }
  }

  lemma {:induction false} NotificationsDrainedStep(st: State)
    requires st.notifyQueue != [] && !PlanFor(st.notifyQueue[0].characteristic).Enable?
    ensures NotificationsDrained(st) == NotificationsDrained(AfterNotEnabled(st))
  {
    var q := st.notifyQueue;
    var st1 := AfterNotEnabled(st);
    var k1 := FirstEnabled(q[1..]);
    assert FirstEnabled(q) == k1 + 1 && NotificationsSkipped(st1) == NotificationsSkipped(st) && st1.notifyQueue == q[1..] by {
      NotificationsSkippedStep(st);
      AfterNotEnabledIs(st);
    }
    if k1 < |q| - 1 {
      assert q[1..][k1] == q[k1 + 1];
    }
  }

  lemma {:induction false} NotificationsDrainedStop(st: State)
    requires st.notifyQueue == [] || PlanFor(st.notifyQueue[0].characteristic).Enable?
    ensures NotifyDrain(st) == NotificationsDrained(st)
  {
    var q := st.notifyQueue;
    assert q[..0] == [];
    assert NotificationsSkipped(st) == if q == [] then st else st.(notifyQueue := q[1..]);
  }

  /** `enableNextNotifications` equals its closed form. */
  lemma {:induction false} NotifyDrainClosedForm(st: State)
    ensures NotifyDrain(st) == NotificationsDrained(st)
    decreases |st.notifyQueue|
  {
    if st.notifyQueue == [] || PlanFor(st.notifyQueue[0].characteristic).Enable? {
      NotificationsDrainedStop(st);
    } else {
      var st1 := AfterNotEnabled(st);
      calc {
        NotifyDrain(st);
        NotifyDrain(st1);
        { NotifyDrainClosedForm(st1); }
        NotificationsDrained(st1);
        { NotificationsDrainedStep(st); }
        NotificationsDrained(st);
      }
    }
  }

  // ---- Queue building -----------------------------------------------------

  /** The entry `createLoadQueues` makes for a characteristic: its first
      descriptor whose UUID matches the mask. */
  ghost predicate IsEntry(service: Uuid, c: GattCharacteristic, mask: Option<string>, e: DescriptorRef)
  {
    var k := FirstMatch(c.descriptors, mask);
    k < |c.descriptors| && e == DescriptorRef(service, c, c.descriptors[k])
  }

  lemma {:induction false} EntryOfMembers(service: Uuid, c: GattCharacteristic, mask: Option<string>, e: DescriptorRef)
    ensures |EntryOf(service, c, mask)| <= 1
    ensures e in EntryOf(service, c, mask) <==> IsEntry(service, c, mask, e)
  {
  }

  /** One service's entries are exactly its characteristics' entries, at
      most one per characteristic. */
  lemma {:induction false} CharacteristicEntriesMembers(service: Uuid, cs: seq<GattCharacteristic>, mask: Option<string>, e: DescriptorRef)
    ensures |CharacteristicEntries(service, cs, mask)| <= |cs|
    ensures e in CharacteristicEntries(service, cs, mask) <==> exists j :: 0 <= j < |cs| && IsEntry(service, cs[j], mask, e)
  {
    CharacteristicEntriesLength(service, cs, mask);
    if e in CharacteristicEntries(service, cs, mask) {
      var j := CharacteristicEntrySource(service, cs, mask, e);
    }
    if exists j :: 0 <= j < |cs| && IsEntry(service, cs[j], mask, e) {
      var j :| 0 <= j < |cs| && IsEntry(service, cs[j], mask, e);
      CharacteristicEntryPresent(service, cs, mask, e, j);
    }
  }

  lemma {:induction false} CharacteristicEntriesLength(service: Uuid, cs: seq<GattCharacteristic>, mask: Option<string>)
    ensures |CharacteristicEntries(service, cs, mask)| <= |cs|
    decreases |cs|
  {
    if cs != [] {
      CharacteristicEntriesLength(service, cs[..|cs| - 1], mask);
    }
  }

  /** Every queued entry comes from one of the characteristics. */
  lemma {:induction false} CharacteristicEntrySource(service: Uuid, cs: seq<GattCharacteristic>, mask: Option<string>, e: DescriptorRef)
    returns (j: nat)
    requires e in CharacteristicEntries(service, cs, mask)
    ensures j < |cs| && IsEntry(service, cs[j], mask, e)
    decreases |cs|
  {
    var init := cs[..|cs| - 1];
    if e in CharacteristicEntries(service, init, mask) {
      j := CharacteristicEntrySource(service, init, mask, e);
      assert cs[j] == init[j];
    } else {
      j := |cs| - 1;
    }
  }

  /** Every characteristic's entry is queued. */
  lemma {:induction false} CharacteristicEntryPresent(service: Uuid, cs: seq<GattCharacteristic>, mask: Option<string>, e: DescriptorRef, j: nat)
    requires j < |cs| && IsEntry(service, cs[j], mask, e)
    ensures e in CharacteristicEntries(service, cs, mask)
    decreases |cs|
  {
    var init := cs[..|cs| - 1];
    if j < |init| {
      assert init[j] == cs[j];
      CharacteristicEntryPresent(service, init, mask, e, j);
    }
  }

  /** The descriptor queue receives, for every characteristic of every
      service, its first descriptor matching the mask, and nothing else. */
  lemma {:induction false} LoadEntriesMembers(services: seq<GattService>, mask: Option<string>, e: DescriptorRef)
    ensures e in LoadEntries(services, mask) <==>
      exists i, j :: 0 <= i < |services| && 0 <= j < |services[i].characteristics|
        && IsEntry(services[i].uuid, services[i].characteristics[j], mask, e)
    decreases |services|
  {
    if services != [] {
      var init := services[..|services| - 1];
      var last := services[|services| - 1];
      LoadEntriesMembers(init, mask, e);
      CharacteristicEntriesMembers(last.uuid, last.characteristics, mask, e);
      if exists i, j :: 0 <= i < |services| && 0 <= j < |services[i].characteristics|
          && IsEntry(services[i].uuid, services[i].characteristics[j], mask, e) {
        var i, j :| 0 <= i < |services| && 0 <= j < |services[i].characteristics|
          && IsEntry(services[i].uuid, services[i].characteristics[j], mask, e);
        if i < |services| - 1 {
          assert init[i] == services[i];
        }
      }
      if exists i, j :: 0 <= i < |init| && 0 <= j < |init[i].characteristics|
          && IsEntry(init[i].uuid, init[i].characteristics[j], mask, e) {
        var i, j :| 0 <= i < |init| && 0 <= j < |init[i].characteristics|
          && IsEntry(init[i].uuid, init[i].characteristics[j], mask, e);
        assert services[i] == init[i];
      }
    }
  }

  /** A characteristic asked for by the owner, as a service resolves it. */
  ghost predicate Resolves(s: GattService, item: ServiceCharacteristic, r: CharacteristicRef)
  {
    item.service == s.uuid && r.service == s.uuid
    && FindCharacteristic(s, item.characteristic) == Some(r.characteristic)
  }

  lemma {:induction false} ServiceMatchesMembers(s: GattService, items: seq<ServiceCharacteristic>, r: CharacteristicRef)
    ensures r in ServiceMatches(s, items) <==> exists j :: 0 <= j < |items| && Resolves(s, items[j], r)
    decreases |items|
  {
    if items != [] {
      var init := items[..|items| - 1];
      ServiceMatchesMembers(s, init, r);
      if exists j :: 0 <= j < |items| && Resolves(s, items[j], r) {
        var j :| 0 <= j < |items| && Resolves(s, items[j], r);
        if j < |items| - 1 {
          assert init[j] == items[j];
        }
      }
      if exists j :: 0 <= j < |init| && Resolves(s, init[j], r) {
        var j :| 0 <= j < |init| && Resolves(s, init[j], r);
        assert items[j] == init[j];
      }
    }
  }

  /** `getMatchingCharacteristics` yields exactly the characteristics that
      an asked-for (service, characteristic) pair resolves to. */
  lemma {:induction false} MatchingMembers(services: seq<GattService>, items: seq<ServiceCharacteristic>, r: CharacteristicRef)
    ensures r in Matching(services, items) <==>
      exists i, j :: 0 <= i < |services| && 0 <= j < |items| && Resolves(services[i], items[j], r)
    decreases |services|
  {
    if services != [] {
      var init := services[..|services| - 1];
      var last := services[|services| - 1];
      MatchingMembers(init, items, r);
      ServiceMatchesMembers(last, items, r);
      if exists i, j :: 0 <= i < |services| && 0 <= j < |items| && Resolves(services[i], items[j], r) {
        var i, j :| 0 <= i < |services| && 0 <= j < |items| && Resolves(services[i], items[j], r);
        if i < |services| - 1 {
          assert init[i] == services[i];
        }
      }
      if exists i, j :: 0 <= i < |init| && 0 <= j < |items| && Resolves(init[i], items[j], r) {
        var i, j :| 0 <= i < |init| && 0 <= j < |items| && Resolves(init[i], items[j], r);
        assert services[i] == init[i];
      }
    }
  }

  // ---- Writes ---------------------------------------------------------------

  /** A write type exists exactly for the characteristics the device model
      shows as writable. */
  lemma {:induction false} WriteTypeIffWritable(c: GattCharacteristic)
    ensures WriteTypeFor(c.properties).Some? <==> ServiceModel.IsWritable(c, false)
    ensures WriteTypeFor(c.properties).Some? <==> c.properties & 0x4C != 0
  {
    ServiceModel.WritableMask(c, false);
  }

  /** `writeToToCharacteristic` accepts a request exactly when the connection
      has the service and a writable characteristic and the client reports
      success; an accepted write sends the data once and starts work, and
      nothing but the write answers and the two logs ever changes. */
  lemma {:induction false} WriteToAccepts(st: State, r: CM.WriteRequest)
    ensures var out := WriteTo(st, r);
      var s := FindService(st.services, r.serviceUuid);
      var c := if s.Some? then FindCharacteristic(s.value, r.characteristicUuid) else None;
      (out.accepted <==>
        st.activeConnection && c.Some? && ServiceModel.IsWritable(c.value, false)
        && NextWrite(st.writeAnswers) == Status(StatusSuccess))
      && (out.accepted ==>
        out.state.requests == st.requests + [WriteCharacteristic(CharacteristicRef(s.value.uuid, c.value), r.data, WriteTypeFor(c.value.properties).value)]
        && out.state.notices == st.notices + [WorkStarted])
      && out.state == st.(writeAnswers := out.state.writeAnswers, requests := out.state.requests, notices := out.state.notices)
  {
    var s := FindService(st.services, r.serviceUuid);
    if s.Some? {
      var c := FindCharacteristic(s.value, r.characteristicUuid);
      if c.Some? {
        WriteTypeIffWritable(c.value);
      }
    }
  }

  /** A write the GATT client refuses, by a failure status or by throwing
      `IllegalArgumentException`, is sent once, not accepted, and reported
      as a fatal WRITE_ERROR whose text is the status or the exception's
      message. */
  lemma {:induction false} WriteToFailureIsFatal(st: State, r: CM.WriteRequest)
    requires st.activeConnection
    requires NextWrite(st.writeAnswers) != Status(StatusSuccess)
    ensures var out := WriteTo(st, r);
      var s := FindService(st.services, r.serviceUuid);
      var c := if s.Some? then FindCharacteristic(s.value, r.characteristicUuid) else None;
      !out.accepted
      && (c.Some? && ServiceModel.IsWritable(c.value, false) ==>
        out.state.requests == st.requests + [WriteCharacteristic(CharacteristicRef(s.value.uuid, c.value), r.data, WriteTypeFor(c.value.properties).value)]
        && out.state.notices == st.notices + [WorkEnded, Error(BluetoothService.WriteError,
             match NextWrite(st.writeAnswers)
             case Status(code) => Plain(BluetoothService.IntToString(code))
             case Rejected(message) => Plain(message))])
  {
    var s := FindService(st.services, r.serviceUuid);
    if s.Some? {
      var c := FindCharacteristic(s.value, r.characteristicUuid);
      if c.Some? {
        WriteTypeIffWritable(c.value);
      }
    }
  }

  /** `refreshServices` on a ready connection with a mask rediscovers: the
      stack's cache is dropped and work starts, and once the posted delay has elapsed work starts again and
      one service discovery is asked for; an accepted discovery reports
      nothing else. */
  lemma {:induction false} RefreshRediscovers(st: State)
    requires st.activeConnection && st.isReady && st.mask.Some?
    ensures var st1 := Refresh(st, None);
      var st2 := RefreshDelayElapsed(st1);
      st1.pendingRediscoveries == st.pendingRediscoveries + 1
      && st1.requests == st.requests + [RefreshCache] && st1.notices == st.notices + [WorkStarted]
      && st2.pendingRediscoveries == st.pendingRediscoveries
      && st2.requests == st.requests + [RefreshCache, DiscoverServices]
      && st2.notices == st.notices + [WorkStarted, WorkStarted]
           + (if Answer(st.accepts, 0) then []
              else [WorkEnded, Error(BluetoothService.UnknownError, StringResource("unable_to_discover_services"))])
  {
  }

  /** A refresh that throws is a fatal UNKNOWN_ERROR carrying the message and
      posts no rediscovery; without a ready connection the refresh fails with
      NOT_CONNECTED whatever `refresh()` would have done. */
  lemma {:induction false} RefreshFailures(st: State, failure: Option<string>)
    ensures st.activeConnection && st.isReady && failure.Some? ==>
      Refresh(st, failure) == Fatal(st, BluetoothService.UnknownError, Plain(failure.value))
    ensures !(st.activeConnection && st.isReady) ==>
      Refresh(st, failure) == Fatal(st, BluetoothService.NotConnected, Plain("Device not connected"))
    ensures Refresh(st, failure).pendingRediscoveries == st.pendingRediscoveries + (if st.activeConnection && st.isReady && failure.None? then 1 else 0)
  {
  }

  /** The delayed block reads the connection when it runs: once the
      connection is gone it asks nothing of the stack. */
  lemma {:induction false} RediscoveryNeedsConnection(st: State)
    requires !st.activeConnection
    ensures RefreshDelayElapsed(st).requests == st.requests
    ensures st.pendingRediscoveries > 0 ==> RefreshDelayElapsed(st).notices[|st.notices|] == WorkStarted
  {
  }

  // ---- Across calls -----------------------------------------------------

  /** Only one connection at a time: once connecting has started, a second
      `connectGatt` changes nothing. */
  lemma {:induction false} ConnectOnce(st: State, requestMtu: bool, requestMtu2: bool, adapterEnabled2: bool)
    requires !st.activeConnection
    ensures var st1 := Connect(st, requestMtu, true);
      st1.activeConnection && st1.services == [] && st1.requestMtu == requestMtu
      && st1.requests == st.requests + [ConnectGatt] && st1.notices == st.notices + [WorkStarted]
      && Connect(st1, requestMtu2, adapterEnabled2) == st1
  {
  }

  /** Disconnecting with an immediate close leaves no connection and no
      readiness, and doing it again changes nothing. */
  lemma {:induction false} DisconnectCloses(st: State)
    ensures var st1 := DisconnectActive(st, true);
      !st1.activeConnection
      && (st.activeConnection ==> !st1.isReady && st1.requests == st.requests + [Disconnect, Close])
      && DisconnectActive(st1, true) == st1
      && DisconnectActive(st1, false) == st1
  {
  }

  /** Setting the same mask twice is the same as setting it once. */
  lemma {:induction false} SetMaskIdempotent(st: State, mask: string)
    ensures SetMask(SetMask(st, mask), mask) == SetMask(st, mask)
    ensures SetMask(st, mask).mask == Some(mask)
  {
  }

  /** With an MTU request accepted, service discovery waits: connecting
      asks only for the MTU, and only its successful change makes the
      connection ready and, with a mask set, asks for the services. */
  lemma {:induction false} DiscoveryWaitsForMtu(st: State)
    requires st.requestMtu && Answer(st.accepts, 0)
    ensures var st1 := ConnectionStateChanged(st, BluetoothService.GattSuccess, StateConnected);
      st1.mtuRequested && st1.isReady == st.isReady
      && st1.requests == st.requests + [RequestMtu(RequestedMtu)]
      && st1.notices == st.notices + [Connected]
      && var st2 := MtuChanged(st1, BluetoothService.GattSuccess);
      st2.isReady && !st2.mtuRequested
      && (st.mask.Some? ==> st2.requests == st1.requests + [DiscoverServices])
      && (st.mask.None? ==> st2.requests == st1.requests && st2.notices == st1.notices + [WorkEnded])
      && MtuChanged(st2, BluetoothService.GattSuccess) == st2
  {
  }

  /** Without an MTU request (or with it refused) connecting makes the
      connection ready at once and asks for the services when a mask is set. */
  lemma {:induction false} DiscoveryWithoutMtu(st: State)
    requires !st.requestMtu || !Answer(st.accepts, 0)
    ensures var st1 := ConnectionStateChanged(st, BluetoothService.GattSuccess, StateConnected);
      st1.isReady && st1.mtuRequested == st.mtuRequested
      && (st.mask.Some? ==>
            st1.requests == st.requests + (if st.requestMtu then [RequestMtu(RequestedMtu)] else []) + [DiscoverServices])
  {
  }

  /** `r` was reached from `st` by appending requests only. */
  predicate Extends(st: State, r: State)
  {
    |r.requests| >= |st.requests| && r.requests[..|st.requests|] == st.requests
  }

  lemma {:induction false} ExtendsTransitive(a: State, b: State, c: State)
    requires Extends(a, b) && Extends(b, c)
    ensures Extends(a, c)
    ensures forall i :: 0 <= i < |a.requests| ==> c.requests[i] == a.requests[i]
  {
    assert forall i :: 0 <= i < |a.requests| ==> c.requests[i] == b.requests[i] == a.requests[i];
  }

  /** Requests are only ever appended: the characteristic drain keeps the
      requests made before it. */
  lemma {:induction false} CharacteristicDrainExtends(st: State)
    ensures Extends(st, CharacteristicDrain(st))
    decreases |st.characteristicQueue|
  {
    var q := st.characteristicQueue;
    if q != [] && !Answer(st.accepts, 0) {
      var st1 := AfterRefusedRead(st);
      CharacteristicDrainExtends(st1);
      ExtendsTransitive(st, st1, CharacteristicDrain(st1));
    }
  }

  lemma {:induction false} NotifyDrainExtends(st: State)
    ensures Extends(st, NotifyDrain(st))
    decreases |st.notifyQueue|
  {
    var q := st.notifyQueue;
    if q == [] {
      CharacteristicDrainExtends(st.(loadedCharacteristics := []));
    } else if !PlanFor(q[0].characteristic).Enable? {
      var st1 := AfterNotEnabled(st);
      AfterNotEnabledIs(st);
      NotifyDrainExtends(st1);
      ExtendsTransitive(st, st1, NotifyDrain(st1));
    }
  }

  lemma {:induction false} DescriptorDrainExtends(st: State)
    ensures Extends(st, DescriptorDrain(st))
    decreases |st.descriptorQueue|
  {
    var q := st.descriptorQueue;
    if q == [] {
      NotifyDrainExtends(Notify(st, [DescriptorsRead(st.loadedDescriptors)]));
    } else if !Answer(st.accepts, 0) {
      var st1 := AfterRefusedDescriptorRead(st);
      DescriptorDrainExtends(st1);
      ExtendsTransitive(st, st1, DescriptorDrain(st1));
    }
  }

  /** The first request of a drain over a non-empty descriptor queue reads
      its head. */
  lemma {:induction false} DescriptorDrainReadsHead(st: State)
    requires st.descriptorQueue != []
    ensures |DescriptorDrain(st).requests| > |st.requests|
    ensures DescriptorDrain(st).requests[|st.requests|] == ReadDescriptor(st.descriptorQueue[0])
  {
    var q := st.descriptorQueue;
    if !Answer(st.accepts, 0) {
      var st1 := AfterRefusedDescriptorRead(st);
      assert st1.requests[|st.requests|] == ReadDescriptor(q[0]);
      DescriptorDrainExtends(st1);
      assert DescriptorDrain(st1).requests[..|st1.requests|][|st.requests|] == ReadDescriptor(q[0]);
    }
  }

  /** The load queues are never cleared: entries left over from an earlier
      discovery (after a failed or interrupted load) are read before the
      entries of the new discovery. */
  lemma {:induction false} StaleDescriptorReadFirst(st: State, services: seq<GattService>)
    requires st.descriptorQueue != []
    ensures var r := ServicesDiscoveredFrom(st, services, BluetoothService.GattSuccess);
      |r.requests| > |st.requests| && r.requests[|st.requests|] == ReadDescriptor(st.descriptorQueue[0])
  {
    var st0 := Connection.CreateLoadQueues(st.(services := services).(loadedDescriptors := []));
    assert st0.descriptorQueue[0] == st.descriptorQueue[0];
    DescriptorDrainReadsHead(st0);
  }

  /** `readCharacteristics` does not wait for a load in progress: it clears
      the values read so far, and its first read is of whatever is at the
      head of the queue, which may be an entry of the earlier load. */
  lemma {:induction false} ReadCharacteristicsRestarts(st: State, items: seq<ServiceCharacteristic>)
    requires st.isReady && st.activeConnection && Matching(st.services, items) != []
    ensures var q := st.characteristicQueue + Matching(st.services, items);
      var r := ReadCharacteristics(st, items);
      r == CharacteristicsDrained(Notify(st.(characteristicQueue := q, loadedCharacteristics := []), [WorkStarted]))
      && r.loadedCharacteristics == []
      && |r.requests| > |st.requests| && r.requests[|st.requests|] == ReadCharacteristic(q[0])
  {
    var q := st.characteristicQueue + Matching(st.services, items);
    var st1 := Notify(st.(characteristicQueue := q, loadedCharacteristics := []), [WorkStarted]);
    CharacteristicDrainClosedForm(st1);
    TriedStopsAtFirstAcceptance(|q|, st1.accepts);
    var k := Tried(|q|, st1.accepts);
    assert q[..k][0] == q[0];
    assert CharacteristicReads(q[..k])[0] == ReadCharacteristic(q[0]);
  }
}
