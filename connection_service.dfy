// `BluetoothDeviceConnectionService`, in place: the fields the service
// updates, one method per GATT callback and per public call, and the
// private steps they share. Each method is proved to perform the matching
// transition of the `Connection` state machine.
module ConnectionService {
  import opened Bytes
  import opened Outcomes
  import opened Uuids
  import opened Gatt
  import Comparers
  import BluetoothService
  import CM = CharacteristicModel
  import DM = DeviceModel
  import WQ = WriteQueue
  import opened Connection

  /** The Android GATT client (`BluetoothGatt` and the device's
      `connectGatt`). Its answers are an oracle: `accepts` for the requests
      that report acceptance, `writeAnswers` for characteristic writes. */
  class GattClient {
    var accepts: seq<bool>
    var writeAnswers: seq<WriteAnswer>
    var requests: seq<Request>

    constructor (accepts: seq<bool>, writeAnswers: seq<WriteAnswer>)
      ensures this.accepts == accepts && this.writeAnswers == writeAnswers && requests == []
    {
      this.accepts := accepts;
      this.writeAnswers := writeAnswers;
      requests := [];
    }

    /** A request answered with accepted or refused. */
    method Ask(r: Request) returns (ok: bool)
      modifies this
      ensures ok == WQ.Answer(old(accepts), 0)
      ensures accepts == WQ.Drop(old(accepts), 1) && requests == old(requests) + [r]
      ensures writeAnswers == old(writeAnswers)
    {
      ok := WQ.Answer(accepts, 0);
      accepts := WQ.Drop(accepts, 1);
      requests := requests + [r];
    }

    /** A request whose result the service ignores. */
    method Tell(r: Request)
      modifies this
      ensures requests == old(requests) + [r]
      ensures accepts == old(accepts) && writeAnswers == old(writeAnswers)
    {
      requests := requests + [r];
    }

    /** `writeCharacteristic`, which answers with a status code or throws. */
    method Write(r: Request) returns (answer: WriteAnswer)
      modifies this
      ensures answer == NextWrite(old(writeAnswers))
      ensures writeAnswers == (if old(writeAnswers) == [] then [] else old(writeAnswers)[1..])
      ensures requests == old(requests) + [r] && accepts == old(accepts)
    {
      answer := NextWrite(writeAnswers);
      writeAnswers := if writeAnswers == [] then [] else writeAnswers[1..];
      requests := requests + [r];
    }
  }

  class BluetoothDeviceConnectionService {
    var descriptorUuidMask: Option<string>
    var loadDescriptorQueue: seq<DescriptorRef>
    var loadCharacteristicQueue: seq<CharacteristicRef>
    var enableNotificationsQueue: seq<CharacteristicRef>
    var loadedDescriptors: seq<DM.ServiceCharacteristicValue>
    var loadedCharacteristics: seq<DM.ServiceCharacteristicValue>
    var activeConnection: bool
    /** The services of the active connection, as its last discovery found them. */
    var services: seq<GattService>
    var requestMtu: bool
    var isReady: bool
    var mtuRequested: bool
    /** Rediscoveries posted by `refreshServices` that have not run yet. */
    var pendingRediscoveries: nat
    const gatt: GattClient
    const bleWriteQueue: WQ.BleWriteQueue
    /** The callbacks fired to the owner, in order. */
    ghost var notices: seq<Notice>

    ghost function Current(): State
      reads this, gatt
    {
      State(activeConnection, services, requestMtu, isReady, mtuRequested, descriptorUuidMask, pendingRediscoveries,
            loadDescriptorQueue, enableNotificationsQueue, loadCharacteristicQueue,
            loadedDescriptors, loadedCharacteristics,
            gatt.accepts, gatt.writeAnswers, gatt.requests, notices)
    }

    ghost predicate Valid()
      reads this, bleWriteQueue, bleWriteQueue.link
    {
      bleWriteQueue.Valid()
    }

    constructor (gatt: GattClient, link: WQ.Link)
      requires link.received == []
      ensures Valid() && this.gatt == gatt && bleWriteQueue.link == link
      ensures Current() == State(false, [], false, false, false, None, 0, [], [], [], [], [],
                                 gatt.accepts, gatt.writeAnswers, gatt.requests, [])
      ensures bleWriteQueue.queue == [] && !bleWriteQueue.isWriting
      ensures fresh(bleWriteQueue)
    {
      this.gatt := gatt;
      bleWriteQueue := new WQ.BleWriteQueue(link);
      descriptorUuidMask := None;
      loadDescriptorQueue := [];
      loadCharacteristicQueue := [];
      enableNotificationsQueue := [];
      loadedDescriptors := [];
      loadedCharacteristics := [];
      activeConnection := false;
      services := [];
      requestMtu := false;
      isReady := false;
      mtuRequested := false;
      pendingRediscoveries := 0;
      notices := [];
    }

    /** `invokeOnFatalError` */
    method InvokeOnFatalError(status: int, text: Text)
      modifies this`notices
      ensures Current() == Fatal(old(Current()), status, text)
    {
      notices := notices + [WorkEnded, Error(status, text)];
    }

    // ---- Loading pipeline ---------------------------------------------

    /** The position the descriptor loop of `createLoadQueues` breaks at. */
    method FindMatching(ds: seq<GattDescriptor>) returns (k: nat)
      ensures k == FirstMatch(ds, descriptorUuidMask)
    {
      k := 0;
      while k < |ds| && !Comparers.CompareUuidWithMask(ds[k].uuid, descriptorUuidMask)
        invariant k <= |ds|
        invariant forall j :: 0 <= j < k ==> !Matches(ds[j], descriptorUuidMask)
      {
        k := k + 1;
      }
      FirstMatchIsFirst(ds, descriptorUuidMask, k);
    }

    /** One pass of the inner loop of `createLoadQueues`: queues the
        characteristic when one of its descriptors matches the mask. */
    method QueueCharacteristic(service: Uuid, c: GattCharacteristic) returns (added: seq<DescriptorRef>)
      modifies this`loadDescriptorQueue, this`loadCharacteristicQueue, this`enableNotificationsQueue
      ensures added == EntryOf(service, c, descriptorUuidMask)
      ensures loadDescriptorQueue == old(loadDescriptorQueue) + added
      ensures loadCharacteristicQueue == old(loadCharacteristicQueue) + CharacteristicsOf(added)
      ensures enableNotificationsQueue == old(enableNotificationsQueue) + CharacteristicsOf(added)
    {
      var k := FindMatching(c.descriptors);
      if k < |c.descriptors| {
        added := [DescriptorRef(service, c, c.descriptors[k])];
        loadDescriptorQueue := loadDescriptorQueue + added;
        loadCharacteristicQueue := loadCharacteristicQueue + [CharacteristicRef(service, c)];
        enableNotificationsQueue := enableNotificationsQueue + [CharacteristicRef(service, c)];
      } else {
        added := [];
      }
    }

    /** The inner loop of `createLoadQueues`, over one service. */
    method QueueService(s: GattService)
      modifies this`loadDescriptorQueue, this`loadCharacteristicQueue, this`enableNotificationsQueue
      ensures loadDescriptorQueue == old(loadDescriptorQueue) + CharacteristicEntries(s.uuid, s.characteristics, descriptorUuidMask)
      ensures loadCharacteristicQueue == old(loadCharacteristicQueue) + CharacteristicsOf(CharacteristicEntries(s.uuid, s.characteristics, descriptorUuidMask))
      ensures enableNotificationsQueue == old(enableNotificationsQueue) + CharacteristicsOf(CharacteristicEntries(s.uuid, s.characteristics, descriptorUuidMask))
    {
      ghost var d0, c0, n0 := loadDescriptorQueue, loadCharacteristicQueue, enableNotificationsQueue;
      ghost var es: seq<DescriptorRef> := [];
      var j := 0;
      while j < |s.characteristics|
        invariant 0 <= j <= |s.characteristics|
        invariant es == CharacteristicEntries(s.uuid, s.characteristics[..j], descriptorUuidMask)
        invariant loadDescriptorQueue == d0 + es
        invariant loadCharacteristicQueue == c0 + CharacteristicsOf(es)
        invariant enableNotificationsQueue == n0 + CharacteristicsOf(es)
      {
        var added := QueueCharacteristic(s.uuid, s.characteristics[j]);
        CharacteristicEntriesSnoc(s.uuid, s.characteristics, j, descriptorUuidMask);
        CharacteristicsOfAppend(es, added);
        WQ.Assoc(d0, es, added);
        WQ.Assoc(c0, CharacteristicsOf(es), CharacteristicsOf(added));
        WQ.Assoc(n0, CharacteristicsOf(es), CharacteristicsOf(added));
        es := es + added;
        j := j + 1;
      }
      assert s.characteristics[..j] == s.characteristics;
    }

    /** `createLoadQueues` */
    method CreateLoadQueues()
      modifies this`loadDescriptorQueue, this`loadCharacteristicQueue, this`enableNotificationsQueue
      ensures Current() == Connection.CreateLoadQueues(old(Current()))
    {
      ghost var d0, c0, n0 := loadDescriptorQueue, loadCharacteristicQueue, enableNotificationsQueue;
      ghost var es: seq<DescriptorRef> := [];
      var i := 0;
      while i < |services|
        invariant 0 <= i <= |services|
        invariant es == LoadEntries(services[..i], descriptorUuidMask)
        invariant loadDescriptorQueue == d0 + es
        invariant loadCharacteristicQueue == c0 + CharacteristicsOf(es)
        invariant enableNotificationsQueue == n0 + CharacteristicsOf(es)
      {
        ghost var added := CharacteristicEntries(services[i].uuid, services[i].characteristics, descriptorUuidMask);
        QueueService(services[i]);
        LoadEntriesSnoc(services, i, descriptorUuidMask);
        CharacteristicsOfAppend(es, added);
        WQ.Assoc(d0, es, added);
        WQ.Assoc(c0, CharacteristicsOf(es), CharacteristicsOf(added));
        WQ.Assoc(n0, CharacteristicsOf(es), CharacteristicsOf(added));
        es := es + added;
        i := i + 1;
      }
      assert services[..i] == services;
    }

    /** `readNextDescriptor` */
    method ReadNextDescriptor()
      modifies this, gatt
      ensures Current() == DescriptorDrain(old(Current()))
      decreases |loadDescriptorQueue|, 1
    {
      if loadDescriptorQueue == [] {
        notices := notices + [DescriptorsRead(loadedDescriptors)];
        EnableNextNotifications();
        return;
      }
      var d := loadDescriptorQueue[0];
      loadDescriptorQueue := loadDescriptorQueue[1..];
      var ok := gatt.Ask(ReadDescriptor(d));
      if !ok {
        notices := notices + [Error(BluetoothService.DescriptorReadFailed, UuidText(d.characteristic.uuid))];
        ReadNextDescriptor();
      }
    }

    /** `readAllDescriptors` */
    method ReadAllDescriptors()
      modifies this, gatt
      ensures Current() == Connection.ReadAllDescriptors(old(Current()))
    {
      loadedDescriptors := [];
      CreateLoadQueues();
      ReadNextDescriptor();
    }

    /** `enableNotifications` */
    method EnableNotifications(c: CharacteristicRef) returns (enabled: bool)
      modifies this`notices, gatt
      ensures enabled == PlanFor(c.characteristic).Enable?
      ensures Current() == Connection.EnableNotifications(old(Current()), c)
    {
      var ch := c.characteristic;
      var notificationsAllowed := ch.properties & PropertyNotify != 0;
      var indicationsAllowed := ch.properties & PropertyIndicate != 0;
      enabled := false;
      if notificationsAllowed || indicationsAllowed {
        var descriptor := FindDescriptor(ch, ClientConfigUuid);
        if descriptor.Some? {
          gatt.Tell(SetNotification(c));
          var d := DescriptorRef(c.service, ch, descriptor.value);
          if indicationsAllowed {
            gatt.Tell(WriteDescriptor(d, EnableIndicationValue));
          } else {
            gatt.Tell(WriteDescriptor(d, EnableNotificationValue));
          }
          enabled := true;
        } else {
          notices := notices + [Error(BluetoothService.No2902Descriptor, UuidText(ch.uuid))];
        }
      }
    }

    /** `enableNextNotifications`: the do-while loop runs its body at least
        once, as `while !notificationsEnabled` does from `false`. */
    method EnableNextNotifications()
      modifies this, gatt
      ensures Current() == NotifyDrain(old(Current()))
      decreases |loadDescriptorQueue|, 0
    {
      var notificationsEnabled := false;
      while !notificationsEnabled
        invariant !notificationsEnabled ==> NotifyDrain(Current()) == NotifyDrain(old(Current()))
        invariant notificationsEnabled ==> Current() == NotifyDrain(old(Current()))
        decreases |enableNotificationsQueue|, if notificationsEnabled then 0 else 1
      {
        if enableNotificationsQueue == [] {
          ReadAllCharacteristics();
          return;
        }
        var c := enableNotificationsQueue[0];
        enableNotificationsQueue := enableNotificationsQueue[1..];
        notificationsEnabled := EnableNotifications(c);
      }
    }

    /** `readNextCharacteristic` */
    method ReadNextCharacteristic()
      modifies this, gatt
      ensures Current() == CharacteristicDrain(old(Current()))
      decreases |loadCharacteristicQueue|
    {
      if loadCharacteristicQueue == [] {
        notices := notices + [CharacteristicsRead(loadedCharacteristics), WorkEnded];
        return;
      }
      var c := loadCharacteristicQueue[0];
      loadCharacteristicQueue := loadCharacteristicQueue[1..];
      var ok := gatt.Ask(ReadCharacteristic(c));
      if !ok {
        notices := notices + [Error(BluetoothService.NoPropertyRead, UuidText(c.characteristic.uuid))];
        ReadNextCharacteristic();
      }
    }

    /** `readAllCharacteristics` on a non-null connection. */
    method ReadAllCharacteristics()
      modifies this, gatt
      ensures Current() == Connection.ReadAllCharacteristics(old(Current()))
    {
      loadedCharacteristics := [];
      ReadNextCharacteristic();
    }

    /** `discoverServices` on the active connection. */
    method DiscoverServices()
      modifies this`notices, gatt
      ensures Current() == Discover(old(Current()))
    {
      if descriptorUuidMask.Some? && isReady {
        var ok := gatt.Ask(Request.DiscoverServices);
        if !ok {
          InvokeOnFatalError(BluetoothService.UnknownError, StringResource("unable_to_discover_services"));
        }
      } else {
        notices := notices + [WorkEnded];
      }
    }

    // ---- GATT callbacks -------------------------------------------------

    /** `onConnectionStateChange` */
    method OnConnectionStateChange(status: int, newState: int)
      modifies this, gatt
      ensures Current() == ConnectionStateChanged(old(Current()), status, newState)
    {
      if status == BluetoothService.GattSuccess {
        if newState == StateConnected {
          notices := notices + [Connected];
          var mtuAccepted := false;
          if requestMtu {
            mtuAccepted := gatt.Ask(RequestMtu(RequestedMtu));
          }
          if !requestMtu || !mtuAccepted {
            isReady := true;
            DiscoverServices();
          } else {
            mtuRequested := true;
          }
        } else if newState == StateDisconnected {
          isReady := false;
          gatt.Tell(Close);
          activeConnection := false;
          notices := notices + [Disconnected, WorkEnded];
        }
      } else {
        InvokeOnFatalError(status, Plain(""));
        if newState == StateDisconnected {
          isReady := false;
          notices := notices + [Disconnected];
          if status == GattError {
            gatt.Tell(Close);
            activeConnection := false;
          } else {
            notices := notices + [WorkStarted];
          }
        }
      }
    }

    /** `onMtuChanged` */
    method OnMtuChanged(status: int)
      modifies this, gatt
      ensures Current() == MtuChanged(old(Current()), status)
    {
      if mtuRequested {
        if status == BluetoothService.GattSuccess {
          mtuRequested := false;
          isReady := true;
          DiscoverServices();
        } else {
          InvokeOnFatalError(status, StringResource("mtu_size_negotiation_failed"));
        }
      }
    }

    /** `onServicesDiscovered` */
    method OnServicesDiscovered(discovered: seq<GattService>, status: int)
      modifies this, gatt
      ensures Current() == ServicesDiscoveredFrom(old(Current()), discovered, status)
    {
      if status == BluetoothService.GattSuccess {
        services := discovered;
        ReadAllDescriptors();
        notices := notices + [ServicesDiscovered];
      } else {
        InvokeOnFatalError(status, StringResource("service_discovery_failed"));
      }
    }

    /** `onDescriptorRead` */
    method OnDescriptorRead(d: DescriptorRef, status: int, value: seq<Byte>)
      modifies this, gatt
      ensures Current() == DescriptorRead(old(Current()), d, status, value)
    {
      if status == BluetoothService.GattSuccess {
        loadedDescriptors := loadedDescriptors + [DM.ServiceCharacteristicValue(d.service, d.characteristic.uuid, value)];
      } else {
        notices := notices + [Error(status, UuidText(d.characteristic.uuid))];
      }
      ReadNextDescriptor();
    }

    /** `onCharacteristicRead` */
    method OnCharacteristicRead(c: CharacteristicRef, value: seq<Byte>, status: int)
      modifies this, gatt
      ensures Current() == CharacteristicRead(old(Current()), c, value, status)
    {
      if status == BluetoothService.GattSuccess {
        loadedCharacteristics := loadedCharacteristics + [DM.ServiceCharacteristicValue(c.service, c.characteristic.uuid, value)];
      } else {
        notices := notices + [Error(status, UuidText(c.characteristic.uuid))];
      }
      ReadNextCharacteristic();
    }

    /** `onCharacteristicChanged`: forwards the notified value. */
    method OnCharacteristicChanged(c: CharacteristicRef, value: seq<Byte>)
      modifies this`notices
      ensures Current() == Notify(old(Current()), [CharacteristicChanged(DM.ServiceCharacteristicValue(c.service, c.characteristic.uuid, value))])
    {
      notices := notices + [CharacteristicChanged(DM.ServiceCharacteristicValue(c.service, c.characteristic.uuid, value))];
    }

    /** `onDescriptorWrite` */
    method OnDescriptorWrite(d: DescriptorRef, status: int)
      modifies this, gatt
      ensures Current() == DescriptorWritten(old(Current()), d, status)
    {
      if status == BluetoothService.GattSuccess {
        if ToString(d.descriptor.uuid) == NotificationDescriptor {
          EnableNextNotifications();
        }
      } else {
        InvokeOnFatalError(status, UuidText(d.characteristic.uuid));
      }
    }

    /** `onCharacteristicWrite`: reports the outcome, then completes the
        write queue's in-flight write whatever the outcome. */
    method OnCharacteristicWrite(c: CharacteristicRef, status: int)
      requires Valid()
      modifies this`notices, bleWriteQueue, bleWriteQueue.link
      ensures Valid()
      ensures Current() == CharacteristicWritten(old(Current()), c, status)
      ensures bleWriteQueue.enqueued == old(bleWriteQueue.enqueued)
      ensures var sent := WQ.Pump(old(bleWriteQueue.queue), old(bleWriteQueue.link.answers));
        bleWriteQueue.events == old(bleWriteQueue.events) + [WQ.Completed] + sent
        && bleWriteQueue.queue == old(bleWriteQueue.queue)[|sent|..]
    {
      if status == BluetoothService.GattSuccess {
        notices := notices + [WorkEnded];
      } else {
        InvokeOnFatalError(status, UuidText(c.characteristic.uuid));
      }
      bleWriteQueue.OnWriteComplete();
    }

    // ---- Public calls -----------------------------------------------------

    /** `connectGatt`; `adapterEnabled` is whether Bluetooth is on. */
    method ConnectGatt(requestMtu: bool, adapterEnabled: bool)
      modifies this, gatt
      ensures Current() == Connect(old(Current()), requestMtu, adapterEnabled)
    {
      if activeConnection {
        return;
      }
      this.requestMtu := requestMtu;
      if adapterEnabled {
        gatt.Tell(Request.ConnectGatt);
        activeConnection := true;
        services := [];
        notices := notices + [WorkStarted];
      }
    }

    /** `disconnectActiveConnection` */
    method DisconnectActiveConnection(closeImmediately: bool)
      modifies this, gatt
      ensures Current() == DisconnectActive(old(Current()), closeImmediately)
    {
      if activeConnection {
        isReady := false;
        gatt.Tell(Disconnect);
        if closeImmediately {
          gatt.Tell(Close);
          activeConnection := false;
        }
      }
    }

    /** `destroy`, apart from unregistering the broadcast receiver. */
    method Destroy()
      modifies this, gatt
      ensures Current() == DisconnectActive(old(Current()), true)
    {
      DisconnectActiveConnection(true);
    }

    /** `setDescriptorUUIDMask` */
    method SetDescriptorUuidMask(mask: string)
      modifies this, gatt
      ensures Current() == SetMask(old(Current()), mask)
    {
      if Some(mask) != descriptorUuidMask {
        descriptorUuidMask := Some(mask);
        if activeConnection && isReady {
          DiscoverServices();
          notices := notices + [WorkStarted];
        }
      }
    }

    /** `refreshServices`; `failure` is what the reflective `refresh()`
        call throws, if anything. */
    method RefreshServices(failure: Option<string>)
      modifies this`notices, this`pendingRediscoveries, gatt
      ensures Current() == Refresh(old(Current()), failure)
    {
      if activeConnection && isReady {
        if failure.Some? {
          InvokeOnFatalError(BluetoothService.UnknownError, Plain(failure.value));
          return;
        }
        gatt.Tell(RefreshCache);
        notices := notices + [WorkStarted];
        pendingRediscoveries := pendingRediscoveries + 1;
      } else {
        InvokeOnFatalError(BluetoothService.NotConnected, Plain("Device not connected"));
      }
    }

    /** The block `refreshServices` posts, run once its delay has elapsed. */
    method OnRefreshDelayElapsed()
      modifies this, gatt
      ensures Current() == RefreshDelayElapsed(old(Current()))
    {
      if pendingRediscoveries == 0 {
        return;
      }
      pendingRediscoveries := pendingRediscoveries - 1;
      notices := notices + [WorkStarted];
      if activeConnection || descriptorUuidMask.None? || !isReady {
        DiscoverServices();
      }
    }

    /** `getMatchingCharacteristics`: for each service, the items naming it,
        each looked up in the service. */
    method GetMatchingCharacteristics(connected: bool, items: seq<ServiceCharacteristic>) returns (r: seq<CharacteristicRef>)
      ensures r == Matching(if connected then services else [], items)
    {
      r := [];
      if !connected {
        return;
      }
      var i := 0;
      while i < |services|
        invariant 0 <= i <= |services|
        invariant r == Matching(services[..i], items)
      {
        var s := services[i];
        ghost var before := r;
        var j := 0;
        while j < |items|
          invariant 0 <= j <= |items|
          invariant r == before + ServiceMatches(s, items[..j])
        {
          assert items[..j + 1][..j] == items[..j];
          var item := items[j];
          if item.service == s.uuid {
            var c := FindCharacteristic(s, item.characteristic);
            if c.Some? {
              r := r + [CharacteristicRef(s.uuid, c.value)];
            }
          }
          j := j + 1;
        }
        assert items[..j] == items;
        assert services[..i + 1][..i] == services[..i];
        i := i + 1;
      }
      assert services[..i] == services;
    }

    /** `readCharacteristics` */
    method ReadCharacteristics(items: seq<ServiceCharacteristic>)
      modifies this, gatt
      ensures Current() == Connection.ReadCharacteristics(old(Current()), items)
    {
      if isReady {
        var required := GetMatchingCharacteristics(activeConnection, items);
        if required != [] {
          loadCharacteristicQueue := loadCharacteristicQueue + required;
          notices := notices + [WorkStarted];
          if activeConnection {
            ReadAllCharacteristics();
          }
        }
      }
    }

    /** `writeToToCharacteristic`: the transport behind the write queue. */
    method WriteToCharacteristic(r: CM.WriteRequest) returns (accepted: bool)
      modifies this`notices, gatt
      ensures WriteOutcome(accepted, Current()) == WriteTo(old(Current()), r)
    {
      accepted := false;
      if !activeConnection {
        return;
      }
      var s := FindService(services, r.serviceUuid);
      if s.None? {
        return;
      }
      var c := FindCharacteristic(s.value, r.characteristicUuid);
      if c.None? {
        return;
      }
      var writeType := WriteTypeFor(c.value.properties);
      if writeType.Some? {
        accepted := SendWrite(CharacteristicRef(s.value.uuid, c.value), r.data, writeType.value);
      } else {
        InvokeOnFatalError(BluetoothService.NoPropertyWrite, UuidText(r.characteristicUuid));
      }
    }

    /** The `writeCharacteristic` call and what its answer leads to. */
    method SendWrite(c: CharacteristicRef, data: seq<Byte>, writeType: int) returns (accepted: bool)
      modifies this`notices, gatt
      ensures WriteOutcome(accepted, Current()) == Connection.SendWrite(old(Current()), c, data, writeType)
    {
      accepted := false;
      var answer := gatt.Write(WriteCharacteristic(c, data, writeType));
      match answer {
        case Status(status) =>
          if status == StatusSuccess {
            notices := notices + [WorkStarted];
            accepted := true;
          } else {
            InvokeOnFatalError(BluetoothService.WriteError, Plain(BluetoothService.IntToString(status)));
          }
        case Rejected(message) =>
          InvokeOnFatalError(BluetoothService.WriteError, Plain(message));
      }
    }

    /** `enqueueWriteToCharacteristic` */
    method EnqueueWriteToCharacteristic(r: CM.WriteRequest)
      requires Valid()
      modifies bleWriteQueue, bleWriteQueue.link
      ensures Valid()
      ensures bleWriteQueue.enqueued == old(bleWriteQueue.enqueued) + [r]
      ensures old(bleWriteQueue.isWriting) ==>
        bleWriteQueue.queue == old(bleWriteQueue.queue) + [r] && bleWriteQueue.events == old(bleWriteQueue.events)
      ensures !old(bleWriteQueue.isWriting) ==>
        bleWriteQueue.events == old(bleWriteQueue.events) + [WQ.Requested(r, WQ.Answer(old(bleWriteQueue.link.answers), 0))]
        && bleWriteQueue.queue == []
    {
      bleWriteQueue.EnqueueWrite(r);
    }
  }

  /** The loop of FindMatching stops where FirstMatch says. */
  lemma {:induction false} FirstMatchIsFirst(ds: seq<GattDescriptor>, mask: Option<string>, k: nat)
    requires k <= |ds|
    requires k < |ds| ==> Matches(ds[k], mask)
    requires forall j :: 0 <= j < k ==> !Matches(ds[j], mask)
    ensures k == FirstMatch(ds, mask)
  {
    if ds != [] && k > 0 {
      FirstMatchIsFirst(ds[1..], mask, k - 1);
    }
  }

  lemma {:induction false} CharacteristicsOfAppend(a: seq<DescriptorRef>, b: seq<DescriptorRef>)
    ensures CharacteristicsOf(a + b) == CharacteristicsOf(a) + CharacteristicsOf(b)
  {
  }

  lemma {:induction false} CharacteristicEntriesSnoc(service: Uuid, cs: seq<GattCharacteristic>, j: nat, mask: Option<string>)
    requires j < |cs|
    ensures CharacteristicEntries(service, cs[..j + 1], mask)
      == CharacteristicEntries(service, cs[..j], mask) + EntryOf(service, cs[j], mask)
  {
    assert cs[..j + 1][..j] == cs[..j];
  }

  lemma {:induction false} LoadEntriesSnoc(services: seq<GattService>, i: nat, mask: Option<string>)
    requires i < |services|
    ensures LoadEntries(services[..i + 1], mask)
      == LoadEntries(services[..i], mask) + CharacteristicEntries(services[i].uuid, services[i].characteristics, mask)
  {
    assert services[..i + 1][..i] == services[..i];
  }
}
