// The state machine of `BluetoothDeviceConnectionService`, as pure
// functions: one transition per GATT callback and per public call. The
// connection service class runs these transitions in place; this module
// says what they do and proves what they guarantee.
//
// The GATT client answers requests the model cannot predict (whether a read,
// a service discovery or an MTU request is accepted, and the status of a
// characteristic write); those answers are an oracle held in the state. Every
// request the service makes and every callback it fires to the activity are
// logged in order.
module Connection {
  import opened Bytes
  import opened Outcomes
  import opened Uuids
  import opened Gatt
  import Comparers
  import BluetoothService
  import CM = CharacteristicModel
  import DM = DeviceModel
  import opened WriteQueue

  // android.bluetooth.BluetoothProfile connection states.
  const StateDisconnected := 0
  const StateConnected := 2
  /** The GATT_ERROR status after which the connection is closed. */
  const GattError := 133
  // BluetoothGattCharacteristic write types.
  const WriteTypeNoResponse := 1
  const WriteTypeDefault := 2
  const WriteTypeSigned := 4
  /** BluetoothStatusCodes.SUCCESS */
  const StatusSuccess := 0
  /** BluetoothStatusCodes.ERROR_UNKNOWN (Integer.MAX_VALUE): a write status
      once the oracle's statuses run out. */
  const StatusErrorUnknown := 0x7FFF_FFFF

  /** "00002902-0000-1000-8000-00805f9b34fb", compared as text. */
  const NotificationDescriptor := "00002902-0000-1000-8000-00805f9b34fb"

  /** A message handed to `onError`: literal text, or one of the app's string
      resources, whose translations are not part of this model. */
  datatype Text = Plain(s: string) | StringResource(name: string)

  datatype CharacteristicRef = CharacteristicRef(service: Uuid, characteristic: GattCharacteristic)

  datatype DescriptorRef = DescriptorRef(service: Uuid, characteristic: GattCharacteristic, descriptor: GattDescriptor)

  /** What the service asks of the Android Bluetooth stack. */
  datatype Request =
    | ConnectGatt
    | RequestMtu(mtu: int)
    | DiscoverServices
    | ReadDescriptor(descriptor: DescriptorRef)
    | ReadCharacteristic(characteristic: CharacteristicRef)
    | SetNotification(characteristic: CharacteristicRef)
    | WriteDescriptor(descriptor: DescriptorRef, value: seq<Byte>)
    | WriteCharacteristic(characteristic: CharacteristicRef, data: seq<Byte>, writeType: int)
    | Disconnect
    | Close
    // the hidden `BluetoothGatt.refresh()`, called reflectively to drop the stack's cache
    | RefreshCache

  /** The callbacks the service fires to its owner. */
  datatype Notice =
    | Connected
    | Disconnected
    | ServicesDiscovered
    | Error(status: int, text: Text)
    | DescriptorsRead(descriptors: seq<DM.ServiceCharacteristicValue>)
    | CharacteristicsRead(characteristics: seq<DM.ServiceCharacteristicValue>)
    | CharacteristicChanged(change: DM.ServiceCharacteristicValue)
    | WorkStarted
    | WorkEnded

  /** What `writeCharacteristic` does with a write: answer with a status code,
      or throw `IllegalArgumentException` (for instance for a value longer
      than the attribute limit), whose message, or "" without one, is kept. */
  datatype WriteAnswer = Status(code: int) | Rejected(message: string)

  /** The service's fields, the GATT client's pending answers, and the two
      logs. `services` is what the active connection's last discovery found.
      `pendingRediscoveries` counts the delayed rediscoveries that
      `refreshServices` has posted to the main looper and that have not run.
      The descriptors read are kept as the (service, characteristic, bytes)
      triples that `DescriptorValueModel` is built from. */
  datatype State = State(
    activeConnection: bool,
    services: seq<GattService>,
    requestMtu: bool,
    isReady: bool,
    mtuRequested: bool,
    mask: Option<string>,
    pendingRediscoveries: nat,
    descriptorQueue: seq<DescriptorRef>,
    notifyQueue: seq<CharacteristicRef>,
    characteristicQueue: seq<CharacteristicRef>,
    loadedDescriptors: seq<DM.ServiceCharacteristicValue>,
    loadedCharacteristics: seq<DM.ServiceCharacteristicValue>,
    accepts: seq<bool>,
    writeAnswers: seq<WriteAnswer>,
    requests: seq<Request>,
    notices: seq<Notice>)

  function UuidText(u: Uuid): Text
  {
    Plain(ToString(u))
  }

  /** A request whose boolean answer is taken from the oracle. */
  function Asked(st: State, r: Request): State
  {
    st.(accepts := Drop(st.accepts, 1), requests := st.requests + [r])
  }

  /** A request whose result is ignored. */
  function Told(st: State, r: Request): State
  {
    st.(requests := st.requests + [r])
  }

  function Notify(st: State, ns: seq<Notice>): State
  {
    st.(notices := st.notices + ns)
  }

  /** `invokeOnFatalError`: work ends, then the error is reported. */
  function Fatal(st: State, status: int, text: Text): State
  {
    Notify(st, [WorkEnded, Error(status, text)])
  }

  // ---- Queue building -------------------------------------------------

  predicate Matches(d: GattDescriptor, mask: Option<string>)
  {
    Comparers.CompareUuidWithMask(d.uuid, mask)
  }

  /** The position of the first descriptor whose UUID matches the mask, or
      the length when none does: where the `for` loop breaks. */
  function FirstMatch(ds: seq<GattDescriptor>, mask: Option<string>): (k: nat)
    ensures k <= |ds|
    ensures k < |ds| ==> Matches(ds[k], mask)
    ensures forall j :: 0 <= j < k ==> !Matches(ds[j], mask)
  {
    if ds == [] then 0
    else if Matches(ds[0], mask) then 0
    else 1 + FirstMatch(ds[1..], mask)
  }

  /** The queue entries of one service's characteristics, in GATT order. */
  function CharacteristicEntries(service: Uuid, cs: seq<GattCharacteristic>, mask: Option<string>): seq<DescriptorRef>
  {
    if cs == [] then []
    else CharacteristicEntries(service, cs[..|cs| - 1], mask) + EntryOf(service, cs[|cs| - 1], mask)
  }

  /** The entry one characteristic adds: its first matching descriptor. */
  function EntryOf(service: Uuid, c: GattCharacteristic, mask: Option<string>): seq<DescriptorRef>
  {
    var k := FirstMatch(c.descriptors, mask);
    if k < |c.descriptors| then [DescriptorRef(service, c, c.descriptors[k])] else []
  }

  /** What `createLoadQueues` appends to the descriptor queue. */
  function LoadEntries(services: seq<GattService>, mask: Option<string>): seq<DescriptorRef>
  {
    if services == [] then []
    else
      var s := services[|services| - 1];
      LoadEntries(services[..|services| - 1], mask) + CharacteristicEntries(s.uuid, s.characteristics, mask)
  }

  function CharacteristicsOf(es: seq<DescriptorRef>): (r: seq<CharacteristicRef>)
    ensures |r| == |es|
  {
    seq(|es|, i requires 0 <= i < |es| => CharacteristicRef(es[i].service, es[i].characteristic))
  }

  /** `createLoadQueues`: appends, and never clears, the three queues. */
  function CreateLoadQueues(st: State): State
  {
    var es := LoadEntries(st.services, st.mask);
    st.(descriptorQueue := st.descriptorQueue + es,
        characteristicQueue := st.characteristicQueue + CharacteristicsOf(es),
        notifyQueue := st.notifyQueue + CharacteristicsOf(es))
  }

  // ---- The drains -------------------------------------------------------

  /** `readNextCharacteristic`, followed to the first accepted read or to the
      end of the queue. */
  function CharacteristicDrain(st: State): State
    decreases |st.characteristicQueue|
  {
    if st.characteristicQueue == [] then
      Notify(st, [CharacteristicsRead(st.loadedCharacteristics), WorkEnded])
    else
      var c := st.characteristicQueue[0];
      var st1 := Asked(st.(characteristicQueue := st.characteristicQueue[1..]), ReadCharacteristic(c));
      if Answer(st.accepts, 0) then st1
      else CharacteristicDrain(Notify(st1, [Error(BluetoothService.NoPropertyRead, UuidText(c.characteristic.uuid))]))
  }

  /** `readAllCharacteristics` on a non-null connection. */
  function ReadAllCharacteristics(st: State): State
  {
    CharacteristicDrain(st.(loadedCharacteristics := []))
  }

  /** What `enableNotifications` does with one characteristic. */
  datatype NotifyPlan = NotNotifiable | No2902 | Enable(descriptor: GattDescriptor, value: seq<Byte>)

  function PlanFor(c: GattCharacteristic): NotifyPlan
  {
    var notify := HasProperty(c, PropertyNotify);
    var indicate := HasProperty(c, PropertyIndicate);
    if !notify && !indicate then NotNotifiable
    else match FindDescriptor(c, ClientConfigUuid)
      case None => No2902
      case Some(d) => Enable(d, if indicate then EnableIndicationValue else EnableNotificationValue)
  }

  /** `enableNotifications`: subscribes and writes the CCCD of a notifiable
      characteristic that has one (the write's result is not looked at); a
      notifiable characteristic without a CCCD is reported. */
  function EnableNotifications(st: State, c: CharacteristicRef): State
  {
    match PlanFor(c.characteristic)
    case NotNotifiable => st
    case No2902 => Notify(st, [Error(BluetoothService.No2902Descriptor, UuidText(c.characteristic.uuid))])
    case Enable(d, v) =>
      Told(Told(st, SetNotification(c)), WriteDescriptor(DescriptorRef(c.service, c.characteristic, d), v))
  }

  /** `enableNextNotifications`: polls until one characteristic gets its
      CCCD write; an empty queue starts the value reads. */
  function NotifyDrain(st: State): State
    decreases |st.notifyQueue|
  {
    if st.notifyQueue == [] then ReadAllCharacteristics(st)
    else
      var c := st.notifyQueue[0];
      var st1 := EnableNotifications(st.(notifyQueue := st.notifyQueue[1..]), c);
      if PlanFor(c.characteristic).Enable? then st1 else NotifyDrain(st1)
  }

  /** `readNextDescriptor`, followed to the first accepted read or to the end
      of the queue, which reports the descriptors and starts notifications. */
  function DescriptorDrain(st: State): State
    decreases |st.descriptorQueue|
  {
    if st.descriptorQueue == [] then
      NotifyDrain(Notify(st, [DescriptorsRead(st.loadedDescriptors)]))
    else
      var d := st.descriptorQueue[0];
      var st1 := Asked(st.(descriptorQueue := st.descriptorQueue[1..]), ReadDescriptor(d));
      if Answer(st.accepts, 0) then st1
      else DescriptorDrain(Notify(st1, [Error(BluetoothService.DescriptorReadFailed, UuidText(d.characteristic.uuid))]))
  }

  /** `readAllDescriptors` */
  function ReadAllDescriptors(st: State): State
  {
    DescriptorDrain(CreateLoadQueues(st.(loadedDescriptors := [])))
  }

  // ---- Callbacks from the GATT client ----------------------------------

  /** `discoverServices` on the active connection: only with a mask and once
      ready; otherwise the work simply ends. */
  function Discover(st: State): State
  {
    if st.mask.Some? && st.isReady then
      var st1 := Asked(st, DiscoverServices);
      if Answer(st.accepts, 0) then st1
      else Fatal(st1, BluetoothService.UnknownError, StringResource("unable_to_discover_services"))
    else Notify(st, [WorkEnded])
  }

  /** `onConnectionStateChange` */
  function ConnectionStateChanged(st: State, status: int, newState: int): State
  {
    if status == BluetoothService.GattSuccess then
      if newState == StateConnected then
        var st1 := Notify(st, [Connected]);
        if !st.requestMtu || !Answer(st.accepts, 0) then
          var st2 := if st.requestMtu then Asked(st1, RequestMtu(RequestedMtu)) else st1;
          Discover(st2.(isReady := true))
        else Asked(st1, RequestMtu(RequestedMtu)).(mtuRequested := true)
      else if newState == StateDisconnected then
        Notify(Told(st.(isReady := false), Close).(activeConnection := false), [Disconnected, WorkEnded])
      else st
    else
      var st1 := Fatal(st, status, Plain(""));
      if newState == StateDisconnected then
        var st2 := Notify(st1.(isReady := false), [Disconnected]);
        if status == GattError then Told(st2, Close).(activeConnection := false)
        else Notify(st2, [WorkStarted])
      else st1
  }

  /** `onMtuChanged`: acts only while an MTU request is outstanding. */
  function MtuChanged(st: State, status: int): State
  {
    if !st.mtuRequested then st
    else if status == BluetoothService.GattSuccess then Discover(st.(mtuRequested := false, isReady := true))
    else Fatal(st, status, StringResource("mtu_size_negotiation_failed"))
  }

  /** `onServicesDiscovered`: the discovery's services replace the
      connection's, the load pipeline starts, then the owner is told. */
  function ServicesDiscoveredFrom(st: State, services: seq<GattService>, status: int): State
  {
    if status == BluetoothService.GattSuccess then
      Notify(ReadAllDescriptors(st.(services := services)), [ServicesDiscovered])
    else Fatal(st, status, StringResource("service_discovery_failed"))
  }

  /** `onDescriptorRead` */
  function DescriptorRead(st: State, d: DescriptorRef, status: int, value: seq<Byte>): State
  {
    var st1 :=
      if status == BluetoothService.GattSuccess then
        st.(loadedDescriptors := st.loadedDescriptors + [DM.ServiceCharacteristicValue(d.service, d.characteristic.uuid, value)])
      else Notify(st, [Error(status, UuidText(d.characteristic.uuid))]);
    DescriptorDrain(st1)
  }

  /** `onCharacteristicRead` */
  function CharacteristicRead(st: State, c: CharacteristicRef, value: seq<Byte>, status: int): State
  {
    var st1 :=
      if status == BluetoothService.GattSuccess then
        st.(loadedCharacteristics := st.loadedCharacteristics + [DM.ServiceCharacteristicValue(c.service, c.characteristic.uuid, value)])
      else Notify(st, [Error(status, UuidText(c.characteristic.uuid))]);
    CharacteristicDrain(st1)
  }

  /** `onDescriptorWrite`: a successful CCCD write moves on to the next
      notification; a failure ends the pipeline. */
  function DescriptorWritten(st: State, d: DescriptorRef, status: int): State
  {
    if status == BluetoothService.GattSuccess then
      if ToString(d.descriptor.uuid) == NotificationDescriptor then NotifyDrain(st) else st
    else Fatal(st, status, UuidText(d.characteristic.uuid))
  }

  /** `onCharacteristicWrite`, apart from the write queue's completion. */
  function CharacteristicWritten(st: State, c: CharacteristicRef, status: int): State
  {
    if status == BluetoothService.GattSuccess then Notify(st, [WorkEnded])
    else Fatal(st, status, UuidText(c.characteristic.uuid))
  }

  // ---- Public calls -------------------------------------------------------

  /** `connectGatt`: only one connection at a time. With the adapter off it
      asks the user to enable Bluetooth, which is not part of this model. */
  function Connect(st: State, requestMtu: bool, adapterEnabled: bool): State
  {
    if st.activeConnection then st
    else if adapterEnabled then
      Notify(Told(st.(requestMtu := requestMtu), ConnectGatt).(activeConnection := true, services := []), [WorkStarted])
    else st.(requestMtu := requestMtu)
  }

  /** `disconnectActiveConnection` */
  function DisconnectActive(st: State, closeNow: bool): State
  {
    if !st.activeConnection then st
    else
      var st1 := Told(st.(isReady := false), Disconnect);
      if closeNow then Told(st1, Close).(activeConnection := false) else st1
  }

  /** `setDescriptorUUIDMask`: an unchanged mask does nothing. */
  function SetMask(st: State, mask: string): State
  {
    if st.mask == Some(mask) then st
    else
      var st1 := st.(mask := Some(mask));
      if st1.activeConnection && st1.isReady then Notify(Discover(st1), [WorkStarted]) else st1
  }

  /** `refreshServices`. `failure` is what the reflective call of the hidden
      `BluetoothGatt.refresh()` throws: None when it returns, or the
      exception's message ("" without one). On success the call is logged,
      work starts and a rediscovery is posted to run 6 seconds later
      (RefreshDelayElapsed). */
  function Refresh(st: State, failure: Option<string>): State
  {
    if st.activeConnection && st.isReady then
      match failure
      case None => Notify(Told(st, RefreshCache), [WorkStarted]).(pendingRediscoveries := st.pendingRediscoveries + 1)
      case Some(message) => Fatal(st, BluetoothService.UnknownError, Plain(message))
    else Fatal(st, BluetoothService.NotConnected, Plain("Device not connected"))
  }

  /** The delayed block posted by `refreshServices`, when it runs: work
      starts again, then `discoverServices(activeConnection)` with the
      connection as it is by then. Without a connection the
      `gatt?.discoverServices() == false` test is false and nothing is asked.
      With nothing posted, nothing runs. */
  function RefreshDelayElapsed(st: State): State
  {
    if st.pendingRediscoveries == 0 then st
    else
      var st1 := Notify(st.(pendingRediscoveries := st.pendingRediscoveries - 1), [WorkStarted]);
      if !st1.activeConnection && st1.mask.Some? && st1.isReady then st1 else Discover(st1)
  }

  /** A (service UUID, characteristic UUID) pair asked for by the owner. */
  datatype ServiceCharacteristic = ServiceCharacteristic(service: Uuid, characteristic: Uuid)

  /** The characteristics one service contributes: the items naming it, in
      item order, that the service has. */
  function ServiceMatches(s: GattService, items: seq<ServiceCharacteristic>): seq<CharacteristicRef>
  {
    if items == [] then []
    else
      var init := ServiceMatches(s, items[..|items| - 1]);
      var item := items[|items| - 1];
      if item.service != s.uuid then init
      else match FindCharacteristic(s, item.characteristic)
        case None => init
        case Some(c) => init + [CharacteristicRef(s.uuid, c)]
  }

  /** `getMatchingCharacteristics`: service by service, in GATT order. */
  function Matching(services: seq<GattService>, items: seq<ServiceCharacteristic>): seq<CharacteristicRef>
  {
    if services == [] then []
    else Matching(services[..|services| - 1], items) + ServiceMatches(services[|services| - 1], items)
  }

  /** `readCharacteristics`: guarded by isReady alone. */
  function ReadCharacteristics(st: State, items: seq<ServiceCharacteristic>): State
  {
    if !st.isReady then st
    else
      var required := Matching(if st.activeConnection then st.services else [], items);
      if required == [] then st
      else
        var st1 := Notify(st.(characteristicQueue := st.characteristicQueue + required), [WorkStarted]);
        if st1.activeConnection then ReadAllCharacteristics(st1) else st1
  }

  /** `getWriteTypeForCharacteristic`: no-response, then signed, then default. */
  function WriteTypeFor(properties: bv32): Option<int>
  {
    if properties & PropertyWriteNoResponse != 0 then Some(WriteTypeNoResponse)
    else if properties & PropertySignedWrite != 0 then Some(WriteTypeSigned)
    else if properties & PropertyWrite != 0 then Some(WriteTypeDefault)
    else None
  }

  /** The GATT client's next answer to a write. */
  function NextWrite(answers: seq<WriteAnswer>): WriteAnswer
  {
    if answers == [] then Status(StatusErrorUnknown) else answers[0]
  }

  datatype WriteOutcome = WriteOutcome(accepted: bool, state: State)

  /** `writeToToCharacteristic`: the write queue's transport. */
  function WriteTo(st: State, r: CM.WriteRequest): WriteOutcome
  {
    if !st.activeConnection then WriteOutcome(false, st)
    else match FindService(st.services, r.serviceUuid)
      case None => WriteOutcome(false, st)
      case Some(s) =>
        match FindCharacteristic(s, r.characteristicUuid)
        case None => WriteOutcome(false, st)
        case Some(c) =>
          match WriteTypeFor(c.properties)
          case None => WriteOutcome(false, Fatal(st, BluetoothService.NoPropertyWrite, UuidText(r.characteristicUuid)))
          case Some(t) => SendWrite(st, CharacteristicRef(s.uuid, c), r.data, t)
  }

  /** The `writeCharacteristic` call of `writeToToCharacteristic` and what
      follows from its answer: success starts work; a failure status or a
      thrown `IllegalArgumentException` is a fatal WRITE_ERROR. */
  function SendWrite(st: State, c: CharacteristicRef, data: seq<Byte>, writeType: int): WriteOutcome
  {
    var st1 := st.(writeAnswers := if st.writeAnswers == [] then [] else st.writeAnswers[1..],
                   requests := st.requests + [WriteCharacteristic(c, data, writeType)]);
    match NextWrite(st.writeAnswers)
    case Status(status) =>
      if status == StatusSuccess then WriteOutcome(true, Notify(st1, [WorkStarted]))
      else WriteOutcome(false, Fatal(st1, BluetoothService.WriteError, Plain(BluetoothService.IntToString(status))))
    case Rejected(message) => WriteOutcome(false, Fatal(st1, BluetoothService.WriteError, Plain(message)))
  }
}
