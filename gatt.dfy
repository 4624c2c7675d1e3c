// The parts of Android's GATT client objects the app reads: services,
// characteristics with their property bit mask, and descriptors, each found
// by UUID. `BluetoothGattService.getCharacteristic`,
// `BluetoothGatt.getService` and `BluetoothGattCharacteristic.getDescriptor`
// return the first entry with the UUID asked for, or null.
module Gatt {
  import opened Bytes
  import opened Outcomes
  import opened Uuids

  // Characteristic property bits (Bluetooth Core Specification, Vol 3,
  // Part G, section 3.3.1.1), under Android's names.
  const PropertyRead: bv32 := 0x02
  const PropertyWriteNoResponse: bv32 := 0x04
  const PropertyWrite: bv32 := 0x08
  const PropertyNotify: bv32 := 0x10
  const PropertyIndicate: bv32 := 0x20
  const PropertySignedWrite: bv32 := 0x40

  /** 00002902-0000-1000-8000-00805f9b34fb, the Client Characteristic
      Configuration descriptor (Vol 3, Part G, section 3.3.3.3). */
  const ClientConfigUuid := Uuid(0x0000_2902_0000_1000, 0x8000_0080_5F9B_34FB)

  /** The values written to it to enable notifications or indications. */
  const EnableNotificationValue: seq<Byte> := [0x01, 0x00]
  const EnableIndicationValue: seq<Byte> := [0x02, 0x00]

  /** The ATT_MTU asked for in the Exchange MTU request (Vol 3, Part F, section 3.4.2). */
  const RequestedMtu := 517

  datatype GattDescriptor = GattDescriptor(uuid: Uuid)

  datatype GattCharacteristic = GattCharacteristic(uuid: Uuid, properties: bv32, descriptors: seq<GattDescriptor>)

  datatype GattService = GattService(uuid: Uuid, characteristics: seq<GattCharacteristic>)

  predicate HasProperty(c: GattCharacteristic, bit: bv32)
  {
    c.properties & bit != 0
  }

  function FindService(services: seq<GattService>, u: Uuid): (r: Option<GattService>)
    ensures r.None? <==> forall i :: 0 <= i < |services| ==> services[i].uuid != u
    ensures r.Some? ==> exists i :: (0 <= i < |services| && services[i] == r.value && r.value.uuid == u
      && forall j :: 0 <= j < i ==> services[j].uuid != u)
  {
    if services == [] then None
    else if services[0].uuid == u then Some(services[0])
    else
      var r := FindService(services[1..], u);
      assert r.Some? ==> exists i :: (1 <= i < |services| && services[i] == r.value && r.value.uuid == u
        && forall j :: 1 <= j < i ==> services[j].uuid != u);
      r
  }

  function FindCharacteristic(s: GattService, u: Uuid): (r: Option<GattCharacteristic>)
    ensures r.None? <==> forall i :: 0 <= i < |s.characteristics| ==> s.characteristics[i].uuid != u
    ensures r.Some? ==> r.value in s.characteristics && r.value.uuid == u
  {
    FirstCharacteristic(s.characteristics, u)
  }

  function FirstCharacteristic(cs: seq<GattCharacteristic>, u: Uuid): (r: Option<GattCharacteristic>)
    ensures r.None? <==> forall i :: 0 <= i < |cs| ==> cs[i].uuid != u
    ensures r.Some? ==> r.value in cs && r.value.uuid == u
  {
    if cs == [] then None
    else if cs[0].uuid == u then Some(cs[0])
    else FirstCharacteristic(cs[1..], u)
  }

  function FindDescriptor(c: GattCharacteristic, u: Uuid): (r: Option<GattDescriptor>)
    ensures r.None? <==> forall i :: 0 <= i < |c.descriptors| ==> c.descriptors[i].uuid != u
    ensures r.Some? ==> r.value in c.descriptors && r.value.uuid == u
  {
    FirstDescriptor(c.descriptors, u)
  }

  function FirstDescriptor(ds: seq<GattDescriptor>, u: Uuid): (r: Option<GattDescriptor>)
    ensures r.None? <==> forall i :: 0 <= i < |ds| ==> ds[i].uuid != u
    ensures r.Some? ==> r.value in ds && r.value.uuid == u
  {
    if ds == [] then None
    else if ds[0].uuid == u then Some(ds[0])
    else FirstDescriptor(ds[1..], u)
  }
}
