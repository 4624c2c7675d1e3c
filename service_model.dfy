// ServiceModel: the controls of one GATT service, keyed by characteristic
// UUID, and `setupServiceModel`, which builds them from the discovered
// service and the descriptors read from the device.
module ServiceModel {
  import opened Bytes
  import opened Outcomes
  import opened Uuids
  import opened Codecs
  import opened Gatt
  import opened Associations
  import opened Sorting
  import CM = CharacteristicModel
  import DescriptorValueModel

  type DescriptorValue = DescriptorValueModel.DescriptorValue

  /** A characteristic accepts writes unless the device is opened read-only,
      and only with one of the three write properties. */
  predicate IsWritable(c: GattCharacteristic, readOnly: bool)
  {
    !readOnly
    && (HasProperty(c, PropertyWrite) || HasProperty(c, PropertyWriteNoResponse) || HasProperty(c, PropertySignedWrite))
  }

  /** The three write bits together form the mask 0x4C; the read, notify and
      indicate bits never make a characteristic writable. */
  lemma {:induction false} WritableMask(c: GattCharacteristic, readOnly: bool)
    ensures IsWritable(c, readOnly) <==> !readOnly && c.properties & 0x4C != 0
    ensures c.properties & 0x4C == 0 ==> !IsWritable(c, readOnly)
    ensures c.properties == PropertyRead | PropertyNotify | PropertyIndicate ==> !IsWritable(c, readOnly)
  {
    var p := c.properties;
    assert p & 0x4C == (p & 0x08) | (p & 0x04) | (p & 0x40);
  }

  predicate Describes(d: DescriptorValue, service: Uuid, characteristic: Uuid)
  {
    d.serviceUuid == service && d.characteristicUuid == characteristic
  }

  /** `descriptorValueModels.firstOrNull { … }`: the first descriptor read
      for this service and characteristic. */
  function DescriptorFor(ds: seq<DescriptorValue>, service: Uuid, characteristic: Uuid): (r: Option<DescriptorValue>)
    ensures r.None? <==> forall i :: 0 <= i < |ds| ==> !Describes(ds[i], service, characteristic)
    ensures r.Some? ==> exists i :: (0 <= i < |ds| && ds[i] == r.value && Describes(ds[i], service, characteristic)
      && forall j :: 0 <= j < i ==> !Describes(ds[j], service, characteristic))
  {
    if ds == [] then None
    else if Describes(ds[0], service, characteristic) then Some(ds[0])
    else
      var r := DescriptorFor(ds[1..], service, characteristic);
      assert r.Some? ==> exists i :: (1 <= i < |ds| && ds[i] == r.value && Describes(ds[i], service, characteristic)
        && forall j :: 0 <= j < i ==> !Describes(ds[j], service, characteristic)) by {
        if r.Some? {
          var i :| 0 <= i < |ds[1..]| && ds[1..][i] == r.value && Describes(ds[1..][i], service, characteristic)
            && forall j :: 0 <= j < i ==> !Describes(ds[1..][j], service, characteristic);
          assert forall j :: 1 <= j < i + 1 ==> ds[j] == ds[1..][j - 1];
        }
      }
      r
  }

  /** The pairs `associate` is given: each characteristic's UUID with the
      control built for it, in GATT order. */
  function ControlEntries(service: GattService, ds: seq<DescriptorValue>, readOnly: bool): (r: seq<(Uuid, Option<CM.Control>)>)
    ensures |r| == |service.characteristics|
    ensures forall i :: 0 <= i < |r| ==> r[i] == ControlEntry(service, ds, readOnly, service.characteristics[i])
  {
    seq(|service.characteristics|, i requires 0 <= i < |service.characteristics| =>
      ControlEntry(service, ds, readOnly, service.characteristics[i]))
  }

  function ControlEntry(service: GattService, ds: seq<DescriptorValue>, readOnly: bool, c: GattCharacteristic): (Uuid, Option<CM.Control>)
  {
    (c.uuid, CM.Setup(c.uuid, DescriptorFor(ds, service.uuid, c.uuid), IsWritable(c, readOnly)))
  }

  /** The controls of the service as the map holds them: associated by
      characteristic UUID, then the characteristics without a control dropped. */
  function ServiceControls(service: GattService, ds: seq<DescriptorValue>, readOnly: bool): seq<(Uuid, CM.Control)>
  {
    FilterSome(Associate(ControlEntries(service, ds, readOnly)))
  }

  /** Every control is held once, under its own UUID, and is the control
      built for one of the service's characteristics. */
  lemma {:induction false} ServiceControlsWellFormed(service: GattService, ds: seq<DescriptorValue>, readOnly: bool)
    ensures DistinctKeys(ServiceControls(service, ds, readOnly))
    ensures forall e :: e in ServiceControls(service, ds, readOnly) ==>
      e.1.uuid == e.0 && exists c :: c in service.characteristics && ControlEntry(service, ds, readOnly, c) == (e.0, Some(e.1))
  {
    var entries := ControlEntries(service, ds, readOnly);
    var m := Associate(entries);
    var r := ServiceControls(service, ds, readOnly);
    AssociateKeys(entries);
    AssociateEntries(entries);
    FilterSomeKeys(m);
    forall e | e in r
      ensures e.1.uuid == e.0 && exists c :: c in service.characteristics && ControlEntry(service, ds, readOnly, c) == (e.0, Some(e.1))
    {
      FilterSomeMember(m, e);
      assert (e.0, Some(e.1)) in entries;
      var i :| 0 <= i < |entries| && entries[i] == (e.0, Some(e.1));
      assert ControlEntry(service, ds, readOnly, service.characteristics[i]) == (e.0, Some(e.1));
    }
  }

  /** Exactly the characteristics with a descriptor get a control. */
  lemma {:induction false} ServiceControlsPresent(service: GattService, ds: seq<DescriptorValue>, readOnly: bool, u: Uuid)
    ensures Lookup(ServiceControls(service, ds, readOnly), u).Some? <==>
      exists c :: c in service.characteristics && c.uuid == u && DescriptorFor(ds, service.uuid, u).Some?
  {
    var r := ServiceControls(service, ds, readOnly);
    if Lookup(r, u).Some? {
      ServiceControlsWellFormed(service, ds, readOnly);
      var e := (u, Lookup(r, u).value);
      assert e in r;
      var c :| c in service.characteristics && ControlEntry(service, ds, readOnly, c) == (e.0, Some(e.1));
      assert c.uuid == u;
    }
    if exists c :: c in service.characteristics && c.uuid == u && DescriptorFor(ds, service.uuid, u).Some? {
      var c :| c in service.characteristics && c.uuid == u && DescriptorFor(ds, service.uuid, u).Some?;
      DescribedIsPresent(service, ds, readOnly, c);
    }
  }

  lemma {:induction false} DescribedIsPresent(service: GattService, ds: seq<DescriptorValue>, readOnly: bool, c: GattCharacteristic)
    requires c in service.characteristics && DescriptorFor(ds, service.uuid, c.uuid).Some?
    ensures Lookup(ServiceControls(service, ds, readOnly), c.uuid).Some?
  {
    var entries := ControlEntries(service, ds, readOnly);
    var i :| 0 <= i < |service.characteristics| && service.characteristics[i] == c;
    assert entries[i].0 == c.uuid;
    PresentAfterFilter(entries, c.uuid);
  }

  /** The service gets no model exactly when none of its characteristics
      has a descriptor read for it. */
  lemma {:induction false} ServiceControlsEmpty(service: GattService, ds: seq<DescriptorValue>, readOnly: bool)
    ensures ServiceControls(service, ds, readOnly) == [] <==>
      forall c :: c in service.characteristics ==> DescriptorFor(ds, service.uuid, c.uuid).None?
  {
    var r := ServiceControls(service, ds, readOnly);
    if r == [] {
      forall c | c in service.characteristics ensures DescriptorFor(ds, service.uuid, c.uuid).None? {
        ServiceControlsPresent(service, ds, readOnly, c.uuid);
      }
    } else {
      ServiceControlsWellFormed(service, ds, readOnly);
      assert r[0] in r;
      var c :| c in service.characteristics && ControlEntry(service, ds, readOnly, c) == (r[0].0, Some(r[0].1));
      assert DescriptorFor(ds, service.uuid, c.uuid).Some?;
    }
  }

  /** With distinct characteristic UUIDs nothing is merged: the map holds
      the controls in GATT order. */
  lemma {:induction false} ServiceControlsInOrder(service: GattService, ds: seq<DescriptorValue>, readOnly: bool)
    requires forall i, j :: 0 <= i < j < |service.characteristics| ==>
      service.characteristics[i].uuid != service.characteristics[j].uuid
    ensures ServiceControls(service, ds, readOnly) == FilterSome(ControlEntries(service, ds, readOnly))
  {
    AssociateDistinct(ControlEntries(service, ds, readOnly));
  }

  /** The index of the first ServiceName control. */
  function FirstServiceName(cs: seq<CM.Characteristic>): (r: Option<nat>)
    ensures r.None? <==> forall i :: 0 <= i < |cs| ==> !cs[i].control.kind.ServiceName?
    ensures r.Some? ==> (r.value < |cs| && cs[r.value].control.kind.ServiceName?
      && forall j :: 0 <= j < r.value ==> !cs[j].control.kind.ServiceName?)
  {
    if cs == [] then None
    else if cs[0].control.kind.ServiceName? then Some(0)
    else
      match FirstServiceName(cs[1..])
      case None => None
      case Some(i) => Some(i + 1)
  }

  /** `getCharacteristics` sorts by order, then by UUID. */
  function CharacteristicKeys(cs: seq<CM.Characteristic>): (r: seq<SortKey>)
    ensures |r| == |cs|
    ensures forall i :: 0 <= i < |cs| ==> r[i] == SortKey(cs[i].control.order, Key(cs[i].control.uuid))
  {
    seq(|cs|, i requires 0 <= i < |cs| => SortKey(cs[i].control.order, Key(cs[i].control.uuid)))
  }

  class ServiceModel {
    const uuid: Uuid
    /** The map's values in iteration order; each is keyed by its control's UUID. */
    const characteristics: seq<CM.Characteristic>

    /** The map's keys are distinct, and every control writes through the
        callback bound to this service. */
    ghost predicate Valid()
    {
      (forall i, j :: 0 <= i < j < |characteristics| ==>
        characteristics[i].control.uuid != characteristics[j].control.uuid)
      && forall i :: 0 <= i < |characteristics| ==> characteristics[i].serviceUuid == uuid
    }

    constructor (uuid: Uuid, characteristics: seq<CM.Characteristic>)
      ensures this.uuid == uuid && this.characteristics == characteristics
    {
      this.uuid := uuid;
      this.characteristics := characteristics;
    }

    /** The map the model holds: each control under its UUID. */
    function Controls(): (r: seq<(Uuid, CM.Control)>)
      ensures |r| == |characteristics|
      ensures forall i :: 0 <= i < |r| ==> r[i] == (characteristics[i].control.uuid, characteristics[i].control)
    {
      seq(|characteristics|, i requires 0 <= i < |characteristics| =>
        (characteristics[i].control.uuid, characteristics[i].control))
    }

    /** The first eight characters of the UUID's printed form. */
    function DefaultName(): string
    {
      ToString(uuid)[..8]
    }

    /** `name`: the text of the first ServiceName control, if it holds one. */
    function Name(): string
      reads characteristics
    {
      match FirstServiceName(characteristics)
      case Some(i) =>
        var v := characteristics[i].value;
        if v.Some? && v.value.TextValue? then v.value.text else DefaultName()
      case None => DefaultName()
    }

    /** `order`: the order of the first ServiceName control, else 0. */
    function Order(): int
    {
      match FirstServiceName(characteristics)
      case Some(i) => characteristics[i].control.order
      case None => 0
    }

    /** `getCharacteristics()` */
    function GetCharacteristics(): seq<CM.Characteristic>
    {
      Items(SortBy(characteristics, CharacteristicKeys(characteristics)))
    }

    function IndexOf(cs: seq<CM.Characteristic>, u: Uuid): (r: Option<nat>)
      ensures r.None? <==> forall i :: 0 <= i < |cs| ==> cs[i].control.uuid != u
      ensures r.Some? ==> r.value < |cs| && cs[r.value].control.uuid == u
    {
      if cs == [] then None
      else if cs[0].control.uuid == u then Some(0)
      else
        match IndexOf(cs[1..], u)
        case None => None
        case Some(i) => Some(i + 1)
    }

    /** `setCharacteristicValue`: the control with this UUID decodes the
        bytes; every other control keeps its value. */
    method SetCharacteristicValue(characteristicUuid: Uuid, bytes: seq<Byte>)
      requires Valid()
      modifies characteristics
      ensures forall i :: 0 <= i < |characteristics| ==>
        characteristics[i].value ==
          if characteristics[i].control.uuid == characteristicUuid && !characteristics[i].control.kind.Error?
          then Some(Decode(CM.CodecOf(characteristics[i].control.kind), bytes))
          else old(characteristics[i].value)
    {
      var found := IndexOf(characteristics, characteristicUuid);
      if found.Some? {
        characteristics[found.value].SetByteValue(bytes);
      }
    }
  }

  /** The first ServiceName control decides both name and order: its text
      when it holds one, and its order. */
  lemma {:induction false} FirstServiceNameWins(s: ServiceModel, i: nat, t: string)
    requires i < |s.characteristics| && s.characteristics[i].control.kind.ServiceName?
    requires forall j :: 0 <= j < i ==> !s.characteristics[j].control.kind.ServiceName?
    ensures s.Order() == s.characteristics[i].control.order
    ensures s.characteristics[i].value == Some(TextValue(t)) ==> s.Name() == t
    ensures s.characteristics[i].value.None? ==> s.Name() == s.DefaultName()
  {
  }

  /** Without a ServiceName control the name is the first group of the
      printed UUID, eight lower-case hexadecimal digits, and the order is 0. */
  lemma {:induction false} NameWithoutServiceName(s: ServiceModel)
    requires forall i :: 0 <= i < |s.characteristics| ==> !s.characteristics[i].control.kind.ServiceName?
    ensures s.Name() == Hex32(s.uuid)[..8]
    ensures |s.Name()| == 8 && forall i :: 0 <= i < 8 ==> IsLowerHexDigit(s.Name()[i])
    ensures s.Order() == 0
  {
    ToStringShape(s.uuid);
    assert ToString(s.uuid)[..8] == Hex32(s.uuid)[..8];
  }

  /** `getCharacteristics` lists every control once, ordered by order and,
      within one order, by UUID as `UUID.compareTo` orders them. */
  lemma {:induction false} GetCharacteristicsSorted(s: ServiceModel)
    requires s.Valid()
    ensures var r := s.GetCharacteristics();
      |r| == |s.characteristics|
      && (forall i :: 0 <= i < |r| ==> r[i] in s.characteristics)
      && (forall c :: c in s.characteristics ==> c in r)
      && (forall i, j :: 0 <= i < j < |r| ==>
            r[i].control.order < r[j].control.order
            || (r[i].control.order == r[j].control.order && LexLess(Key(r[i].control.uuid), Key(r[j].control.uuid))))
  {
    SortedControlsCover(s.characteristics);
    SortedControlsOrdered(s.characteristics);
  }

  lemma {:induction false} SortedControlsCover(cs: seq<CM.Characteristic>)
    ensures var r := Items(SortBy(cs, CharacteristicKeys(cs)));
      |r| == |cs|
      && (forall i :: 0 <= i < |r| ==> r[i] in cs)
      && (forall c :: c in cs ==> c in r)
  {
    var keys := CharacteristicKeys(cs);
    var e := SortBy(cs, keys);
    var r := Items(e);
    SortByIsStableSort(cs, keys);
    forall c | c in cs ensures c in r {
      var p :| 0 <= p < |cs| && cs[p] == c;
      assert Entry(keys[p], p, cs[p]) in e;
      var i :| 0 <= i < |e| && e[i] == Entry(keys[p], p, cs[p]);
      assert r[i] == c;
    }
  }

  lemma {:induction false} SortedControlsOrdered(cs: seq<CM.Characteristic>)
    requires forall i, j :: 0 <= i < j < |cs| ==> cs[i].control.uuid != cs[j].control.uuid
    ensures var r := Items(SortBy(cs, CharacteristicKeys(cs)));
      forall i, j :: 0 <= i < j < |r| ==>
        r[i].control.order < r[j].control.order
        || (r[i].control.order == r[j].control.order && LexLess(Key(r[i].control.uuid), Key(r[j].control.uuid)))
  {
    var keys := CharacteristicKeys(cs);
    var e := SortBy(cs, keys);
    var r := Items(e);
    SortByIsStableSort(cs, keys);
    forall i, j | 0 <= i < j < |r|
      ensures r[i].control.order < r[j].control.order
        || (r[i].control.order == r[j].control.order && LexLess(Key(r[i].control.uuid), Key(r[j].control.uuid)))
    {
      var a, b := e[i].position, e[j].position;
      assert a != b;
      assert r[i] == cs[a] && r[j] == cs[b];
      assert keys[a].secondary != keys[b].secondary by {
        if Key(cs[a].control.uuid) == Key(cs[b].control.uuid) {
          KeyInjective(cs[a].control.uuid, cs[b].control.uuid);
        }
      }
      LexTotal(keys[a].secondary, keys[b].secondary);
    }
  }

  /** `setupServiceModel`: the service model when at least one
      characteristic has a control, null otherwise. Each control is a new
      object writing through the callback bound to this service. */
  method SetupServiceModel(service: GattService, ds: seq<DescriptorValue>, readOnly: bool, outbox: CM.Outbox)
    returns (r: Option<ServiceModel>)
    ensures r.None? <==> ServiceControls(service, ds, readOnly) == []
    ensures r.Some? ==> fresh(r.value) && r.value.Valid() && r.value.uuid == service.uuid
    ensures r.Some? ==> r.value.Controls() == ServiceControls(service, ds, readOnly)
    ensures r.Some? ==> (|r.value.characteristics| == |ServiceControls(service, ds, readOnly)|
      && forall i :: 0 <= i < |r.value.characteristics| ==>
        var c := r.value.characteristics[i];
        fresh(c) && c.control == ServiceControls(service, ds, readOnly)[i].1
        && c.outbox == outbox && c.value == CM.InitialValue(c.control.kind))
  {
    var controls := ServiceControls(service, ds, readOnly);
    ServiceControlsWellFormed(service, ds, readOnly);
    if controls == [] {
      return None;
    }
    var cs: seq<CM.Characteristic> := [];
    for i := 0 to |controls|
      invariant |cs| == i
      invariant forall j :: 0 <= j < i ==>
        fresh(cs[j]) && cs[j].control == controls[j].1 && cs[j].serviceUuid == service.uuid
        && cs[j].outbox == outbox && cs[j].value == CM.InitialValue(cs[j].control.kind)
    {
      var c := new CM.Characteristic(service.uuid, controls[i].1, outbox);
      cs := cs + [c];
    }
    var m := new ServiceModel(service.uuid, cs);
    forall j, k | 0 <= j < k < |cs| ensures cs[j].control.uuid != cs[k].control.uuid {
      assert controls[j] in controls && controls[k] in controls;
    }
    assert m.Controls() == controls by {
      forall j | 0 <= j < |cs| ensures m.Controls()[j] == controls[j] {
        assert controls[j] in controls;
      }
    }
    r := Some(m);
  }
}
