// DeviceModel: the service models of one device, keyed by service UUID,
// and `setupDeviceModel`, which builds one service model per discovered
// service and keeps those that have at least one control.
module DeviceModel {
  import opened Bytes
  import opened Outcomes
  import opened Uuids
  import opened Codecs
  import opened Gatt
  import opened Associations
  import opened Sorting
  import CM = CharacteristicModel
  import SM = ServiceModel
  import DescriptorValueModel

  type DescriptorValue = DescriptorValueModel.DescriptorValue

  /** `ServiceCharacteristicValueModel`: bytes read from or notified by one
      characteristic of one service. */
  datatype ServiceCharacteristicValue = ServiceCharacteristicValue(serviceUuid: Uuid, characteristicUuid: Uuid, value: seq<Byte>)

  /** The value a control holds after one update has been routed to the
      device: a control of the addressed service and characteristic decodes
      the bytes (the error control ignores them); every other control keeps
      its value. */
  function AfterUpdate(serviceUuid: Uuid, control: CM.Control, value: Option<Value>, u: ServiceCharacteristicValue): Option<Value>
  {
    if u.serviceUuid == serviceUuid && u.characteristicUuid == control.uuid && !control.kind.Error?
    then Some(Decode(CM.CodecOf(control.kind), u.value))
    else value
  }

  /** The value after a list of updates, applied in order. */
  function AfterUpdates(serviceUuid: Uuid, control: CM.Control, value: Option<Value>, us: seq<ServiceCharacteristicValue>): Option<Value>
  {
    if us == [] then value
    else AfterUpdate(serviceUuid, control, AfterUpdates(serviceUuid, control, value, us[..|us| - 1]), us[|us| - 1])
  }

  predicate AddressedTo(u: ServiceCharacteristicValue, serviceUuid: Uuid, characteristicUuid: Uuid)
  {
    u.serviceUuid == serviceUuid && u.characteristicUuid == characteristicUuid
  }

  /** No update after index i is addressed to this characteristic. */
  predicate NoLaterUpdate(us: seq<ServiceCharacteristicValue>, i: int, serviceUuid: Uuid, characteristicUuid: Uuid)
  {
    forall j :: 0 <= j < |us| && i < j ==> !AddressedTo(us[j], serviceUuid, characteristicUuid)
  }

  /** The bytes of the last update addressed to this characteristic. */
  function LastUpdateFor(serviceUuid: Uuid, characteristicUuid: Uuid, us: seq<ServiceCharacteristicValue>): (r: Option<seq<Byte>>)
    ensures r.None? <==> NoLaterUpdate(us, -1, serviceUuid, characteristicUuid)
    ensures r.Some? ==>
      exists i :: 0 <= i < |us| && us[i] == ServiceCharacteristicValue(serviceUuid, characteristicUuid, r.value)
        && NoLaterUpdate(us, i, serviceUuid, characteristicUuid)
  {
    if us == [] then None
    else
      var n := |us| - 1;
      if AddressedTo(us[n], serviceUuid, characteristicUuid) then Some(us[n].value)
      else
        var r := LastUpdateFor(serviceUuid, characteristicUuid, us[..n]);
        assert forall i :: -1 <= i < n ==>
          (NoLaterUpdate(us, i, serviceUuid, characteristicUuid) <==> NoLaterUpdate(us[..n], i, serviceUuid, characteristicUuid)) by {
          assert forall j :: 0 <= j < n ==> us[..n][j] == us[j];
        }
        r
  }

  /** A batch of updates leaves each control holding the decoding of the
      last update addressed to it, or its old value when none is; the error
      control never changes. */
  lemma {:induction false} LastUpdateWins(serviceUuid: Uuid, control: CM.Control, value: Option<Value>, us: seq<ServiceCharacteristicValue>)
    ensures AfterUpdates(serviceUuid, control, value, us) ==
      if control.kind.Error? then value
      else match LastUpdateFor(serviceUuid, control.uuid, us)
        case Some(bytes) => Some(Decode(CM.CodecOf(control.kind), bytes))
        case None => value
  {
    if us != [] {
      LastUpdateWins(serviceUuid, control, value, us[..|us| - 1]);
    }
  }

  /** The characteristic objects of a list of service models. */
  ghost function Footprint(ss: seq<SM.ServiceModel>): set<object>
  {
    set s, c | s in ss && c in s.characteristics :: c
  }

  /** The characteristic objects of one service model, if any. */
  ghost function Objects(o: Option<SM.ServiceModel>): set<object>
  {
    if o.Some? then set c | c in o.value.characteristics :: c as object else {}
  }

  lemma {:induction false} ObjectsHold(s: SM.ServiceModel, j: int)
    requires 0 <= j < |s.characteristics|
    ensures s.characteristics[j] in Objects(Some(s))
  {
    assert s.characteristics[j] in s.characteristics;
  }

  /** `getServices` sorts by name, then by order. */
  function NameKeys(ss: seq<SM.ServiceModel>): (r: seq<SortKey>)
    reads Footprint(ss)
    ensures |r| == |ss|
    ensures forall i :: 0 <= i < |ss| ==> r[i] == SortKey(ss[i].Order(), CodePoints(ss[i].Name()))
  {
    if ss == [] then []
    else
      FootprintSplits(ss);
      [SortKey(ss[0].Order(), CodePoints(ss[0].Name()))] + NameKeys(ss[1..])
  }

  /** The footprint of a list covers its head's characteristics and its tail's footprint. */
  lemma {:induction false} FootprintSplits(ss: seq<SM.ServiceModel>)
    requires ss != []
    ensures forall c :: c in ss[0].characteristics ==> c in Footprint(ss)
    ensures Footprint(ss[1..]) <= Footprint(ss)
  {
    assert ss[0] in ss;
    forall c | c in Footprint(ss[1..]) ensures c in Footprint(ss) {
      var s :| s in ss[1..] && c in s.characteristics;
      assert s in ss;
    }
  }

  function CodePoints(s: string): (r: seq<int>)
    ensures |r| == |s| && forall i :: 0 <= i < |s| ==> r[i] == s[i] as int
  {
    seq(|s|, i requires 0 <= i < |s| => s[i] as int)
  }

  /** Distinct strings have distinct code point sequences. */
  lemma {:induction false} CodePointsInjective(a: string, b: string)
    requires CodePoints(a) == CodePoints(b)
    ensures a == b
  {
    assert |a| == |b|;
    forall i | 0 <= i < |a| ensures a[i] == b[i] {
      assert CodePoints(a)[i] == CodePoints(b)[i];
    }
  }

  class DeviceModel {
    /** The map's values in iteration order; each is keyed by its UUID. */
    const services: seq<SM.ServiceModel>

    /** The map's keys are distinct, every service model is well formed, and
        no characteristic object is shared between two services. */
    ghost predicate Valid()
    {
      (forall i, j :: 0 <= i < j < |services| ==> services[i].uuid != services[j].uuid)
      && (forall i :: 0 <= i < |services| ==> services[i].Valid())
      && forall i, j :: 0 <= i < |services| && 0 <= j < |services| && i != j ==>
        Objects(Some(services[i])) !! Objects(Some(services[j]))
    }

    constructor (services: seq<SM.ServiceModel>)
      ensures this.services == services
    {
      this.services := services;
    }

    /** The map: each service's controls under its UUID. */
    function ServiceMap(): (r: seq<(Uuid, seq<(Uuid, CM.Control)>)>)
      ensures |r| == |services|
      ensures forall i :: 0 <= i < |r| ==> r[i] == (services[i].uuid, services[i].Controls())
    {
      seq(|services|, i requires 0 <= i < |services| => (services[i].uuid, services[i].Controls()))
    }

    function IndexOf(ss: seq<SM.ServiceModel>, u: Uuid): (r: Option<nat>)
      ensures r.None? <==> forall i :: 0 <= i < |ss| ==> ss[i].uuid != u
      ensures r.Some? ==> r.value < |ss| && ss[r.value].uuid == u
    {
      if ss == [] then None
      else if ss[0].uuid == u then Some(0)
      else
        match IndexOf(ss[1..], u)
        case None => None
        case Some(i) => Some(i + 1)
    }

    /** `getService(uuid)` */
    function GetService(u: Uuid): (r: Option<SM.ServiceModel>)
      ensures r.None? <==> forall i :: 0 <= i < |services| ==> services[i].uuid != u
      ensures r.Some? ==> r.value in services && r.value.uuid == u
    {
      match IndexOf(services, u)
      case Some(i) => Some(services[i])
      case None => None
    }

    /** `getServices()` */
    function GetServices(): seq<SM.ServiceModel>
      reads Footprint(services)
    {
      Items(SortBy(services, NameKeys(services)))
    }

    /** `setCharacteristicValue`: routes the bytes to the addressed service;
        an update for an unknown service changes nothing. */
    method SetCharacteristicValue(u: ServiceCharacteristicValue)
      requires Valid()
      modifies Footprint(services)
      ensures forall i, j :: 0 <= i < |services| && 0 <= j < |services[i].characteristics| ==>
        services[i].characteristics[j].value ==
          AfterUpdate(services[i].uuid, services[i].characteristics[j].control, old(services[i].characteristics[j].value), u)
    {
      var found := IndexOf(services, u.serviceUuid);
      if found.Some? {
        var s := services[found.value];
        assert forall c :: c in s.characteristics ==> c in Footprint(services) by {
          assert s in services;
        }
        s.SetCharacteristicValue(u.characteristicUuid, u.value);
      }
    }

    /** `setCharacteristicValues`: the updates one after another. */
    method SetCharacteristicValues(us: seq<ServiceCharacteristicValue>)
      requires Valid()
      modifies Footprint(services)
      ensures forall i, j :: 0 <= i < |services| && 0 <= j < |services[i].characteristics| ==>
        services[i].characteristics[j].value ==
          AfterUpdates(services[i].uuid, services[i].characteristics[j].control, old(services[i].characteristics[j].value), us)
    {
      for k := 0 to |us|
        invariant forall i, j :: 0 <= i < |services| && 0 <= j < |services[i].characteristics| ==>
          services[i].characteristics[j].value ==
            AfterUpdates(services[i].uuid, services[i].characteristics[j].control, old(services[i].characteristics[j].value), us[..k])
      {
        SetCharacteristicValue(us[k]);
        assert us[..k + 1][..k] == us[..k];
      }
      assert us[..|us|] == us;
    }
  }

  /** Every service is found under its own UUID. */
  lemma {:induction false} GetServiceFindsEach(d: DeviceModel, i: int)
    requires d.Valid() && 0 <= i < |d.services|
    ensures d.GetService(d.services[i].uuid) == Some(d.services[i])
  {
    var r := d.GetService(d.services[i].uuid);
    var j :| 0 <= j < |d.services| && d.services[j] == r.value;
    assert d.services[j].uuid == d.services[i].uuid;
  }

  /** `getServices` lists every service once. */
  lemma {:induction false} GetServicesPermutation(d: DeviceModel)
    ensures var r := d.GetServices();
      |r| == |d.services|
      && (forall i :: 0 <= i < |r| ==> r[i] in d.services)
      && (forall s :: s in d.services ==> s in r)
  {
    var ss := d.services;
    var keys := NameKeys(ss);
    var e := SortBy(ss, keys);
    var r := d.GetServices();
    SortByIsStableSort(ss, keys);
    forall i | 0 <= i < |r| ensures r[i] in ss {
      assert r[i] == ss[e[i].position];
    }
    forall s | s in ss ensures s in r {
      var p :| 0 <= p < |ss| && ss[p] == s;
      assert Entry(keys[p], p, ss[p]) in e;
      var i :| 0 <= i < |e| && e[i] == Entry(keys[p], p, ss[p]);
      assert r[i] == s;
    }
  }

  /** `getServices` orders by order and, within one order, by name. */
  lemma {:induction false} GetServicesOrdered(d: DeviceModel, i: int, j: int)
    requires 0 <= i < j < |d.GetServices()|
    ensures var r := d.GetServices();
      r[i].Order() < r[j].Order()
      || (r[i].Order() == r[j].Order() && !LexLess(CodePoints(r[j].Name()), CodePoints(r[i].Name())))
  {
    var ss := d.services;
    var keys := NameKeys(ss);
    var e := SortBy(ss, keys);
    var r := d.GetServices();
    SortByIsStableSort(ss, keys);
    assert !KeyLess(e[j].key, e[i].key);
    assert r[i] == ss[e[i].position] && r[j] == ss[e[j].position];
  }

  /** Services with the same order and name keep the map's order. */
  lemma {:induction false} GetServicesStable(d: DeviceModel, i: int, j: int)
    requires 0 <= i < j < |d.GetServices()|
    requires d.GetServices()[i].Order() == d.GetServices()[j].Order()
    requires d.GetServices()[i].Name() == d.GetServices()[j].Name()
    ensures exists a, b :: 0 <= a < b < |d.services| && d.GetServices()[i] == d.services[a] && d.GetServices()[j] == d.services[b]
  {
    var ss := d.services;
    var keys := NameKeys(ss);
    var e := SortBy(ss, keys);
    var r := d.GetServices();
    SortByIsStableSort(ss, keys);
    assert r[i] == ss[e[i].position] && r[j] == ss[e[j].position];
    assert e[i].key == e[j].key;
  }

  /** Whether a discovered service got a model, and with which controls. */
  function ServiceEntry(service: GattService, ds: seq<DescriptorValue>, readOnly: bool): (Uuid, Option<seq<(Uuid, CM.Control)>>)
  {
    var controls := SM.ServiceControls(service, ds, readOnly);
    (service.uuid, if controls == [] then None else Some(controls))
  }

  function ServiceEntries(gs: seq<GattService>, ds: seq<DescriptorValue>, readOnly: bool): (r: seq<(Uuid, Option<seq<(Uuid, CM.Control)>>)>)
    ensures |r| == |gs| && forall i :: 0 <= i < |gs| ==> r[i] == ServiceEntry(gs[i], ds, readOnly)
  {
    seq(|gs|, i requires 0 <= i < |gs| => ServiceEntry(gs[i], ds, readOnly))
  }

  /** The device's map: associated by service UUID, services without a
      model dropped. */
  function DeviceControls(gs: seq<GattService>, ds: seq<DescriptorValue>, readOnly: bool): seq<(Uuid, seq<(Uuid, CM.Control)>)>
  {
    FilterSome(Associate(ServiceEntries(gs, ds, readOnly)))
  }

  /** The last discovered service with this UUID. */
  function LastService(gs: seq<GattService>, u: Uuid): (r: Option<GattService>)
    ensures r.None? <==> forall i :: 0 <= i < |gs| ==> gs[i].uuid != u
    ensures r.Some? ==> r.value in gs && r.value.uuid == u
  {
    if gs == [] then None
    else if gs[|gs| - 1].uuid == u then Some(gs[|gs| - 1])
    else
      var r := LastService(gs[..|gs| - 1], u);
      assert r.None? <==> forall i :: 0 <= i < |gs| ==> gs[i].uuid != u by {
        assert forall i :: 0 <= i < |gs| - 1 ==> gs[..|gs| - 1][i] == gs[i];
      }
      r
  }

  lemma {:induction false} LastServiceEntry(gs: seq<GattService>, ds: seq<DescriptorValue>, readOnly: bool, u: Uuid)
    ensures Last(ServiceEntries(gs, ds, readOnly), u) ==
      match LastService(gs, u)
      case None => None
      case Some(g) => Some(ServiceEntry(g, ds, readOnly).1)
  {
    if gs != [] {
      assert ServiceEntries(gs, ds, readOnly)[..|gs| - 1] == ServiceEntries(gs[..|gs| - 1], ds, readOnly);
      LastServiceEntry(gs[..|gs| - 1], ds, readOnly, u);
    }
  }

  /** A UUID is in the device's map exactly when the last discovered service
      with that UUID has a control; it then holds that service's controls. */
  lemma {:induction false} DeviceControlsLookup(gs: seq<GattService>, ds: seq<DescriptorValue>, readOnly: bool, u: Uuid)
    ensures Lookup(DeviceControls(gs, ds, readOnly), u) ==
      match LastService(gs, u)
      case None => None
      case Some(g) => if SM.ServiceControls(g, ds, readOnly) == [] then None else Some(SM.ServiceControls(g, ds, readOnly))
  {
    var es := ServiceEntries(gs, ds, readOnly);
    AssociateKeys(es);
    AssociateLookup(es, u);
    LastServiceEntry(gs, ds, readOnly, u);
    LookupFilterSome(Associate(es), u);
  }

  /** The controls a service model holds, or null for no model. */
  function ModelControls(o: Option<SM.ServiceModel>): Option<seq<(Uuid, CM.Control)>>
  {
    MapOption(o, (s: SM.ServiceModel) => s.Controls())
  }

  /** The `associate` step's pairs: each discovered service's UUID with
      the model built for it, or null. */
  method SetupServiceModels(gs: seq<GattService>, ds: seq<DescriptorValue>, readOnly: bool, outbox: CM.Outbox)
    returns (pairs: seq<(Uuid, Option<SM.ServiceModel>)>)
    ensures |pairs| == |gs|
    ensures forall i :: 0 <= i < |gs| ==>
      pairs[i].0 == gs[i].uuid && ModelControls(pairs[i].1) == ServiceEntry(gs[i], ds, readOnly).1
    ensures forall i :: 0 <= i < |gs| && pairs[i].1.Some? ==> pairs[i].1.value.Valid() && pairs[i].1.value.uuid == pairs[i].0
    ensures forall i :: 0 <= i < |gs| ==> fresh(Objects(pairs[i].1))
    ensures forall i :: 0 <= i < |gs| ==> InitialValues(pairs[i].1, outbox)
    ensures forall i, j :: 0 <= i < j < |gs| ==> Objects(pairs[i].1) !! Objects(pairs[j].1)
  {
    pairs := [];
    for k := 0 to |gs|
      invariant |pairs| == k
      invariant Built(pairs, gs, ds, readOnly)
      invariant forall i :: 0 <= i < k ==> fresh(Objects(pairs[i].1))
      invariant forall i :: 0 <= i < k ==> InitialValues(pairs[i].1, outbox)
    {
      pairs := AddServiceModel(pairs, gs, ds, readOnly, outbox);
    }
  }

  /** One step of `associate`'s input: the next service's UUID with the
      model built for it. */
  method AddServiceModel(pairs: seq<(Uuid, Option<SM.ServiceModel>)>, gs: seq<GattService>, ds: seq<DescriptorValue>,
                         readOnly: bool, outbox: CM.Outbox)
    returns (r: seq<(Uuid, Option<SM.ServiceModel>)>)
    requires Built(pairs, gs, ds, readOnly) && |pairs| < |gs|
    requires forall i :: 0 <= i < |pairs| ==> InitialValues(pairs[i].1, outbox)
    ensures |r| == |pairs| + 1 && r[..|pairs|] == pairs
    ensures Built(r, gs, ds, readOnly)
    ensures fresh(Objects(r[|pairs|].1))
    ensures forall i :: 0 <= i < |r| ==> InitialValues(r[i].1, outbox)
  {
    var k := |pairs|;
    var s := SM.SetupServiceModel(gs[k], ds, readOnly, outbox);
    forall i | 0 <= i < k ensures Objects(pairs[i].1) !! Objects(s) {
    }
    BuiltSnoc(pairs, (gs[k].uuid, s), gs, ds, readOnly);
    assert InitialValues(s, outbox);
    r := pairs + [(gs[k].uuid, s)];
    assert r[..k] == pairs;
  }

  /** The loop invariant of `SetupServiceModels` on the first |pairs|
      services, apart from freshness and the initial values. */
  ghost predicate Built(pairs: seq<(Uuid, Option<SM.ServiceModel>)>, gs: seq<GattService>, ds: seq<DescriptorValue>, readOnly: bool)
  {
    |pairs| <= |gs|
    && (forall i :: 0 <= i < |pairs| ==>
          pairs[i].0 == gs[i].uuid && ModelControls(pairs[i].1) == ServiceEntry(gs[i], ds, readOnly).1)
    && (forall i :: 0 <= i < |pairs| && pairs[i].1.Some? ==> pairs[i].1.value.Valid() && pairs[i].1.value.uuid == pairs[i].0)
    && Disjoint(pairs)
  }

  /** No two service models share a characteristic object. */
  ghost predicate Disjoint(pairs: seq<(Uuid, Option<SM.ServiceModel>)>)
  {
    forall i, j :: 0 <= i < j < |pairs| ==> Objects(pairs[i].1) !! Objects(pairs[j].1)
  }

  lemma {:induction false} DisjointSnoc(pairs: seq<(Uuid, Option<SM.ServiceModel>)>, x: (Uuid, Option<SM.ServiceModel>))
    requires Disjoint(pairs)
    requires forall i :: 0 <= i < |pairs| ==> Objects(pairs[i].1) !! Objects(x.1)
    ensures Disjoint(pairs + [x])
  {
    var r := pairs + [x];
    forall i, j | 0 <= i < j < |r| ensures Objects(r[i].1) !! Objects(r[j].1) {
      assert r[i] == pairs[i];
    }
  }

  lemma {:induction false} BuiltSnoc(pairs: seq<(Uuid, Option<SM.ServiceModel>)>, x: (Uuid, Option<SM.ServiceModel>),
                                     gs: seq<GattService>, ds: seq<DescriptorValue>, readOnly: bool)
    requires Built(pairs, gs, ds, readOnly) && |pairs| < |gs|
    requires x.0 == gs[|pairs|].uuid
    requires x.1.None? <==> SM.ServiceControls(gs[|pairs|], ds, readOnly) == []
    requires x.1.Some? ==> x.1.value.Valid() && x.1.value.uuid == x.0 && x.1.value.Controls() == SM.ServiceControls(gs[|pairs|], ds, readOnly)
    requires forall i :: 0 <= i < |pairs| ==> Objects(pairs[i].1) !! Objects(x.1)
    ensures Built(pairs + [x], gs, ds, readOnly)
  {
    var r := pairs + [x];
    assert forall i :: 0 <= i < |pairs| ==> r[i] == pairs[i];
    assert ModelControls(x.1) == ServiceEntry(gs[|pairs|], ds, readOnly).1;
    DisjointSnoc(pairs, x);
  }

  /** `setupDeviceModel`: a service model for every discovered service that
      has a control, each built from new objects whose values are still
      unset. */
  method SetupDeviceModel(gs: seq<GattService>, ds: seq<DescriptorValue>, readOnly: bool, outbox: CM.Outbox)
    returns (r: DeviceModel)
    ensures fresh(r) && r.Valid()
    ensures r.ServiceMap() == DeviceControls(gs, ds, readOnly)
    ensures forall i :: 0 <= i < |r.services| ==>
      fresh(Objects(Some(r.services[i]))) && InitialValues(Some(r.services[i]), outbox)
  {
    var pairs := SetupServiceModels(gs, ds, readOnly, outbox);
    var m := FilterSome(Associate(pairs));
    SetupOrigins(pairs, m);
    SetupDisjoint(pairs, m);
    SetupMap(gs, ds, readOnly, pairs);
    var services := seq(|m|, i requires 0 <= i < |m| => m[i].1);
    r := new DeviceModel(services);
    assert r.ServiceMap() == DeviceControls(gs, ds, readOnly);
    forall i | 0 <= i < |services|
      ensures fresh(Objects(Some(services[i]))) && InitialValues(Some(services[i]), outbox)
    {
      var p :| 0 <= p < |pairs| && pairs[p] == (m[i].0, Some(m[i].1));
      assert pairs[p].1 == Some(services[i]);
    }
  }

  /** Every control of the model writes to the outbox and holds its
      initial value. */
  ghost predicate InitialValues(o: Option<SM.ServiceModel>, outbox: CM.Outbox)
    reads if o.Some? then o.value.characteristics else []
  {
    o.Some? ==> forall a :: 0 <= a < |o.value.characteristics| ==>
      var c := o.value.characteristics[a];
      c.outbox == outbox && c.value == CM.InitialValue(c.control.kind)
  }

  /** Each service model in the map is the model built for one discovered
      service, kept under that service's UUID. */
  lemma {:induction false} SetupOrigins(pairs: seq<(Uuid, Option<SM.ServiceModel>)>, m: seq<(Uuid, SM.ServiceModel)>)
    requires forall i :: 0 <= i < |pairs| && pairs[i].1.Some? ==> pairs[i].1.value.Valid() && pairs[i].1.value.uuid == pairs[i].0
    requires m == FilterSome(Associate(pairs))
    ensures forall i :: 0 <= i < |m| ==> exists p :: 0 <= p < |pairs| && pairs[p] == (m[i].0, Some(m[i].1))
    ensures forall i :: 0 <= i < |m| ==> m[i].1.Valid() && m[i].1.uuid == m[i].0
    ensures DistinctKeys(m)
  {
    FilterAssociateSpec(pairs);
    forall i | 0 <= i < |m| ensures exists p :: 0 <= p < |pairs| && pairs[p] == (m[i].0, Some(m[i].1)) {
      assert m[i] in m;
    }
  }

  /** Service models built from different discovered services share no
      characteristic object. */
  lemma {:induction false} SetupDisjoint(pairs: seq<(Uuid, Option<SM.ServiceModel>)>, m: seq<(Uuid, SM.ServiceModel)>)
    requires forall i, j :: 0 <= i < j < |pairs| ==> Objects(pairs[i].1) !! Objects(pairs[j].1)
    requires forall i :: 0 <= i < |m| ==> exists p :: 0 <= p < |pairs| && pairs[p] == (m[i].0, Some(m[i].1))
    requires DistinctKeys(m)
    ensures forall i, j :: 0 <= i < |m| && 0 <= j < |m| && i != j ==> Objects(Some(m[i].1)) !! Objects(Some(m[j].1))
  {
    forall i, j | 0 <= i < |m| && 0 <= j < |m| && i != j
      ensures Objects(Some(m[i].1)) !! Objects(Some(m[j].1))
    {
      var p :| 0 <= p < |pairs| && pairs[p] == (m[i].0, Some(m[i].1));
      var q :| 0 <= q < |pairs| && pairs[q] == (m[j].0, Some(m[j].1));
      assert p != q;
      if p < q {
        assert Objects(pairs[p].1) !! Objects(pairs[q].1);
      } else {
        assert Objects(pairs[q].1) !! Objects(pairs[p].1);
      }
    }
  }

  lemma {:induction false} SetupMap(gs: seq<GattService>, ds: seq<DescriptorValue>, readOnly: bool,
                   pairs: seq<(Uuid, Option<SM.ServiceModel>)>)
    requires |pairs| == |gs|
    requires forall i :: 0 <= i < |gs| ==>
      pairs[i].0 == gs[i].uuid && ModelControls(pairs[i].1) == ServiceEntry(gs[i], ds, readOnly).1
    ensures var m := FilterSome(Associate(pairs));
      |m| == |DeviceControls(gs, ds, readOnly)|
      && forall i :: 0 <= i < |m| ==> (m[i].0, m[i].1.Controls()) == DeviceControls(gs, ds, readOnly)[i]
  {
    var f := (s: SM.ServiceModel) => s.Controls();
    var a := Associate(pairs);
    assert MapValues(pairs, ModelControls) == ServiceEntries(gs, ds, readOnly);
    AssociateMapValues(pairs, ModelControls);
    FilterSomeMapValues(a, f, ModelControls);
  }
}
