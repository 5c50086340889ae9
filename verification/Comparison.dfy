// Comparing NetBox inventory with live devices (backend/app/comparison/comparator.py, engine.py).

module Comparison {
  import opened Common
  import opened OrderedDicts
  import opened Snapshots
  import opened Differences
  import opened Matching
  import NetBox

  // ------------------------------------------------------------- lists of lists

  function FlatMap<T(!new), U(!new)>(items: seq<T>, f: T -> seq<U>): seq<U> {
    if items == [] then []
    else FlatMap(items[..|items| - 1], f) + f(items[|items| - 1])
  }

  lemma FlatMapStep<T(!new), U(!new)>(items: seq<T>, i: nat, f: T -> seq<U>)
    requires i < |items|
    ensures FlatMap(items[..i + 1], f) == FlatMap(items[..i], f) + f(items[i])
  {
    assert items[..i + 1][..i] == items[..i];
  }

  lemma {:induction false} FlatMapHas<T(!new), U(!new)>(items: seq<T>, f: T -> seq<U>, u: U)
    ensures u in FlatMap(items, f) <==> exists i :: 0 <= i < |items| && u in f(items[i])
  {
    if items != [] {
      var front := items[..|items| - 1];
      FlatMapHas(front, f, u);
      if u in FlatMap(front, f) {
        var i :| 0 <= i < |front| && u in f(front[i]);
        assert u in f(items[i]);
      }
      if i :| 0 <= i < |items| && u in f(items[i]) {
        assert i < |front| ==> u in f(front[i]);
      }
    }
  }

  /** Nothing comes out exactly when no item gives anything. */
  lemma {:induction false} FlatMapEmpty<T(!new), U(!new)>(items: seq<T>, f: T -> seq<U>)
    ensures FlatMap(items, f) == [] <==> forall i | 0 <= i < |items| :: f(items[i]) == []
  {
    if items != [] {
      var front := items[..|items| - 1];
      FlatMapEmpty(front, f);
      assert forall i | 0 <= i < |front| :: front[i] == items[i];
    }
  }

  // ------------------------------------------------------------------ builders

  function MissingDiff(subjectType: string, id: string, expected: string): Difference {
    Difference(DifferenceType.Missing, subjectType, id, None, Some(Text(expected)), None)
  }

  function UnexpectedDiff(subjectType: string, id: string, observed: string): Difference {
    Difference(DifferenceType.Unexpected, subjectType, id, None, None, Some(Text(observed)))
  }

  function ModifiedDiff(subjectType: string, id: string, field: string, expected: Value, observed: Value): Difference {
    Difference(DifferenceType.Modified, subjectType, id, Some(field), Some(expected), Some(observed))
  }

  function DuplicateDiff(name: string): Difference {
    Difference(DifferenceType.Duplicate, "device", name, None, None, Some(Text(name)))
  }

  // ------------------------------------------------------------------- identity

  function DuplicateOf(name: string): seq<Difference> {
    [DuplicateDiff(name)]
  }

  method CompareIdentity(m: Match) returns (r: seq<Difference>)
    ensures r == FlatMap(m.duplicateNetBox, DuplicateOf) + FlatMap(m.duplicateLive, DuplicateOf)
  {
    r := [];
    for i := 0 to |m.duplicateNetBox|
      invariant r == FlatMap(m.duplicateNetBox[..i], DuplicateOf)
    {
      FlatMapStep(m.duplicateNetBox, i, DuplicateOf);
      r := r + [DuplicateDiff(m.duplicateNetBox[i])];
    }
    assert m.duplicateNetBox[..|m.duplicateNetBox|] == m.duplicateNetBox;
    ghost var first := r;
    for i := 0 to |m.duplicateLive|
      invariant r == first + FlatMap(m.duplicateLive[..i], DuplicateOf)
    {
      FlatMapStep(m.duplicateLive, i, DuplicateOf);
      r := r + [DuplicateDiff(m.duplicateLive[i])];
    }
    assert m.duplicateLive[..|m.duplicateLive|] == m.duplicateLive;
  }

  // -------------------------------------------------------------------- devices

  /** A device field differs when both sides have one and they differ once normalized. */
  function DeviceField(norm: Normalizer, id: string, field: string, expected: Option<string>, observed: Option<string>)
    : seq<Difference>
  {
    var e, o := Normalized(norm, expected), Normalized(norm, observed);
    if expected.None? || observed.None? || e == "" || o == "" || e == o then []
    else [ModifiedDiff("device", id, field, Text(expected.value), Text(observed.value))]
  }

  function MatchedDevice(norm: Normalizer): Pair -> seq<Difference> {
    (pair: Pair) =>
      DeviceField(norm, pair.0.name, "serial", pair.0.serial, pair.1.serial)
      + DeviceField(norm, pair.0.name, "primary_ip", pair.0.primaryIp, pair.1.managementIp)
      + DeviceField(norm, pair.0.name, "model", Some(pair.0.model), pair.1.model)
  }

  function MissingDevice(d: NetBox.Device): seq<Difference> {
    [MissingDiff("device", d.name, d.name)]
  }

  function UnexpectedDevice(d: LiveDevice): seq<Difference> {
    [UnexpectedDiff("device", d.name, d.name)]
  }

  method MissingDevices(devices: seq<NetBox.Device>) returns (r: seq<Difference>)
    ensures r == FlatMap(devices, MissingDevice)
  {
    r := [];
    for i := 0 to |devices|
      invariant r == FlatMap(devices[..i], MissingDevice)
    {
      FlatMapStep(devices, i, MissingDevice);
      r := r + [MissingDiff("device", devices[i].name, devices[i].name)];
    }
    assert devices[..|devices|] == devices;
  }

  method UnexpectedDevices(devices: seq<LiveDevice>) returns (r: seq<Difference>)
    ensures r == FlatMap(devices, UnexpectedDevice)
  {
    r := [];
    for i := 0 to |devices|
      invariant r == FlatMap(devices[..i], UnexpectedDevice)
    {
      FlatMapStep(devices, i, UnexpectedDevice);
      r := r + [UnexpectedDiff("device", devices[i].name, devices[i].name)];
    }
    assert devices[..|devices|] == devices;
  }

  method CompareDevices(norm: Normalizer, m: Match) returns (r: seq<Difference>)
    ensures r == FlatMap(m.missing, MissingDevice) + FlatMap(m.unexpected, UnexpectedDevice)
      + FlatMap(m.matched, MatchedDevice(norm))
  {
    var missing := MissingDevices(m.missing);
    var unexpected := UnexpectedDevices(m.unexpected);
    var modified := [];
    for i := 0 to |m.matched|
      invariant modified == FlatMap(m.matched[..i], MatchedDevice(norm))
    {
      FlatMapStep(m.matched, i, MatchedDevice(norm));
      var found := CompareMatchedDevice(norm, m.matched[i]);
      modified := modified + found;
    }
    assert m.matched[..|m.matched|] == m.matched;
    r := missing + unexpected + modified;
  }

  method CompareMatchedDevice(norm: Normalizer, pair: Pair) returns (r: seq<Difference>)
    ensures r == MatchedDevice(norm)(pair)
  {
    r := AppendModified(norm, [], pair.0.name, "serial", pair.0.serial, pair.1.serial);
    r := AppendModified(norm, r, pair.0.name, "primary_ip", pair.0.primaryIp, pair.1.managementIp);
    r := AppendModified(norm, r, pair.0.name, "model", Some(pair.0.model), pair.1.model);
  }

  method AppendModified(
    norm: Normalizer, before: seq<Difference>, id: string, field: string, expected: Option<string>, observed: Option<string>)
    returns (r: seq<Difference>)
    ensures r == before + DeviceField(norm, id, field, expected, observed)
  {
    var e, o := Normalized(norm, expected), Normalized(norm, observed);
    if e == "" || o == "" || e == o {
      return before;
    }
    r := before + [ModifiedDiff("device", id, field, Text(expected.value), Text(observed.value))];
  }

  // ------------------------------------------------------------------- platform

  predicate Within(needle: string, text: string) {
    exists i | 0 <= i <= |text| :: StartsAt(needle, text, i)
  }

  predicate StartsAt(needle: string, text: string, i: nat) {
    i + |needle| <= |text| && text[i..i + |needle|] == needle
  }

  predicate PlatformsAgree(norm: Normalizer, expected: Option<string>, observed: Option<string>) {
    expected.None? || observed.None? || Within(norm(expected.value), norm(observed.value))
  }

  function Platform(norm: Normalizer): Pair -> seq<Difference> {
    (pair: Pair) =>
      if PlatformsAgree(norm, pair.0.platform, pair.1.platform) then []
      else [ModifiedDiff("platform", pair.0.name, "platform", Text(pair.0.platform.value), Text(pair.1.platform.value))]
  }

  method ComparePlatforms(norm: Normalizer, m: Match) returns (r: seq<Difference>)
    ensures r == FlatMap(m.matched, Platform(norm))
  {
    r := [];
    for i := 0 to |m.matched|
      invariant r == FlatMap(m.matched[..i], Platform(norm))
    {
      FlatMapStep(m.matched, i, Platform(norm));
      var (device, live) := m.matched[i];
      if !PlatformsAgree(norm, device.platform, live.platform) {
        r := r + [ModifiedDiff("platform", device.name, "platform", Text(device.platform.value), Text(live.platform.value))];
      }
    }
    assert m.matched[..|m.matched|] == m.matched;
  }

  // ----------------------------------------------------------------- interfaces

  function NetBoxKey(norm: Normalizer): NetBox.Interface -> string {
    (i: NetBox.Interface) => norm(i.name)
  }

  function LiveKey(norm: Normalizer): LiveInterface -> string {
    (i: LiveInterface) => norm(i.name)
  }

  function AdminField(id: string, n: NetBox.Interface, l: LiveInterface): seq<Difference> {
    if l.adminStatus.Some? && l.adminStatus.value != "" && l.adminStatus.value != (if n.enabled then "up" else "down")
    then [ModifiedDiff("interface", id, "enabled", Flag(n.enabled), Text(l.adminStatus.value))]
    else []
  }

  /** An interface field differs when both sides have a non-empty one and they differ once
      normalized. */
  function InterfaceField(norm: Normalizer, id: string, field: string, expected: Option<string>, observed: Option<string>)
    : seq<Difference>
  {
    if expected.None? || observed.None? || expected.value == "" || observed.value == "" then []
    else if norm(expected.value) == norm(observed.value) then []
    else [ModifiedDiff("interface", id, field, Text(expected.value), Text(observed.value))]
  }

  function InterfaceDiffs(norm: Normalizer, id: string, n: NetBox.Interface, l: LiveInterface): seq<Difference> {
    AdminField(id, n, l) + InterfaceField(norm, id, "mac_address", n.macAddress, l.macAddress)
      + InterfaceField(norm, id, "description", n.description, l.description)
  }

  function ExpectedInterface(norm: Normalizer, device: string, netbox: Dict<string, NetBox.Interface>,
    live: Dict<string, LiveInterface>): string -> seq<Difference>
  {
    (key: string) =>
      if key !in netbox.items then []
      else
        var n := netbox.items[key];
        var id := device + ":" + n.name;
        if key in live.items then InterfaceDiffs(norm, id, n, live.items[key]) else [MissingDiff("interface", id, n.name)]
  }

  function ExtraInterface(device: string, netbox: Dict<string, NetBox.Interface>, live: Dict<string, LiveInterface>)
    : string -> seq<Difference>
  {
    (key: string) =>
      if key !in live.items || key in netbox.items then []
      else [UnexpectedDiff("interface", device + ":" + live.items[key].name, live.items[key].name)]
  }

  function Interfaces(norm: Normalizer): Pair -> seq<Difference> {
    (pair: Pair) =>
      var netbox := Build(pair.0.interfaces, NetBoxKey(norm));
      var live := Build(pair.1.interfaces, LiveKey(norm));
      FlatMap(netbox.keys, ExpectedInterface(norm, pair.0.name, netbox, live))
        + FlatMap(live.keys, ExtraInterface(pair.0.name, netbox, live))
  }

  method ExpectedInterfaces(norm: Normalizer, device: string, netbox: Dict<string, NetBox.Interface>,
    live: Dict<string, LiveInterface>) returns (r: seq<Difference>)
    requires netbox.Valid()
    ensures r == FlatMap(netbox.keys, ExpectedInterface(norm, device, netbox, live))
  {
    r := [];
    for i := 0 to |netbox.keys|
      invariant r == FlatMap(netbox.keys[..i], ExpectedInterface(norm, device, netbox, live))
    {
      FlatMapStep(netbox.keys, i, ExpectedInterface(norm, device, netbox, live));
      var n := netbox.items[netbox.keys[i]];
      var l := Get(live, netbox.keys[i]);
      var id := device + ":" + n.name;
      if l.None? {
        r := r + [MissingDiff("interface", id, n.name)];
        continue;
      }
      r := r + InterfaceDiffs(norm, id, n, l.value);
    }
    assert netbox.keys[..|netbox.keys|] == netbox.keys;
  }

  method ExtraInterfaces(device: string, netbox: Dict<string, NetBox.Interface>, live: Dict<string, LiveInterface>)
    returns (r: seq<Difference>)
    requires live.Valid()
    ensures r == FlatMap(live.keys, ExtraInterface(device, netbox, live))
  {
    r := [];
    for i := 0 to |live.keys|
      invariant r == FlatMap(live.keys[..i], ExtraInterface(device, netbox, live))
    {
      FlatMapStep(live.keys, i, ExtraInterface(device, netbox, live));
      if live.keys[i] !in netbox.items {
        var l := live.items[live.keys[i]];
        r := r + [UnexpectedDiff("interface", device + ":" + l.name, l.name)];
      }
    }
    assert live.keys[..|live.keys|] == live.keys;
  }

  method CompareDeviceInterfaces(norm: Normalizer, pair: Pair) returns (r: seq<Difference>)
    ensures r == Interfaces(norm)(pair)
  {
    var netbox := Build(pair.0.interfaces, NetBoxKey(norm));
    var live := Build(pair.1.interfaces, LiveKey(norm));
    var expected := ExpectedInterfaces(norm, pair.0.name, netbox, live);
    var extra := ExtraInterfaces(pair.0.name, netbox, live);
    r := expected + extra;
  }

  method CompareInterfaces(norm: Normalizer, m: Match) returns (r: seq<Difference>)
    ensures r == FlatMap(m.matched, Interfaces(norm))
  {
    r := [];
    for i := 0 to |m.matched|
      invariant r == FlatMap(m.matched[..i], Interfaces(norm))
    {
      FlatMapStep(m.matched, i, Interfaces(norm));
      var found := CompareDeviceInterfaces(norm, m.matched[i]);
      r := r + found;
    }
    assert m.matched[..|m.matched|] == m.matched;
  }

  // ---------------------------------------------------------------------- VLANs

  function Digits(n: nat): string {
    (if n < 10 then "" else Digits(n / 10)) + ["0123456789"[n % 10]]
  }

  function Decimal(n: int): string {
    if n < 0 then "-" + Digits(-n) else Digits(n)
  }

  function Vid(v: NetBox.Vlan): int { v.vid }

  function VlanId(v: LiveVlan): int { v.id }

  function VlansOf(d: LiveDevice): seq<LiveVlan> { d.vlans }

  function VlanNameDiff(norm: Normalizer, n: NetBox.Vlan, l: LiveVlan): seq<Difference> {
    if norm(n.name) == norm(l.name) then []
    else [ModifiedDiff("vlan", Decimal(n.vid), "name", Text(n.name), Text(l.name))]
  }

  function VlanStatusDiff(norm: Normalizer, n: NetBox.Vlan, l: LiveVlan): seq<Difference> {
    if n.status.None? || l.status.None? || n.status.value == "" || l.status.value == "" then []
    else if norm(n.status.value) == norm(l.status.value) then []
    else [ModifiedDiff("vlan", Decimal(n.vid), "status", Text(n.status.value), Text(l.status.value))]
  }

  function VlanDiffs(norm: Normalizer, n: NetBox.Vlan, l: LiveVlan): seq<Difference> {
    VlanNameDiff(norm, n, l) + VlanStatusDiff(norm, n, l)
  }

  function ExpectedVlan(norm: Normalizer, netbox: Dict<int, NetBox.Vlan>, live: Dict<int, LiveVlan>)
    : int -> seq<Difference>
  {
    (vid: int) =>
      if vid !in netbox.items then []
      else if vid in live.items then VlanDiffs(norm, netbox.items[vid], live.items[vid])
      else [MissingDiff("vlan", Decimal(vid), netbox.items[vid].name)]
  }

  function ExtraVlan(netbox: Dict<int, NetBox.Vlan>, live: Dict<int, LiveVlan>): int -> seq<Difference> {
    (vid: int) =>
      if vid !in live.items || vid in netbox.items then []
      else [UnexpectedDiff("vlan", Decimal(vid), live.items[vid].name)]
  }

  function Vlans(norm: Normalizer, vlans: seq<NetBox.Vlan>, live: seq<LiveDevice>): seq<Difference> {
    var expected, observed := Build(vlans, Vid), Build(FlatMap(live, VlansOf), VlanId);
    FlatMap(expected.keys, ExpectedVlan(norm, expected, observed)) + FlatMap(observed.keys, ExtraVlan(expected, observed))
  }

  method AddVlans(before: Dict<int, LiveVlan>, vlans: seq<LiveVlan>) returns (r: Dict<int, LiveVlan>)
    requires before.Valid()
    ensures r == PutAll(before, vlans, VlanId)
  {
    r := before;
    for j := 0 to |vlans|
      invariant r == PutAll(before, vlans[..j], VlanId)
    {
      assert vlans[..j + 1] == vlans[..j] + [vlans[j]];
      PutAllSnoc(before, vlans[..j], vlans[j], VlanId);
      r := Put(r, vlans[j].id, vlans[j]);
    }
    assert vlans[..|vlans|] == vlans;
  }

  method LiveVlans(live: seq<LiveDevice>) returns (r: Dict<int, LiveVlan>)
    ensures r == Build(FlatMap(live, VlansOf), VlanId)
  {
    r := Empty();
    for i := 0 to |live|
      invariant r == PutAll(Empty(), FlatMap(live[..i], VlansOf), VlanId)
    {
      FlatMapStep(live, i, VlansOf);
      PutAllAppend(Empty(), FlatMap(live[..i], VlansOf), live[i].vlans, VlanId);
      r := AddVlans(r, live[i].vlans);
    }
    assert live[..|live|] == live;
    BuildIsPutAll(FlatMap(live, VlansOf), VlanId);
  }

  method ExpectedVlans(norm: Normalizer, netbox: Dict<int, NetBox.Vlan>, live: Dict<int, LiveVlan>)
    returns (r: seq<Difference>)
    requires netbox.Valid()
    ensures r == FlatMap(netbox.keys, ExpectedVlan(norm, netbox, live))
  {
    r := [];
    for i := 0 to |netbox.keys|
      invariant r == FlatMap(netbox.keys[..i], ExpectedVlan(norm, netbox, live))
    {
      FlatMapStep(netbox.keys, i, ExpectedVlan(norm, netbox, live));
      var vid := netbox.keys[i];
      var l := Get(live, vid);
      if l.None? {
        r := r + [MissingDiff("vlan", Decimal(vid), netbox.items[vid].name)];
        continue;
      }
      r := r + VlanDiffs(norm, netbox.items[vid], l.value);
    }
    assert netbox.keys[..|netbox.keys|] == netbox.keys;
  }

  method ExtraVlans(netbox: Dict<int, NetBox.Vlan>, live: Dict<int, LiveVlan>) returns (r: seq<Difference>)
    requires live.Valid()
    ensures r == FlatMap(live.keys, ExtraVlan(netbox, live))
  {
    r := [];
    for i := 0 to |live.keys|
      invariant r == FlatMap(live.keys[..i], ExtraVlan(netbox, live))
    {
      FlatMapStep(live.keys, i, ExtraVlan(netbox, live));
      var vid := live.keys[i];
      if vid !in netbox.items {
        r := r + [UnexpectedDiff("vlan", Decimal(vid), live.items[vid].name)];
      }
    }
    assert live.keys[..|live.keys|] == live.keys;
  }

  method CompareVlans(norm: Normalizer, vlans: seq<NetBox.Vlan>, live: seq<LiveDevice>) returns (r: seq<Difference>)
    ensures r == Vlans(norm, vlans, live)
  {
    var netbox := Build(vlans, Vid);
    var observed := LiveVlans(live);
    var expected := ExpectedVlans(norm, netbox, observed);
    var extra := ExtraVlans(netbox, observed);
    r := expected + extra;
  }

  // ------------------------------------------------------------------ neighbors

  function UnsupportedNeighbor(device: string): Neighbor -> seq<Difference> {
    (n: Neighbor) => [Difference(Unsupported, "neighbor", device + ":" + n.localInterface + ":" + n.remoteDevice, None,
      None, Some(Text(n.remoteDevice)))]
  }

  function Neighbors(d: LiveDevice): seq<Difference> {
    FlatMap(d.neighbors, UnsupportedNeighbor(d.name))
  }

  method CompareNeighbors(live: seq<LiveDevice>) returns (r: seq<Difference>)
    ensures r == FlatMap(live, Neighbors)
  {
    r := [];
    for i := 0 to |live|
      invariant r == FlatMap(live[..i], Neighbors)
    {
      FlatMapStep(live, i, Neighbors);
      ghost var before := r;
      for j := 0 to |live[i].neighbors|
        invariant r == before + FlatMap(live[i].neighbors[..j], UnsupportedNeighbor(live[i].name))
      {
        FlatMapStep(live[i].neighbors, j, UnsupportedNeighbor(live[i].name));
        r := r + UnsupportedNeighbor(live[i].name)(live[i].neighbors[j]);
      }
      assert live[i].neighbors[..|live[i].neighbors|] == live[i].neighbors;
    }
    assert live[..|live|] == live;
  }

  // --------------------------------------------------------------------- engine

  function IdentityPart(m: Match): seq<Difference> {
    FlatMap(m.duplicateNetBox, DuplicateOf) + FlatMap(m.duplicateLive, DuplicateOf)
  }

  function DevicePart(norm: Normalizer, m: Match): seq<Difference> {
    FlatMap(m.missing, MissingDevice) + FlatMap(m.unexpected, UnexpectedDevice) + FlatMap(m.matched, MatchedDevice(norm))
  }

  /** All differences in the order in which they are found. */
  function Found(norm: Normalizer, netbox: NetBox.Inventory, live: seq<LiveDevice>): seq<Difference> {
    var m := MatchOf(norm, netbox.devices, live);
    IdentityPart(m) + DevicePart(norm, m) + FlatMap(m.matched, Interfaces(norm)) + Vlans(norm, netbox.vlans, live)
      + FlatMap(live, Neighbors) + FlatMap(m.matched, Platform(norm))
  }

  lemma RegisterMore(before: Dict<string, Difference>, earlier: seq<Difference>, more: seq<Difference>)
    requires before == PutAll(Empty(), earlier, KeyOf)
    ensures PutAll(before, more, KeyOf) == PutAll(Empty(), earlier + more, KeyOf)
  {
    PutAllAppend(Empty(), earlier, more, KeyOf);
  }

  method Compare(norm: Normalizer, netbox: NetBox.Inventory, live: seq<LiveDevice>)
    returns (differences: seq<Difference>, metrics: Metrics)
    ensures differences == Registered(Found(norm, netbox, live))
    ensures metrics.total == |differences|
  {
    var m := MatchDevices(norm, netbox.devices, live);
    var registry := new DifferenceRegistry();
    var identity := CompareIdentity(m);
    registry.Extend(identity);
    var devices := CompareDevices(norm, m);
    RegisterMore(registry.differences, identity, devices);
    registry.Extend(devices);
    var interfaces := CompareInterfaces(norm, m);
    RegisterMore(registry.differences, identity + devices, interfaces);
    registry.Extend(interfaces);
    var vlans := CompareVlans(norm, netbox.vlans, live);
    RegisterMore(registry.differences, identity + devices + interfaces, vlans);
    registry.Extend(vlans);
    var neighbors := CompareNeighbors(live);
    RegisterMore(registry.differences, identity + devices + interfaces + vlans, neighbors);
    registry.Extend(neighbors);
    var platforms := ComparePlatforms(norm, m);
    RegisterMore(registry.differences, identity + devices + interfaces + vlans + neighbors, platforms);
    registry.Extend(platforms);
    BuildIsPutAll(Found(norm, netbox, live), KeyOf);
    differences := registry.All();
    metrics := CountKinds(differences);
  }
}
