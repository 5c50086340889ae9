// When a comparison reports drift, and that a faithful live image has none.

module Drift {
  import opened Common
  import opened OrderedDicts
  import opened Snapshots
  import opened Differences
  import opened SortedNames
  import opened Texts
  import opened Matching
  import opened Comparison
  import NetBox

  // Unsupported differences (live neighbors) say nothing about drift.
  predicate IsDrift(kind: DifferenceType) {
    kind in {DifferenceType.Missing, DifferenceType.Unexpected, DifferenceType.Modified, DifferenceType.Duplicate}
  }

  ghost predicate NoDrift(ds: seq<Difference>) {
    forall d | d in ds :: !IsDrift(d.kind)
  }

  ghost predicate AllDrift(ds: seq<Difference>) {
    forall d | d in ds :: IsDrift(d.kind)
  }

  // ----------------------------------------------------------------- agreement

  predicate FieldAgrees(norm: Normalizer, expected: Option<string>, observed: Option<string>) {
    || Normalized(norm, expected) == ""
    || Normalized(norm, observed) == ""
    || Normalized(norm, expected) == Normalized(norm, observed)
  }

  ghost predicate DeviceAgrees(norm: Normalizer, n: NetBox.Device, l: LiveDevice) {
    && FieldAgrees(norm, n.serial, l.serial)
    && FieldAgrees(norm, n.primaryIp, l.managementIp)
    && FieldAgrees(norm, Some(n.model), l.model)
    && PlatformsAgree(norm, n.platform, l.platform)
  }

  ghost predicate TextAgrees(norm: Normalizer, expected: Option<string>, observed: Option<string>) {
    || expected.None? || expected.value == ""
    || observed.None? || observed.value == ""
    || norm(expected.value) == norm(observed.value)
  }

  ghost predicate AdminAgrees(n: NetBox.Interface, l: LiveInterface) {
    || l.adminStatus.None? || l.adminStatus.value == ""
    || l.adminStatus.value == (if n.enabled then "up" else "down")
  }

  ghost predicate InterfaceAgrees(norm: Normalizer, n: NetBox.Interface, l: LiveInterface) {
    && AdminAgrees(n, l)
    && TextAgrees(norm, n.macAddress, l.macAddress)
    && TextAgrees(norm, n.description, l.description)
  }

  ghost predicate VlanAgrees(norm: Normalizer, n: NetBox.Vlan, l: LiveVlan) {
    norm(n.name) == norm(l.name) && TextAgrees(norm, n.status, l.status)
  }

  /** Under each name both sides have an interface or neither, and the last of each agree. */
  ghost predicate InterfacesAgree(norm: Normalizer, n: seq<NetBox.Interface>, l: seq<LiveInterface>) {
    forall key: string :: InterfaceAgreesAt(norm, LastOf(n, NetBoxKey(norm), key), LastOf(l, LiveKey(norm), key))
  }

  ghost predicate InterfaceAgreesAt(norm: Normalizer, n: Option<NetBox.Interface>, l: Option<LiveInterface>) {
    if n.Some? && l.Some? then InterfaceAgrees(norm, n.value, l.value) else n.None? && l.None?
  }

  ghost predicate VlansAgree(norm: Normalizer, n: seq<NetBox.Vlan>, l: seq<LiveVlan>) {
    forall vid: int :: VlanAgreesAt(norm, LastOf(n, Vid, vid), LastOf(l, VlanId, vid))
  }

  ghost predicate VlanAgreesAt(norm: Normalizer, n: Option<NetBox.Vlan>, l: Option<LiveVlan>) {
    if n.Some? && l.Some? then VlanAgrees(norm, n.value, l.value) else n.None? && l.None?
  }

  ghost predicate PairAgrees(norm: Normalizer, pair: Pair) {
    DeviceAgrees(norm, pair.0, pair.1) && InterfacesAgree(norm, pair.0.interfaces, pair.1.interfaces)
  }

  ghost predicate AllDevicesAgree(norm: Normalizer, matched: seq<Pair>) {
    forall i | 0 <= i < |matched| :: DeviceAgrees(norm, matched[i].0, matched[i].1)
  }

  ghost predicate AllInterfacesAgree(norm: Normalizer, matched: seq<Pair>) {
    forall i | 0 <= i < |matched| :: InterfacesAgree(norm, matched[i].0.interfaces, matched[i].1.interfaces)
  }

  /** Everything matched, nothing left over, no name twice, and all pairs agree. */
  ghost predicate InStep(norm: Normalizer, netbox: NetBox.Inventory, live: seq<LiveDevice>) {
    var m := MatchOf(norm, netbox.devices, live);
    && m.missing == [] && m.unexpected == [] && m.duplicateNetBox == [] && m.duplicateLive == []
    && AllDevicesAgree(norm, m.matched)
    && AllInterfacesAgree(norm, m.matched)
    && VlansAgree(norm, netbox.vlans, FlatMap(live, VlansOf))
  }

  // -------------------------------------------------------------- part by part

  lemma NoDriftParts(a: seq<Difference>, b: seq<Difference>)
    ensures NoDrift(a + b) <==> NoDrift(a) && NoDrift(b)
  {
  }

  lemma OnlyDrift(ds: seq<Difference>)
    requires AllDrift(ds)
    ensures NoDrift(ds) <==> ds == []
  {
    if ds != [] { assert ds[0] in ds; }
  }

  lemma {:induction false} FlatMapDrift<T(!new)>(items: seq<T>, f: T -> seq<Difference>)
    requires forall i | 0 <= i < |items| :: AllDrift(f(items[i]))
    ensures AllDrift(FlatMap(items, f))
  {
    if items != [] {
      assert forall i | 0 <= i < |items| - 1 :: items[..|items| - 1][i] == items[i];
      FlatMapDrift(items[..|items| - 1], f);
    }
  }

  /** Of a part made of drift only, none is reported exactly when no item gives any. */
  lemma DriftPart<T(!new)>(items: seq<T>, f: T -> seq<Difference>)
    requires forall i | 0 <= i < |items| :: AllDrift(f(items[i]))
    ensures NoDrift(FlatMap(items, f)) <==> forall i | 0 <= i < |items| :: f(items[i]) == []
  {
    FlatMapDrift(items, f);
    OnlyDrift(FlatMap(items, f));
    FlatMapEmpty(items, f);
  }

  lemma {:induction false} NeighborsAreNoDrift(live: seq<LiveDevice>)
    ensures NoDrift(FlatMap(live, Neighbors))
  {
    if live != [] {
      var last := live[|live| - 1];
      NeighborsAreNoDrift(live[..|live| - 1]);
      forall d | d in Neighbors(last) ensures !IsDrift(d.kind) {
        FlatMapHas(last.neighbors, UnsupportedNeighbor(last.name), d);
      }
    }
  }

  lemma ConcatEmpty(a: seq<Difference>, b: seq<Difference>)
    ensures a + b == [] <==> a == [] && b == []
  {
    assert |a + b| == |a| + |b|;
  }

  lemma DeviceGivesNone(norm: Normalizer, pair: Pair)
    ensures MatchedDevice(norm)(pair) == [] && Platform(norm)(pair) == [] <==> DeviceAgrees(norm, pair.0, pair.1)
  {
    var serial := DeviceField(norm, pair.0.name, "serial", pair.0.serial, pair.1.serial);
    var ip := DeviceField(norm, pair.0.name, "primary_ip", pair.0.primaryIp, pair.1.managementIp);
    var model := DeviceField(norm, pair.0.name, "model", Some(pair.0.model), pair.1.model);
    ConcatEmpty(serial + ip, model);
    ConcatEmpty(serial, ip);
  }

  lemma MatchedDrift(norm: Normalizer, pair: Pair)
    ensures AllDrift(MatchedDevice(norm)(pair)) && AllDrift(Platform(norm)(pair))
  {
  }

  lemma MatchedPart(norm: Normalizer, matched: seq<Pair>)
    ensures NoDrift(FlatMap(matched, MatchedDevice(norm))) && NoDrift(FlatMap(matched, Platform(norm))) <==>
      AllDevicesAgree(norm, matched)
  {
    forall i | 0 <= i < |matched|
      ensures AllDrift(MatchedDevice(norm)(matched[i])) && AllDrift(Platform(norm)(matched[i]))
    {
      MatchedDrift(norm, matched[i]);
    }
    DriftPart(matched, MatchedDevice(norm));
    DriftPart(matched, Platform(norm));
    forall i | 0 <= i < |matched|
      ensures MatchedDevice(norm)(matched[i]) == [] && Platform(norm)(matched[i]) == [] <==>
        DeviceAgrees(norm, matched[i].0, matched[i].1)
    {
      DeviceGivesNone(norm, matched[i]);
    }
  }

  lemma InterfaceDiffsNone(norm: Normalizer, id: string, n: NetBox.Interface, l: LiveInterface)
    ensures InterfaceDiffs(norm, id, n, l) == [] <==> InterfaceAgrees(norm, n, l)
    ensures AllDrift(InterfaceDiffs(norm, id, n, l))
  {
    var admin, mac := AdminField(id, n, l), InterfaceField(norm, id, "mac_address", n.macAddress, l.macAddress);
    var description := InterfaceField(norm, id, "description", n.description, l.description);
    ConcatEmpty(admin + mac, description);
    ConcatEmpty(admin, mac);
  }

  lemma InterfaceGivesNone(norm: Normalizer, device: string, netbox: Dict<string, NetBox.Interface>,
    live: Dict<string, LiveInterface>, key: string)
    ensures InterfaceAgreesAt(norm, Get(netbox, key), Get(live, key)) <==>
      ExpectedInterface(norm, device, netbox, live)(key) == [] && ExtraInterface(device, netbox, live)(key) == []
    ensures AllDrift(ExpectedInterface(norm, device, netbox, live)(key))
    ensures AllDrift(ExtraInterface(device, netbox, live)(key))
  {
    if key in netbox.items && key in live.items {
      InterfaceDiffsNone(norm, device + ":" + netbox.items[key].name, netbox.items[key], live.items[key]);
    }
  }

  lemma InterfacePart(norm: Normalizer, pair: Pair)
    ensures AllDrift(Interfaces(norm)(pair))
    ensures Interfaces(norm)(pair) == [] <==> InterfacesAgree(norm, pair.0.interfaces, pair.1.interfaces)
  {
    var netbox := Build(pair.0.interfaces, NetBoxKey(norm));
    var live := Build(pair.1.interfaces, LiveKey(norm));
    var expected := ExpectedInterface(norm, pair.0.name, netbox, live);
    var extra := ExtraInterface(pair.0.name, netbox, live);
    forall key: string
      ensures AllDrift(expected(key)) && AllDrift(extra(key))
      ensures InterfaceAgreesAt(norm, LastOf(pair.0.interfaces, NetBoxKey(norm), key), LastOf(pair.1.interfaces, LiveKey(norm), key))
        <==> expected(key) == [] && extra(key) == []
    {
      LastValueWins(pair.0.interfaces, NetBoxKey(norm), key);
      LastValueWins(pair.1.interfaces, LiveKey(norm), key);
      InterfaceGivesNone(norm, pair.0.name, netbox, live, key);
    }
    BothSides(netbox.keys, expected, live.keys, extra);
  }

  /** Two loops over keys report nothing exactly when there is nothing to report anywhere. */
  lemma BothSides<K(!new)>(keys: seq<K>, f: K -> seq<Difference>, keys': seq<K>, g: K -> seq<Difference>)
    requires forall k | k !in keys :: f(k) == []
    requires forall k | k !in keys' :: g(k) == []
    requires forall k: K :: AllDrift(f(k)) && AllDrift(g(k))
    ensures AllDrift(FlatMap(keys, f) + FlatMap(keys', g))
    ensures FlatMap(keys, f) + FlatMap(keys', g) == [] <==> forall k: K :: f(k) == [] && g(k) == []
  {
    FlatMapDrift(keys, f);
    FlatMapDrift(keys', g);
    FlatMapEmpty(keys, f);
    FlatMapEmpty(keys', g);
    NoneAtKeys(keys, f);
    NoneAtKeys(keys', g);
    ConcatEmpty(FlatMap(keys, f), FlatMap(keys', g));
  }

  /** A function that gives nothing away from the keys gives nothing at all exactly when it
      gives nothing at the keys. */
  lemma NoneAtKeys<K(!new)>(keys: seq<K>, f: K -> seq<Difference>)
    requires forall k | k !in keys :: f(k) == []
    ensures (forall i | 0 <= i < |keys| :: f(keys[i]) == []) <==> forall k: K :: f(k) == []
  {
    if forall i | 0 <= i < |keys| :: f(keys[i]) == [] {
      forall k: K ensures f(k) == [] {
        if k in keys { var i :| 0 <= i < |keys| && keys[i] == k; }
      }
    }
  }

  lemma VlanDiffsNone(norm: Normalizer, n: NetBox.Vlan, l: LiveVlan)
    ensures VlanDiffs(norm, n, l) == [] <==> VlanAgrees(norm, n, l)
    ensures AllDrift(VlanDiffs(norm, n, l))
  {
    ConcatEmpty(VlanNameDiff(norm, n, l), VlanStatusDiff(norm, n, l));
  }

  lemma VlanGivesNone(norm: Normalizer, netbox: Dict<int, NetBox.Vlan>, live: Dict<int, LiveVlan>, vid: int)
    ensures VlanAgreesAt(norm, Get(netbox, vid), Get(live, vid)) <==>
      ExpectedVlan(norm, netbox, live)(vid) == [] && ExtraVlan(netbox, live)(vid) == []
    ensures AllDrift(ExpectedVlan(norm, netbox, live)(vid)) && AllDrift(ExtraVlan(netbox, live)(vid))
  {
    if vid in netbox.items && vid in live.items {
      VlanDiffsNone(norm, netbox.items[vid], live.items[vid]);
    }
  }

  lemma VlanPart(norm: Normalizer, vlans: seq<NetBox.Vlan>, live: seq<LiveDevice>)
    ensures AllDrift(Vlans(norm, vlans, live))
    ensures Vlans(norm, vlans, live) == [] <==> VlansAgree(norm, vlans, FlatMap(live, VlansOf))
  {
    var all := FlatMap(live, VlansOf);
    var netbox, observed := Build(vlans, Vid), Build(all, VlanId);
    var expected, extra := ExpectedVlan(norm, netbox, observed), ExtraVlan(netbox, observed);
    forall vid: int
      ensures AllDrift(expected(vid)) && AllDrift(extra(vid))
      ensures VlanAgreesAt(norm, LastOf(vlans, Vid, vid), LastOf(all, VlanId, vid)) <==>
        expected(vid) == [] && extra(vid) == []
    {
      LastValueWins(vlans, Vid, vid);
      LastValueWins(all, VlanId, vid);
      VlanGivesNone(norm, netbox, observed, vid);
    }
    BothSides(netbox.keys, expected, observed.keys, extra);
  }

  lemma IdentityIsQuiet(m: Match)
    ensures NoDrift(IdentityPart(m)) <==> m.duplicateNetBox == [] && m.duplicateLive == []
  {
    DriftPart(m.duplicateNetBox, DuplicateOf);
    DriftPart(m.duplicateLive, DuplicateOf);
    NoDriftParts(FlatMap(m.duplicateNetBox, DuplicateOf), FlatMap(m.duplicateLive, DuplicateOf));
    if m.duplicateNetBox != [] { assert DuplicateOf(m.duplicateNetBox[0]) != []; }
    if m.duplicateLive != [] { assert DuplicateOf(m.duplicateLive[0]) != []; }
  }

  lemma DevicesAreQuiet(norm: Normalizer, m: Match)
    ensures NoDrift(DevicePart(norm, m)) <==>
      m.missing == [] && m.unexpected == [] && NoDrift(FlatMap(m.matched, MatchedDevice(norm)))
  {
    DriftPart(m.missing, MissingDevice);
    DriftPart(m.unexpected, UnexpectedDevice);
    NoDriftParts(FlatMap(m.missing, MissingDevice), FlatMap(m.unexpected, UnexpectedDevice));
    NoDriftParts(FlatMap(m.missing, MissingDevice) + FlatMap(m.unexpected, UnexpectedDevice),
      FlatMap(m.matched, MatchedDevice(norm)));
    if m.missing != [] { assert MissingDevice(m.missing[0]) != []; }
    if m.unexpected != [] { assert UnexpectedDevice(m.unexpected[0]) != []; }
  }

  lemma InterfacesAreQuiet(norm: Normalizer, matched: seq<Pair>)
    ensures NoDrift(FlatMap(matched, Interfaces(norm))) <==> AllInterfacesAgree(norm, matched)
  {
    forall i | 0 <= i < |matched|
      ensures AllDrift(Interfaces(norm)(matched[i]))
      ensures Interfaces(norm)(matched[i]) == [] <==>
        InterfacesAgree(norm, matched[i].0.interfaces, matched[i].1.interfaces)
    {
      InterfacePart(norm, matched[i]);
    }
    DriftPart(matched, Interfaces(norm));
  }

  lemma QuietTogether(
    a: seq<Difference>, b: seq<Difference>, c: seq<Difference>, d: seq<Difference>, e: seq<Difference>,
    f: seq<Difference>)
    ensures NoDrift(a + b + c + d + e + f) <==>
      NoDrift(a) && NoDrift(b) && NoDrift(c) && NoDrift(d) && NoDrift(e) && NoDrift(f)
  {
    NoDriftParts(a, b);
    NoDriftParts(a + b, c);
    NoDriftParts(a + b + c, d);
    NoDriftParts(a + b + c + d, e);
    NoDriftParts(a + b + c + d + e, f);
  }

  lemma FoundIsQuiet(norm: Normalizer, netbox: NetBox.Inventory, live: seq<LiveDevice>)
    ensures NoDrift(Found(norm, netbox, live)) <==> InStep(norm, netbox, live)
  {
    var m := MatchOf(norm, netbox.devices, live);
    QuietTogether(IdentityPart(m), DevicePart(norm, m), FlatMap(m.matched, Interfaces(norm)),
      Vlans(norm, netbox.vlans, live), FlatMap(live, Neighbors), FlatMap(m.matched, Platform(norm)));
    IdentityIsQuiet(m);
    DevicesAreQuiet(norm, m);
    InterfacesAreQuiet(norm, m.matched);
    MatchedPart(norm, m.matched);
    VlanPart(norm, netbox.vlans, live);
    OnlyDrift(Vlans(norm, netbox.vlans, live));
    NeighborsAreNoDrift(live);
  }

  /** A comparison reports no drift exactly when the inventories are in step. */
  lemma NoDriftIffInStep(norm: Normalizer, netbox: NetBox.Inventory, live: seq<LiveDevice>)
    ensures NoDrift(Registered(Found(norm, netbox, live))) <==> InStep(norm, netbox, live)
  {
    var found := Found(norm, netbox, live);
    FoundIsQuiet(norm, netbox, live);
    if d :| d in found && IsDrift(d.kind) {
      KindsSurvive(found, d.kind);
    }
    if d :| d in Registered(found) && IsDrift(d.kind) {
      KindsSurvive(found, d.kind);
    }
  }

  // ------------------------------------------------------------- faithful images

  ghost predicate LiveNamed(norm: Normalizer, live: seq<LiveDevice>, name: string) {
    exists j :: 0 <= j < |live| && norm(live[j].name) == name
  }

  ghost predicate NetBoxNamed(norm: Normalizer, netbox: seq<NetBox.Device>, name: string) {
    exists i :: 0 <= i < |netbox| && norm(netbox[i].name) == name
  }

  ghost predicate AllLive(norm: Normalizer, netbox: seq<NetBox.Device>, live: seq<LiveDevice>) {
    forall n | n in netbox :: LiveNamed(norm, live, norm(n.name))
  }

  ghost predicate AllKnown(norm: Normalizer, netbox: seq<NetBox.Device>, live: seq<LiveDevice>) {
    forall l | l in live :: NetBoxNamed(norm, netbox, norm(l.name))
  }

  ghost predicate SameNames(norm: Normalizer, netbox: seq<NetBox.Device>, live: seq<LiveDevice>) {
    && Distinct(NetBoxNames(norm, netbox)) && Distinct(LiveNames(norm, live))
    && AllLive(norm, netbox, live) && AllKnown(norm, netbox, live)
  }

  ghost predicate NamesakesAgree(norm: Normalizer, netbox: seq<NetBox.Device>, live: seq<LiveDevice>) {
    forall n, l | n in netbox && l in live && norm(n.name) == norm(l.name) :: PairAgrees(norm, (n, l))
  }

  /** The live devices are the NetBox devices, in any order: the same names, each once, and
      devices of one name agree, as do the VLANs. */
  ghost predicate Faithful(norm: Normalizer, netbox: NetBox.Inventory, live: seq<LiveDevice>) {
    && SameNames(norm, netbox.devices, live)
    && NamesakesAgree(norm, netbox.devices, live)
    && VlansAgree(norm, netbox.vlans, FlatMap(live, VlansOf))
  }

  lemma CounterpartByName(norm: Normalizer, live: seq<LiveDevice>, n: NetBox.Device)
    requires LiveNamed(norm, live, norm(n.name))
    ensures Counterpart(norm, live, n).Some?
    ensures Counterpart(norm, live, n).value in live && norm(Counterpart(norm, live, n).value.name) == norm(n.name)
  {
    var j :| 0 <= j < |live| && norm(live[j].name) == norm(n.name);
    assert NameKey(norm)(live[j]) == norm(n.name);
    LastOfIs(live, NameKey(norm), norm(n.name));
  }

  lemma SameNameSameDevice(norm: Normalizer, live: seq<LiveDevice>, a: LiveDevice, b: LiveDevice)
    requires Distinct(LiveNames(norm, live)) && a in live && b in live && norm(a.name) == norm(b.name)
    ensures a == b
  {
    var i :| 0 <= i < |live| && live[i] == a;
    var j :| 0 <= j < |live| && live[j] == b;
    assert LiveNames(norm, live)[i] == LiveNames(norm, live)[j];
  }

  lemma EveryLiveIsMatched(norm: Normalizer, netbox: seq<NetBox.Device>, live: seq<LiveDevice>, l: LiveDevice)
    requires Distinct(LiveNames(norm, live)) && l in live && NetBoxNamed(norm, netbox, norm(l.name))
    ensures IdMatched(Matched(norm, live, netbox), l.id)
  {
    var i :| 0 <= i < |netbox| && norm(netbox[i].name) == norm(l.name);
    var j :| 0 <= j < |live| && live[j] == l;
    assert LiveNamed(norm, live, norm(netbox[i].name));
    CounterpartByName(norm, live, netbox[i]);
    SameNameSameDevice(norm, live, Counterpart(norm, live, netbox[i]).value, l);
    MatchedIffCounterpart(norm, live, netbox, (netbox[i], l));
    var p :| 0 <= p < |Matched(norm, live, netbox)| && Matched(norm, live, netbox)[p] == (netbox[i], l);
  }

  lemma NamesOnce(names: seq<string>)
    requires Distinct(names)
    ensures Repeated(names) == []
  {
    RepeatedNames(names);
    forall x ensures x !in Repeated(names) {
      assert !Twice(names, x);
    }
    EmptyIfNone(Repeated(names));
  }

  lemma EmptyIfNone<T(!new)>(s: seq<T>)
    requires forall x :: x !in s
    ensures s == []
  {
    if |s| > 0 { SomeMember(s); }
  }

  lemma SomeMember<T(!new)>(s: seq<T>)
    requires |s| > 0
    ensures exists x :: x in s
  {
    assert s[0] in s;
  }

  lemma NothingMissing(norm: Normalizer, netbox: seq<NetBox.Device>, live: seq<LiveDevice>)
    requires AllLive(norm, netbox, live)
    ensures Matching.Missing(norm, live, netbox) == []
  {
    forall n ensures n !in Matching.Missing(norm, live, netbox) {
      if n in netbox {
        CounterpartByName(norm, live, n);
        MatchedIffCounterpart(norm, live, netbox, (n, Counterpart(norm, live, n).value));
      } else {
        MissingIsGiven(norm, netbox, live, n);
      }
    }
    EmptyIfNone(Matching.Missing(norm, live, netbox));
  }

  lemma {:induction false} MissingIsGiven(norm: Normalizer, netbox: seq<NetBox.Device>, live: seq<LiveDevice>, n: NetBox.Device)
    ensures n in Matching.Missing(norm, live, netbox) ==> n in netbox
  {
    if netbox != [] { MissingIsGiven(norm, netbox[..|netbox| - 1], live, n); }
  }

  lemma NothingUnexpected(norm: Normalizer, netbox: seq<NetBox.Device>, live: seq<LiveDevice>)
    requires AllKnown(norm, netbox, live) && Distinct(LiveNames(norm, live))
    ensures Unmatched(live, Matched(norm, live, netbox)) == []
  {
    forall l ensures l !in Unmatched(live, Matched(norm, live, netbox)) {
      UnexpectedIffUnmatched(live, Matched(norm, live, netbox), l);
      if l in live { EveryLiveIsMatched(norm, netbox, live, l); }
    }
    EmptyIfNone(Unmatched(live, Matched(norm, live, netbox)));
  }

  lemma MatchedPairsAgree(norm: Normalizer, netbox: seq<NetBox.Device>, live: seq<LiveDevice>, pair: Pair)
    requires AllLive(norm, netbox, live) && NamesakesAgree(norm, netbox, live) && pair in Matched(norm, live, netbox)
    ensures PairAgrees(norm, pair)
  {
    MatchedIffCounterpart(norm, live, netbox, pair);
    CounterpartByName(norm, live, pair.0);
  }

  lemma FaithfulIsInStep(norm: Normalizer, netbox: NetBox.Inventory, live: seq<LiveDevice>)
    requires Faithful(norm, netbox, live)
    ensures InStep(norm, netbox, live)
  {
    var matched := Matched(norm, live, netbox.devices);
    NothingMissing(norm, netbox.devices, live);
    NothingUnexpected(norm, netbox.devices, live);
    NamesOnce(NetBoxNames(norm, netbox.devices));
    NamesOnce(LiveNames(norm, live));
    forall i | 0 <= i < |matched| ensures PairAgrees(norm, matched[i]) {
      MatchedPairsAgree(norm, netbox.devices, live, matched[i]);
    }
  }

  /** A faithful live image gives no missing, unexpected, modified or duplicate difference. */
  lemma FaithfulImageHasNoDrift(norm: Normalizer, netbox: NetBox.Inventory, live: seq<LiveDevice>)
    requires Faithful(norm, netbox, live)
    ensures NoDrift(Registered(Found(norm, netbox, live)))
  {
    FaithfulIsInStep(norm, netbox, live);
    NoDriftIffInStep(norm, netbox, live);
  }
}
