// Which differences a comparison finds, one by one, and when two of them are filed under one
// key so that one replaces the other (backend/app/comparison/comparator.py, engine.py,
// diff.py, registry.py).

module Findings {
  import opened Common
  import opened OrderedDicts
  import opened Snapshots
  import opened Differences
  import opened Matching
  import opened Comparison
  import NetBox

  // --------------------------------------------------------- composed subject ids

  /** No interface name of one device composes to the same id as one of the other. */
  ghost predicate IdsApart(d: string, e: string) {
    forall n: string, m: string :: d + ":" + n != e + ":" + m
  }

  /** Neither device name, with a colon after it, begins the other. */
  predicate NoPrefix(d: string, e: string) {
    !(d + ":" <= e + ":") && !(e + ":" <= d + ":")
  }

  lemma SameIdIsPrefix(d: string, e: string, n: string, m: string)
    requires d + ":" + n == e + ":" + m && |d| <= |e|
    ensures d + ":" <= e + ":"
  {
    var id := d + ":" + n;
    assert id[..|d| + 1] == d + ":";
    assert id[..|e| + 1] == e + ":";
  }

  lemma PrefixGivesSameId(d: string, e: string)
    requires d + ":" <= e + ":"
    ensures d + ":" + (e + ":")[|d| + 1..] == e + ":" + ""
  {
  }

  /** A caller can tell from the device names alone whether ids can coincide. */
  lemma IdsApartIff(d: string, e: string)
    ensures IdsApart(d, e) <==> NoPrefix(d, e)
  {
    if NoPrefix(d, e) {
      forall n: string, m: string ensures d + ":" + n != e + ":" + m {
        if d + ":" + n == e + ":" + m {
          if |d| <= |e| { SameIdIsPrefix(d, e, n, m); } else { SameIdIsPrefix(e, d, m, n); }
        }
      }
    } else if d + ":" <= e + ":" {
      PrefixGivesSameId(d, e);
    } else {
      PrefixGivesSameId(e, d);
    }
  }

  // ------------------------------------------------------------ what a difference says

  /** NetBox has something the network lacks. */
  predicate SaysMissing(d: Difference, subjectType: string, id: string, name: string) {
    && d.kind.Missing? && d.subjectType == subjectType && d.subjectId == id && d.fieldName.None?
    && d.expected == Some(Text(name)) && d.observed.None?
  }

  /** The network has something NetBox lacks. */
  predicate SaysUnexpected(d: Difference, subjectType: string, id: string, name: string) {
    && d.kind.Unexpected? && d.subjectType == subjectType && d.subjectId == id && d.fieldName.None?
    && d.expected.None? && d.observed == Some(Text(name))
  }

  /** Both have it and disagree in a field; NetBox's value is the expected one. */
  predicate SaysModified(
    d: Difference, subjectType: string, id: string, field: string, expected: Value, observed: Value)
  {
    && d.kind.Modified? && d.subjectType == subjectType && d.subjectId == id && d.fieldName == Some(field)
    && d.expected == Some(expected) && d.observed == Some(observed)
  }

  /** A device name occurs more than once. */
  predicate SaysDuplicate(d: Difference, name: string) {
    && d.kind.Duplicate? && d.subjectType == "device" && d.subjectId == name && d.fieldName.None?
    && d.expected.None? && d.observed == Some(Text(name))
  }

  /** A device reports a neighbor, which is compared with nothing. */
  predicate SaysNeighbor(d: Difference, device: string, n: Neighbor) {
    && d.kind.Unsupported? && d.subjectType == "neighbor"
    && d.subjectId == device + ":" + n.localInterface + ":" + n.remoteDevice && d.fieldName.None?
    && d.expected.None? && d.observed == Some(Text(n.remoteDevice))
  }

  // VLAN ids are written in decimal.

  function ReadDigits(text: string): int {
    if text == "" then 0
    else 10 * ReadDigits(text[..|text| - 1]) + (text[|text| - 1] as int) - ('0' as int)
  }

  lemma {:induction false} DigitsRead(n: nat)
    ensures ReadDigits(Digits(n)) == n && Digits(n) != ""
  {
    var last := ["0123456789"[n % 10]];
    assert (last[0] as int) - ('0' as int) == n % 10;
    if n < 10 {
      assert Digits(n) == last && last[..0] == "";
    } else {
      DigitsRead(n / 10);
      assert Digits(n)[..|Digits(n)| - 1] == Digits(n / 10);
    }
  }

  /** A written VLAN id reads back as the id. */
  lemma DecimalReads(n: int)
    ensures n >= 0 ==> ReadDigits(Decimal(n)) == n
    ensures n < 0 ==> Decimal(n)[0] == '-' && ReadDigits(Decimal(n)[1..]) == -n
  {
    DigitsRead(if n < 0 then -n else n);
    if n < 0 { assert Decimal(n)[1..] == Digits(-n); }
  }

  // ---------------------------------------------- which interface differences come out

  /** What one interface name contributes, given the last interface of that name on each side. */
  ghost predicate InterfaceFinding(
    norm: Normalizer, device: string, n: Option<NetBox.Interface>, l: Option<LiveInterface>, d: Difference)
  {
    || (n.Some? && l.None? && SaysMissing(d, "interface", device + ":" + n.value.name, n.value.name))
    || (n.None? && l.Some? && SaysUnexpected(d, "interface", device + ":" + l.value.name, l.value.name))
    || (n.Some? && l.Some? && InterfaceChange(norm, device + ":" + n.value.name, n.value, l.value, d))
  }

  ghost predicate TextChange(
    norm: Normalizer, subjectType: string, id: string, field: string, expected: Option<string>, observed: Option<string>,
    d: Difference)
  {
    && expected.Some? && observed.Some? && expected.value != "" && observed.value != ""
    && norm(expected.value) != norm(observed.value)
    && SaysModified(d, subjectType, id, field, Text(expected.value), Text(observed.value))
  }

  ghost predicate InterfaceChange(norm: Normalizer, id: string, n: NetBox.Interface, l: LiveInterface, d: Difference) {
    || (&& l.adminStatus.Some? && l.adminStatus.value !in ["", if n.enabled then "up" else "down"]
        && SaysModified(d, "interface", id, "enabled", Flag(n.enabled), Text(l.adminStatus.value)))
    || TextChange(norm, "interface", id, "mac_address", n.macAddress, l.macAddress, d)
    || TextChange(norm, "interface", id, "description", n.description, l.description, d)
  }

  lemma InterfaceChanges(norm: Normalizer, id: string, n: NetBox.Interface, l: LiveInterface, d: Difference)
    ensures d in InterfaceDiffs(norm, id, n, l) <==> InterfaceChange(norm, id, n, l, d)
  {
    var admin, mac := AdminField(id, n, l), InterfaceField(norm, id, "mac_address", n.macAddress, l.macAddress);
    var description := InterfaceField(norm, id, "description", n.description, l.description);
    assert d in InterfaceDiffs(norm, id, n, l) <==> d in admin || d in mac || d in description;
  }

  lemma InterfaceAtKey(
    norm: Normalizer, device: string, netbox: Dict<string, NetBox.Interface>, live: Dict<string, LiveInterface>,
    key: string, d: Difference)
    ensures InterfaceFinding(norm, device, Get(netbox, key), Get(live, key), d) <==>
      d in ExpectedInterface(norm, device, netbox, live)(key) || d in ExtraInterface(device, netbox, live)(key)
  {
    if key in netbox.items && key in live.items {
      InterfaceChanges(norm, device + ":" + netbox.items[key].name, netbox.items[key], live.items[key], d);
    }
  }

  /** Whatever two loops over keys find, they find at some key. */
  lemma FoundAtSomeKey<K(!new)>(
    keys: seq<K>, f: K -> seq<Difference>, keys': seq<K>, g: K -> seq<Difference>, d: Difference)
    requires forall k | k !in keys :: f(k) == []
    requires forall k | k !in keys' :: g(k) == []
    ensures d in FlatMap(keys, f) + FlatMap(keys', g) <==> exists k: K :: d in f(k) || d in g(k)
  {
    FlatMapHas(keys, f, d);
    FlatMapHas(keys', g, d);
    if k: K :| d in f(k) {
      var i :| 0 <= i < |keys| && keys[i] == k;
      assert d in f(keys[i]);
    }
    if k: K :| d in g(k) {
      var i :| 0 <= i < |keys'| && keys'[i] == k;
      assert d in g(keys'[i]);
    }
  }

  ghost predicate FoundUnder(norm: Normalizer, pair: Pair, key: string, d: Difference) {
    InterfaceFinding(norm, pair.0.name, LastOf(pair.0.interfaces, NetBoxKey(norm), key),
      LastOf(pair.1.interfaces, LiveKey(norm), key), d)
  }

  function ExpectedOf(norm: Normalizer, pair: Pair): string -> seq<Difference> {
    ExpectedInterface(norm, pair.0.name, Build(pair.0.interfaces, NetBoxKey(norm)), Build(pair.1.interfaces, LiveKey(norm)))
  }

  function ExtraOf(norm: Normalizer, pair: Pair): string -> seq<Difference> {
    ExtraInterface(pair.0.name, Build(pair.0.interfaces, NetBoxKey(norm)), Build(pair.1.interfaces, LiveKey(norm)))
  }

  lemma FoundUnderKey(norm: Normalizer, pair: Pair, key: string, d: Difference)
    ensures FoundUnder(norm, pair, key, d) <==> d in ExpectedOf(norm, pair)(key) || d in ExtraOf(norm, pair)(key)
  {
    LastValueWins(pair.0.interfaces, NetBoxKey(norm), key);
    LastValueWins(pair.1.interfaces, LiveKey(norm), key);
    InterfaceAtKey(norm, pair.0.name, Build(pair.0.interfaces, NetBoxKey(norm)),
      Build(pair.1.interfaces, LiveKey(norm)), key, d);
  }

  lemma InterfacesByKey(norm: Normalizer, pair: Pair, d: Difference)
    ensures d in Interfaces(norm)(pair) <==>
      exists key: string :: d in ExpectedOf(norm, pair)(key) || d in ExtraOf(norm, pair)(key)
  {
    FoundAtSomeKey(Build(pair.0.interfaces, NetBoxKey(norm)).keys, ExpectedOf(norm, pair),
      Build(pair.1.interfaces, LiveKey(norm)).keys, ExtraOf(norm, pair), d);
  }

  /** The interface differences of a matched pair: under each normalized name a missing one
      exactly if only NetBox has it, an unexpected one exactly if only the device has it, and
      a modified one exactly for each field in which both have a value and disagree. */
  lemma InterfaceDifferencesAre(norm: Normalizer, pair: Pair, d: Difference)
    ensures d in Interfaces(norm)(pair) <==> exists key: string :: FoundUnder(norm, pair, key, d)
  {
    InterfacesByKey(norm, pair, d);
    if key: string :| d in ExpectedOf(norm, pair)(key) || d in ExtraOf(norm, pair)(key) {
      FoundUnderKey(norm, pair, key, d);
    }
    if key: string :| FoundUnder(norm, pair, key, d) {
      FoundUnderKey(norm, pair, key, d);
    }
  }

  /** What one VLAN id contributes. */
  ghost predicate VlanFinding(norm: Normalizer, vid: int, n: Option<NetBox.Vlan>, l: Option<LiveVlan>, d: Difference) {
    || (n.Some? && l.None? && SaysMissing(d, "vlan", Decimal(vid), n.value.name))
    || (n.None? && l.Some? && SaysUnexpected(d, "vlan", Decimal(vid), l.value.name))
    || (&& n.Some? && l.Some?
        && (|| (&& norm(n.value.name) != norm(l.value.name)
                && SaysModified(d, "vlan", Decimal(n.value.vid), "name", Text(n.value.name), Text(l.value.name)))
            || TextChange(norm, "vlan", Decimal(n.value.vid), "status", n.value.status, l.value.status, d)))
  }

  lemma VlanAtKey(norm: Normalizer, netbox: Dict<int, NetBox.Vlan>, live: Dict<int, LiveVlan>, vid: int, d: Difference)
    ensures VlanFinding(norm, vid, Get(netbox, vid), Get(live, vid), d) <==>
      d in ExpectedVlan(norm, netbox, live)(vid) || d in ExtraVlan(netbox, live)(vid)
  {
    if vid in netbox.items && vid in live.items {
      var n, l := netbox.items[vid], live.items[vid];
      assert d in VlanDiffs(norm, n, l) <==> d in VlanNameDiff(norm, n, l) || d in VlanStatusDiff(norm, n, l);
    }
  }

  ghost predicate VlanFoundUnder(
    norm: Normalizer, vlans: seq<NetBox.Vlan>, live: seq<LiveDevice>, vid: int, d: Difference)
  {
    VlanFinding(norm, vid, LastOf(vlans, Vid, vid), LastOf(FlatMap(live, VlansOf), VlanId, vid), d)
  }

  function ExpectedVlansOf(norm: Normalizer, vlans: seq<NetBox.Vlan>, live: seq<LiveDevice>): int -> seq<Difference> {
    ExpectedVlan(norm, Build(vlans, Vid), Build(FlatMap(live, VlansOf), VlanId))
  }

  function ExtraVlansOf(vlans: seq<NetBox.Vlan>, live: seq<LiveDevice>): int -> seq<Difference> {
    ExtraVlan(Build(vlans, Vid), Build(FlatMap(live, VlansOf), VlanId))
  }

  lemma VlanFoundUnderId(norm: Normalizer, vlans: seq<NetBox.Vlan>, live: seq<LiveDevice>, vid: int, d: Difference)
    ensures VlanFoundUnder(norm, vlans, live, vid, d) <==>
      d in ExpectedVlansOf(norm, vlans, live)(vid) || d in ExtraVlansOf(vlans, live)(vid)
  {
    LastValueWins(vlans, Vid, vid);
    LastValueWins(FlatMap(live, VlansOf), VlanId, vid);
    VlanAtKey(norm, Build(vlans, Vid), Build(FlatMap(live, VlansOf), VlanId), vid, d);
  }

  lemma VlansById(norm: Normalizer, vlans: seq<NetBox.Vlan>, live: seq<LiveDevice>, d: Difference)
    ensures d in Vlans(norm, vlans, live) <==>
      exists vid: int :: d in ExpectedVlansOf(norm, vlans, live)(vid) || d in ExtraVlansOf(vlans, live)(vid)
  {
    FoundAtSomeKey(Build(vlans, Vid).keys, ExpectedVlansOf(norm, vlans, live),
      Build(FlatMap(live, VlansOf), VlanId).keys, ExtraVlansOf(vlans, live), d);
  }

  /** The VLAN differences, likewise per VLAN id. */
  lemma VlanDifferencesAre(norm: Normalizer, vlans: seq<NetBox.Vlan>, live: seq<LiveDevice>, d: Difference)
    ensures d in Vlans(norm, vlans, live) <==> exists vid: int :: VlanFoundUnder(norm, vlans, live, vid, d)
  {
    VlansById(norm, vlans, live, d);
    if vid: int :| d in ExpectedVlansOf(norm, vlans, live)(vid) || d in ExtraVlansOf(vlans, live)(vid) {
      VlanFoundUnderId(norm, vlans, live, vid, d);
    }
    if vid: int :| VlanFoundUnder(norm, vlans, live, vid, d) {
      VlanFoundUnderId(norm, vlans, live, vid, d);
    }
  }

  // ------------------------------------------------------ everything that is found

  ghost predicate DeviceChange(
    norm: Normalizer, id: string, field: string, expected: Option<string>, observed: Option<string>, d: Difference)
  {
    && expected.Some? && observed.Some? && norm(expected.value) != "" && norm(observed.value) != ""
    && norm(expected.value) != norm(observed.value)
    && SaysModified(d, "device", id, field, Text(expected.value), Text(observed.value))
  }

  /** What a matched pair contributes outside its interfaces. */
  ghost predicate PairChange(norm: Normalizer, pair: Pair, d: Difference) {
    var (n, l) := pair;
    || DeviceChange(norm, n.name, "serial", n.serial, l.serial, d)
    || DeviceChange(norm, n.name, "primary_ip", n.primaryIp, l.managementIp, d)
    || DeviceChange(norm, n.name, "model", Some(n.model), l.model, d)
  }

  /** The text contains the part. */
  ghost predicate PartOf(part: string, text: string) {
    exists before, after :: text == before + part + after
  }

  lemma WithinIffPart(part: string, text: string)
    ensures Within(part, text) <==> PartOf(part, text)
  {
    if Within(part, text) {
      var i :| 0 <= i <= |text| && StartsAt(part, text, i);
      assert text == text[..i] + part + text[i + |part|..];
    }
    if PartOf(part, text) {
      var before, after :| text == before + part + after;
      assert StartsAt(part, text, |before|);
    }
  }

  ghost predicate PlatformChange(norm: Normalizer, pair: Pair, d: Difference) {
    var (n, l) := pair;
    && n.platform.Some? && l.platform.Some? && !PartOf(norm(n.platform.value), norm(l.platform.value))
    && SaysModified(d, "platform", n.name, "platform", Text(n.platform.value), Text(l.platform.value))
  }

  lemma PairChanges(norm: Normalizer, pair: Pair, d: Difference)
    ensures d in MatchedDevice(norm)(pair) <==> PairChange(norm, pair, d)
    ensures d in Platform(norm)(pair) <==> PlatformChange(norm, pair, d)
  {
    if pair.0.platform.Some? && pair.1.platform.Some? {
      WithinIffPart(norm(pair.0.platform.value), norm(pair.1.platform.value));
    }
  }

  /** Where a difference comes from: a repeated name, a device only one side has, a pair that
      disagrees, a VLAN, or a neighbor. */
  ghost predicate Reason(norm: Normalizer, netbox: NetBox.Inventory, live: seq<LiveDevice>, d: Difference) {
    var m := MatchOf(norm, netbox.devices, live);
    || (exists name | name in m.duplicateNetBox :: SaysDuplicate(d, name))
    || (exists name | name in m.duplicateLive :: SaysDuplicate(d, name))
    || (exists n | n in m.missing :: SaysMissing(d, "device", n.name, n.name))
    || (exists l | l in m.unexpected :: SaysUnexpected(d, "device", l.name, l.name))
    || (exists pair | pair in m.matched :: PairDifference(norm, pair, d))
    || (exists vid: int :: VlanFoundUnder(norm, netbox.vlans, live, vid, d))
    || (exists l | l in live :: ReportsNeighbor(l, d))
  }

  ghost predicate ReportsNeighbor(l: LiveDevice, d: Difference) {
    exists n | n in l.neighbors :: SaysNeighbor(d, l.name, n)
  }

  ghost predicate PairDifference(norm: Normalizer, pair: Pair, d: Difference) {
    || PairChange(norm, pair, d)
    || PlatformChange(norm, pair, d)
    || exists key: string :: FoundUnder(norm, pair, key, d)
  }

  lemma PairDifferences(norm: Normalizer, pair: Pair, d: Difference)
    ensures PairDifference(norm, pair, d) <==>
      d in MatchedDevice(norm)(pair) || d in Interfaces(norm)(pair) || d in Platform(norm)(pair)
  {
    PairChanges(norm, pair, d);
    InterfaceDifferencesAre(norm, pair, d);
  }

  /** What a list of lists holds, some item gives. */
  lemma GivenBySome<T(!new)>(items: seq<T>, f: T -> seq<Difference>, d: Difference)
    ensures d in FlatMap(items, f) <==> exists t | t in items :: d in f(t)
  {
    FlatMapHas(items, f, d);
    if t :| t in items && d in f(t) {
      var i :| 0 <= i < |items| && items[i] == t;
      assert d in f(items[i]);
    }
  }

  lemma MatchedDifferences(norm: Normalizer, matched: seq<Pair>, d: Difference)
    ensures (exists pair | pair in matched :: PairDifference(norm, pair, d)) <==>
      d in FlatMap(matched, MatchedDevice(norm)) || d in FlatMap(matched, Interfaces(norm))
      || d in FlatMap(matched, Platform(norm))
  {
    GivenBySome(matched, MatchedDevice(norm), d);
    GivenBySome(matched, Interfaces(norm), d);
    GivenBySome(matched, Platform(norm), d);
    forall pair | pair in matched
      ensures PairDifference(norm, pair, d) <==>
        d in MatchedDevice(norm)(pair) || d in Interfaces(norm)(pair) || d in Platform(norm)(pair)
    {
      PairDifferences(norm, pair, d);
    }
  }

  lemma InParts(
    a: seq<Difference>, b: seq<Difference>, c: seq<Difference>, d: seq<Difference>, e: seq<Difference>,
    f: seq<Difference>, x: Difference)
    ensures x in a + b + c + d + e + f <==> x in a || x in b || x in c || x in d || x in e || x in f
  {
  }

  lemma IdentityDifferences(m: Match, d: Difference)
    ensures d in IdentityPart(m) <==>
      || (exists name | name in m.duplicateNetBox :: SaysDuplicate(d, name))
      || (exists name | name in m.duplicateLive :: SaysDuplicate(d, name))
  {
    forall name ensures d in DuplicateOf(name) <==> SaysDuplicate(d, name) {}
    GivenBySome(m.duplicateNetBox, DuplicateOf, d);
    GivenBySome(m.duplicateLive, DuplicateOf, d);
  }

  lemma DeviceDifferences(norm: Normalizer, m: Match, d: Difference)
    ensures d in DevicePart(norm, m) <==>
      || (exists n | n in m.missing :: SaysMissing(d, "device", n.name, n.name))
      || (exists l | l in m.unexpected :: SaysUnexpected(d, "device", l.name, l.name))
      || d in FlatMap(m.matched, MatchedDevice(norm))
  {
    forall n ensures d in MissingDevice(n) <==> SaysMissing(d, "device", n.name, n.name) {}
    forall l ensures d in UnexpectedDevice(l) <==> SaysUnexpected(d, "device", l.name, l.name) {}
    GivenBySome(m.missing, MissingDevice, d);
    GivenBySome(m.unexpected, UnexpectedDevice, d);
  }

  lemma NeighborDifferences(live: seq<LiveDevice>, d: Difference)
    ensures d in FlatMap(live, Neighbors) <==> exists l | l in live :: ReportsNeighbor(l, d)
  {
    GivenBySome(live, Neighbors, d);
    forall l: LiveDevice ensures d in Neighbors(l) <==> ReportsNeighbor(l, d) {
      GivenBySome(l.neighbors, UnsupportedNeighbor(l.name), d);
      forall n: Neighbor ensures d in UnsupportedNeighbor(l.name)(n) <==> SaysNeighbor(d, l.name, n) {}
    }
  }

  /** A comparison finds exactly the differences that have a reason. */
  lemma FoundDifferencesAre(norm: Normalizer, netbox: NetBox.Inventory, live: seq<LiveDevice>, d: Difference)
    ensures d in Found(norm, netbox, live) <==> Reason(norm, netbox, live, d)
  {
    var m := MatchOf(norm, netbox.devices, live);
    InParts(IdentityPart(m), DevicePart(norm, m), FlatMap(m.matched, Interfaces(norm)),
      Vlans(norm, netbox.vlans, live), FlatMap(live, Neighbors), FlatMap(m.matched, Platform(norm)), d);
    IdentityDifferences(m, d);
    DeviceDifferences(norm, m, d);
    MatchedDifferences(norm, m.matched, d);
    VlanDifferencesAre(norm, netbox.vlans, live, d);
    NeighborDifferences(live, d);
  }

  // ------------------------------------------------- differences of two devices

  /** A difference that some matched pair yields, if its NetBox device has this name. */
  ghost predicate InterfaceDifferenceOf(norm: Normalizer, device: string, d: Difference) {
    exists p: Pair :: p.0.name == device && d in Interfaces(norm)(p)
  }

  /** No interface difference of a device called `d` replaces one of a device called `e`. */
  ghost predicate NeverReplaced(norm: Normalizer, d: string, e: string) {
    forall a, b | InterfaceDifferenceOf(norm, d, a) && InterfaceDifferenceOf(norm, e, b) :: a.Key() != b.Key()
  }

  lemma FindingSubject(
    norm: Normalizer, device: string, n: Option<NetBox.Interface>, l: Option<LiveInterface>, d: Difference)
    returns (name: string)
    requires InterfaceFinding(norm, device, n, l, d)
    ensures ':' !in d.subjectType && d.subjectId == device + ":" + name && ':' !in d.Field()
  {
    NoColonInInterface();
    name := if n.Some? then n.value.name else l.value.name;
  }

  lemma NoColonInInterface()
    ensures ':' !in "interface"
  {
  }

  /** An interface difference carries a composed id and a field name without a colon. */
  lemma InterfaceSubject(norm: Normalizer, pair: Pair, d: Difference) returns (name: string)
    requires d in Interfaces(norm)(pair)
    ensures ':' !in d.subjectType && d.subjectId == pair.0.name + ":" + name && ':' !in d.Field()
  {
    InterfaceDifferencesAre(norm, pair, d);
    var key: string :| FoundUnder(norm, pair, key, d);
    name := FindingSubject(norm, pair.0.name, LastOf(pair.0.interfaces, NetBoxKey(norm), key),
      LastOf(pair.1.interfaces, LiveKey(norm), key), d);
  }

  lemma SubjectOf(norm: Normalizer, device: string, d: Difference) returns (name: string)
    requires InterfaceDifferenceOf(norm, device, d)
    ensures ':' !in d.subjectType && d.subjectId == device + ":" + name && ':' !in d.Field()
  {
    var p: Pair :| p.0.name == device && d in Interfaces(norm)(p);
    name := InterfaceSubject(norm, p, d);
  }

  lemma KeptApart(d: string, e: string, n: string, m: string, a: Difference, b: Difference)
    requires NoPrefix(d, e) && a.subjectId == d + ":" + n && b.subjectId == e + ":" + m
    requires ':' !in a.subjectType && ':' !in b.subjectType && ':' !in a.Field() && ':' !in b.Field()
    ensures a.Key() != b.Key()
  {
    IdsApartIff(d, e);
    KeysNameSubjects(a, b);
  }

  /** A matched pair with one NetBox interface that the live device lacks. */
  function Lacking(device: string, interface_: string): Pair {
    (NetBox.Device(device, None, None, "", None, [NetBox.Interface(interface_, true, None, None)]),
     LiveDevice(device, device, None, None, None, None, [], [], []))
  }

  lemma LackingFinds(norm: Normalizer, device: string, interface_: string)
    ensures MissingDiff("interface", device + ":" + interface_, interface_) in Interfaces(norm)(Lacking(device, interface_))
  {
    var pair := Lacking(device, interface_);
    var d := MissingDiff("interface", device + ":" + interface_, interface_);
    InterfaceDifferencesAre(norm, pair, d);
    var key := norm(interface_);
    assert LastOf(pair.1.interfaces, LiveKey(norm), key).None?;
    assert LastOf(pair.0.interfaces, NetBoxKey(norm), key) == Some(pair.0.interfaces[0]);
    assert FoundUnder(norm, pair, key, d);
  }

  lemma LackingDiffers(norm: Normalizer, device: string, interface_: string)
    ensures InterfaceDifferenceOf(norm, device, MissingDiff("interface", device + ":" + interface_, interface_))
  {
    LackingFinds(norm, device, interface_);
    assert Lacking(device, interface_).0.name == device;
  }

  lemma PrefixReplaces(norm: Normalizer, d: string, e: string)
    requires d + ":" <= e + ":"
    ensures !NeverReplaced(norm, d, e) && !NeverReplaced(norm, e, d)
  {
    var n := (e + ":")[|d| + 1..];
    PrefixGivesSameId(d, e);
    LackingDiffers(norm, d, n);
    LackingDiffers(norm, e, "");
    var a, b := MissingDiff("interface", d + ":" + n, n), MissingDiff("interface", e + ":" + "", "");
    assert a.Key() == b.Key();
  }

  lemma KeysDiffer(norm: Normalizer, d: string, e: string, a: Difference, b: Difference)
    requires NoPrefix(d, e) && InterfaceDifferenceOf(norm, d, a) && InterfaceDifferenceOf(norm, e, b)
    ensures a.Key() != b.Key()
  {
    var n := SubjectOf(norm, d, a);
    var m := SubjectOf(norm, e, b);
    KeptApart(d, e, n, m, a, b);
  }

  lemma NoPrefixNeverReplaces(norm: Normalizer, d: string, e: string)
    requires NoPrefix(d, e)
    ensures NeverReplaced(norm, d, e)
  {
    forall a, b | InterfaceDifferenceOf(norm, d, a) && InterfaceDifferenceOf(norm, e, b) ensures a.Key() != b.Key() {
      KeysDiffer(norm, d, e, a, b);
    }
  }

  /** Whether a difference of one device can replace one of another is settled by the two
      device names: exactly if one of them, with a colon after it, begins the other. */
  lemma NeverReplacedIff(norm: Normalizer, d: string, e: string)
    ensures NeverReplaced(norm, d, e) <==> NoPrefix(d, e)
  {
    if NoPrefix(d, e) {
      NoPrefixNeverReplaces(norm, d, e);
    } else if d + ":" <= e + ":" {
      PrefixReplaces(norm, d, e);
    } else {
      PrefixReplaces(norm, e, d);
    }
  }

  lemma SameKeyReplaces(a: Difference, b: Difference)
    requires a.Key() == b.Key()
    ensures Registered([a, b]) == [b]
  {
    assert [a, b][..1] == [a] && [a][..0] == [];
    assert Build([a], KeyOf) == Put(Empty(), a.Key(), a);
  }

  lemma SameId()
    ensures "a" + ":" + "b:c" == "a:b:c" && "a:b" + ":" + "c" == "a:b:c" && "b:c" != "c"
  {
    assert |"b:c"| != |"c"|;
  }

  /** An input that loses a difference: interface "b:c" of device "a" and interface "c" of
      device "a:b" are both missing live, and one entry is registered for the two. */
  lemma OneDifferenceLost(norm: Normalizer)
    ensures
      var a, b := MissingDiff("interface", "a:b:c", "b:c"), MissingDiff("interface", "a:b:c", "c");
      && a in Interfaces(norm)(Lacking("a", "b:c")) && b in Interfaces(norm)(Lacking("a:b", "c"))
      && a != b && Registered([a, b]) == [b]
  {
    SameId();
    LackingFinds(norm, "a", "b:c");
    LackingFinds(norm, "a:b", "c");
    SameKeyReplaces(MissingDiff("interface", "a:b:c", "b:c"), MissingDiff("interface", "a:b:c", "c"));
  }
}
