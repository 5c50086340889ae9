// Live inventory snapshots and their merge (backend/app/snapshot/entities.py).

module Snapshots {
  import opened Common
  import opened OrderedDicts

  type Instant = int

  datatype LiveInterface = LiveInterface(
    name: string, adminStatus: Option<string>, macAddress: Option<string>, description: Option<string>)

  datatype LiveVlan = LiveVlan(id: int, name: string, status: Option<string>)

  datatype Neighbor = Neighbor(localInterface: string, remoteDevice: string)

  datatype LiveDevice = LiveDevice(
    id: string, name: string, serial: Option<string>, managementIp: Option<string>, model: Option<string>,
    platform: Option<string>, interfaces: seq<LiveInterface>, vlans: seq<LiveVlan>, neighbors: seq<Neighbor>)

  // The snapshot's own id is fresh each time and stands for nothing; it is left out.
  datatype Snapshot = Snapshot(devices: seq<LiveDevice>, capturedAt: Instant, version: string, source: Option<string>)

  const SCHEMA_VERSION := "1.0.0"

  function NoDevices(now: Instant): Snapshot {
    Snapshot([], now, SCHEMA_VERSION, None)
  }

  function Id(d: LiveDevice): string { d.id }

  // --------------------------------------------------------------------- merge

  function AllDevices(snapshots: seq<Snapshot>): seq<LiveDevice> {
    if snapshots == [] then []
    else AllDevices(snapshots[..|snapshots| - 1]) + snapshots[|snapshots| - 1].devices
  }

  function Latest(snapshots: seq<Snapshot>): Instant
    requires snapshots != []
  {
    var last := snapshots[|snapshots| - 1].capturedAt;
    if |snapshots| == 1 then last
    else
      var before := Latest(snapshots[..|snapshots| - 1]);
      if last > before then last else before
  }

  function LastSource(snapshots: seq<Snapshot>): Option<string> {
    if snapshots == [] then None
    else if snapshots[|snapshots| - 1].source.Some? then snapshots[|snapshots| - 1].source
    else LastSource(snapshots[..|snapshots| - 1])
  }

  function Merged(snapshots: seq<Snapshot>): Snapshot
    requires snapshots != []
  {
    Snapshot(Values(Build(AllDevices(snapshots), Id)), Latest(snapshots), snapshots[|snapshots| - 1].version,
      LastSource(snapshots))
  }

  method Merge(snapshots: seq<Snapshot>, now: Instant) returns (r: Snapshot)
    ensures r == if snapshots == [] then NoDevices(now) else Merged(snapshots)
  {
    if snapshots == [] {
      return NoDevices(now);
    }
    var merged: Dict<string, LiveDevice> := Empty();
    var latestCapturedAt, latestVersion, latestSource :=
      snapshots[0].capturedAt, snapshots[0].version, snapshots[0].source;
    for i := 0 to |snapshots|
      invariant merged == Build(AllDevices(snapshots[..i]), Id)
      invariant latestCapturedAt == if i == 0 then snapshots[0].capturedAt else Latest(snapshots[..i])
      invariant latestVersion == if i == 0 then snapshots[0].version else snapshots[i - 1].version
      invariant latestSource == if i == 0 then snapshots[0].source else LastSource(snapshots[..i])
    {
      var snapshot := snapshots[i];
      ghost var before := snapshots[..i];
      assert snapshots[..i + 1][..i] == before;
      if snapshot.capturedAt > latestCapturedAt {
        latestCapturedAt := snapshot.capturedAt;
      }
      latestVersion := snapshot.version;
      if snapshot.source.Some? {
        latestSource := snapshot.source;
      }
      PutAllBuilds(AllDevices(before), snapshot.devices);
      merged := PutDevices(merged, snapshot.devices);
    }
    assert snapshots[..|snapshots|] == snapshots;
    r := Snapshot(Values(merged), latestCapturedAt, latestVersion, latestSource);
  }

  method PutDevices(before: Dict<string, LiveDevice>, devices: seq<LiveDevice>) returns (merged: Dict<string, LiveDevice>)
    requires before.Valid()
    ensures merged == PutAll(before, devices, Id)
  {
    merged := before;
    for i := 0 to |devices|
      invariant merged == PutAll(before, devices[..i], Id)
    {
      assert devices[..i + 1] == devices[..i] + [devices[i]];
      PutAllSnoc(before, devices[..i], devices[i], Id);
      merged := Put(merged, devices[i].id, devices[i]);
    }
    assert devices[..|devices|] == devices;
  }

  lemma PutAllBuilds(earlier: seq<LiveDevice>, devices: seq<LiveDevice>)
    ensures PutAll(Build(earlier, Id), devices, Id) == Build(earlier + devices, Id)
  {
    BuildIsPutAll(earlier, Id);
    BuildIsPutAll(earlier + devices, Id);
    PutAllAppend(Empty(), earlier, devices, Id);
  }

  // ------------------------------------------------------------- what it contains

  ghost predicate HasId(devices: seq<LiveDevice>, id: string) {
    exists i :: 0 <= i < |devices| && devices[i].id == id
  }

  lemma IdsAreKeys(all: seq<LiveDevice>)
    ensures
      var built := Build(all, Id);
      forall i | 0 <= i < |built.keys| :: Values(built)[i].id == built.keys[i]
  {
    BuildKeysFit(all, Id);
  }

  lemma NoDeviceLost(all: seq<LiveDevice>, d: LiveDevice)
    requires d in all
    ensures HasId(Values(Build(all, Id)), d.id)
  {
    var built := Build(all, Id);
    IdsAreKeys(all);
    KeysAreSeen(all, Id, d.id);
    assert d.id in built.keys;
    var i :| 0 <= i < |built.keys| && built.keys[i] == d.id;
    assert Values(built)[i].id == d.id;
  }

  lemma LatestCaptureKept(all: seq<LiveDevice>, i: nat)
    requires i < |Values(Build(all, Id))|
    ensures Some(Values(Build(all, Id))[i]) == LastOf(all, Id, Values(Build(all, Id))[i].id)
  {
    IdsAreKeys(all);
    LastValueWins(all, Id, Build(all, Id).keys[i]);
  }

  lemma FirstAppearanceOrders(all: seq<LiveDevice>, i: nat, j: nat)
    requires i < j < |Values(Build(all, Id))|
    ensures FirstAt(all, Id, Values(Build(all, Id))[i].id) < FirstAt(all, Id, Values(Build(all, Id))[j].id)
  {
    IdsAreKeys(all);
    FirstInsertionOrders(all, Id);
  }

  /** One device per id, in the order of first appearance, each as captured last. */
  lemma MergedDevices(snapshots: seq<Snapshot>)
    requires snapshots != []
    ensures
      var all, devices := AllDevices(snapshots), Merged(snapshots).devices;
      && (forall d | d in all :: HasId(devices, d.id))
      && (forall i | 0 <= i < |devices| :: Some(devices[i]) == LastOf(all, Id, devices[i].id))
      && (forall i, j | 0 <= i < j < |devices| :: FirstAt(all, Id, devices[i].id) < FirstAt(all, Id, devices[j].id))
  {
    var all, devices := AllDevices(snapshots), Merged(snapshots).devices;
    forall d | d in all ensures HasId(devices, d.id) { NoDeviceLost(all, d); }
    forall i | 0 <= i < |devices| ensures Some(devices[i]) == LastOf(all, Id, devices[i].id) { LatestCaptureKept(all, i); }
    forall i, j | 0 <= i < j < |devices|
      ensures FirstAt(all, Id, devices[i].id) < FirstAt(all, Id, devices[j].id)
    {
      FirstAppearanceOrders(all, i, j);
    }
  }

  // The last snapshot that names a source.
  ghost predicate NamesSourceLast(snapshots: seq<Snapshot>, i: nat) {
    i < |snapshots| && snapshots[i].source.Some? && forall j | i < j < |snapshots| :: snapshots[j].source.None?
  }

  lemma {:induction false} LastSourceIs(snapshots: seq<Snapshot>)
    ensures LastSource(snapshots).Some? ==>
      exists i: nat :: NamesSourceLast(snapshots, i) && LastSource(snapshots) == snapshots[i].source
    ensures LastSource(snapshots).None? ==> forall s | s in snapshots :: s.source.None?
  {
    if snapshots != [] {
      var front, last := snapshots[..|snapshots| - 1], snapshots[|snapshots| - 1];
      LastSourceIs(front);
      if last.source.Some? {
        assert NamesSourceLast(snapshots, |front|);
      } else if LastSource(front).Some? {
        var i: nat :| NamesSourceLast(front, i) && LastSource(front) == front[i].source;
        assert snapshots[i] == front[i];
        assert NamesSourceLast(snapshots, i);
      }
    }
  }

  /** The version is that of the last snapshot, the source that of the last one that names one. */
  lemma MergedColumns(snapshots: seq<Snapshot>)
    requires snapshots != []
    ensures Merged(snapshots).version == snapshots[|snapshots| - 1].version
    ensures Merged(snapshots).source.Some? ==>
      exists i: nat :: NamesSourceLast(snapshots, i) && Merged(snapshots).source == snapshots[i].source
    ensures Merged(snapshots).source.None? ==> forall s | s in snapshots :: s.source.None?
  {
    LastSourceIs(snapshots);
  }

  lemma {:induction false} LatestIsMaximum(snapshots: seq<Snapshot>)
    requires snapshots != []
    ensures forall i | 0 <= i < |snapshots| :: snapshots[i].capturedAt <= Latest(snapshots)
    ensures exists i | 0 <= i < |snapshots| :: snapshots[i].capturedAt == Latest(snapshots)
  {
    if |snapshots| > 1 {
      var front := snapshots[..|snapshots| - 1];
      LatestIsMaximum(front);
      var i :| 0 <= i < |front| && front[i].capturedAt == Latest(front);
      assert snapshots[i].capturedAt == Latest(front);
      assert snapshots[|snapshots| - 1].capturedAt <= Latest(snapshots);
    } else {
      assert snapshots[0].capturedAt == Latest(snapshots);
    }
  }

  // --------------------------------------------------------------- associativity

  lemma {:induction false} DevicesAppend(a: seq<Snapshot>, b: seq<Snapshot>)
    ensures AllDevices(a + b) == AllDevices(a) + AllDevices(b)
  {
    if b == [] {
      assert a + b == a;
    } else {
      assert (a + b)[..|a + b| - 1] == a + b[..|b| - 1];
      DevicesAppend(a, b[..|b| - 1]);
    }
  }

  lemma {:induction false} LatestAppend(a: seq<Snapshot>, b: seq<Snapshot>)
    requires a != [] && b != []
    ensures Latest(a + b) == if Latest(b) > Latest(a) then Latest(b) else Latest(a)
  {
    assert (a + b)[..|a + b| - 1] == a + b[..|b| - 1];
    if |b| == 1 {
      assert a + b[..|b| - 1] == a;
    } else {
      LatestAppend(a, b[..|b| - 1]);
    }
  }

  lemma {:induction false} SourceAppend(a: seq<Snapshot>, b: seq<Snapshot>)
    ensures LastSource(a + b) == if LastSource(b).Some? then LastSource(b) else LastSource(a)
  {
    if b == [] {
      assert a + b == a;
    } else {
      assert (a + b)[..|a + b| - 1] == a + b[..|b| - 1];
      SourceAppend(a, b[..|b| - 1]);
    }
  }

  lemma RebuildInside(before: seq<LiveDevice>, part: seq<LiveDevice>, after: seq<LiveDevice>)
    ensures Build(before + Values(Build(part, Id)) + after, Id) == Build(before + part + after, Id)
  {
    var d := PutAll(Empty(), before, Id);
    var rebuilt := Values(Build(part, Id));
    BuildIsPutAll(before + rebuilt + after, Id);
    BuildIsPutAll(before + part + after, Id);
    PutAllAppend(Empty(), before + rebuilt, after, Id);
    PutAllAppend(Empty(), before, rebuilt, Id);
    PutAllAppend(Empty(), before + part, after, Id);
    PutAllAppend(Empty(), before, part, Id);
    RebuildingIsBuilding(d, part, Id);
  }

  lemma DevicesAround(a: seq<Snapshot>, b: seq<Snapshot>, c: seq<Snapshot>)
    ensures AllDevices(a + b + c) == AllDevices(a) + AllDevices(b) + AllDevices(c)
  {
    DevicesAppend(a + b, c);
    DevicesAppend(a, b);
  }

  lemma LatestAround(a: seq<Snapshot>, b: seq<Snapshot>, b': seq<Snapshot>, c: seq<Snapshot>)
    requires b != [] && b' != [] && Latest(b) == Latest(b')
    ensures Latest(a + b + c) == Latest(a + b' + c)
  {
    if a == [] {
      assert a + b == b && a + b' == b';
    } else {
      LatestAppend(a, b);
      LatestAppend(a, b');
    }
    if c == [] {
      assert a + b + c == a + b && a + b' + c == a + b';
    } else {
      LatestAppend(a + b, c);
      LatestAppend(a + b', c);
    }
  }

  lemma SourceAround(a: seq<Snapshot>, b: seq<Snapshot>, b': seq<Snapshot>, c: seq<Snapshot>)
    requires LastSource(b) == LastSource(b')
    ensures LastSource(a + b + c) == LastSource(a + b' + c)
  {
    SourceAppend(a + b, c);
    SourceAppend(a, b);
    SourceAppend(a + b', c);
    SourceAppend(a, b');
  }

  lemma MergedAlone(b: seq<Snapshot>)
    requires b != []
    ensures AllDevices([Merged(b)]) == Merged(b).devices && LastSource([Merged(b)]) == LastSource(b)
    ensures Latest([Merged(b)]) == Latest(b)
  {
    JustOne(Merged(b));
  }

  lemma DevicesMergedInside(a: seq<Snapshot>, b: seq<Snapshot>, c: seq<Snapshot>)
    requires b != []
    ensures Build(AllDevices(a + [Merged(b)] + c), Id) == Build(AllDevices(a + b + c), Id)
  {
    MergedAlone(b);
    DevicesAround(a, [Merged(b)], c);
    DevicesAround(a, b, c);
    RebuildInside(AllDevices(a), AllDevices(b), AllDevices(c));
  }

  lemma VersionAround(a: seq<Snapshot>, b: seq<Snapshot>, b': seq<Snapshot>, c: seq<Snapshot>)
    requires b != [] && b' != [] && b[|b| - 1].version == b'[|b'| - 1].version
    ensures var whole, whole' := a + b + c, a + b' + c;
      whole[|whole| - 1].version == whole'[|whole'| - 1].version
  {
  }

  lemma MergedAlike(one: seq<Snapshot>, other: seq<Snapshot>)
    requires one != [] && other != [] && one[|one| - 1].version == other[|other| - 1].version
    requires Build(AllDevices(one), Id) == Build(AllDevices(other), Id)
    requires Latest(one) == Latest(other) && LastSource(one) == LastSource(other)
    ensures Merged(one) == Merged(other)
  {
  }

  lemma MergedAround(a: seq<Snapshot>, b: seq<Snapshot>, b': seq<Snapshot>, c: seq<Snapshot>)
    requires b != [] && b' != [] && b[|b| - 1].version == b'[|b'| - 1].version
    requires Latest(b) == Latest(b') && LastSource(b) == LastSource(b')
    requires Build(AllDevices(a + b + c), Id) == Build(AllDevices(a + b' + c), Id)
    ensures Merged(a + b + c) == Merged(a + b' + c)
  {
    LatestAround(a, b, b', c);
    SourceAround(a, b, b', c);
    VersionAround(a, b, b', c);
    MergedAlike(a + b + c, a + b' + c);
  }

  /** Merging part of a list first changes nothing: grouping does not matter. */
  lemma MergeIsAssociative(a: seq<Snapshot>, b: seq<Snapshot>, c: seq<Snapshot>)
    requires b != []
    ensures Merged(a + [Merged(b)] + c) == Merged(a + b + c)
  {
    DevicesMergedInside(a, b, c);
    MergedAlone(b);
    MergedAround(a, [Merged(b)], b, c);
  }

  ghost predicate DistinctIds(devices: seq<LiveDevice>) {
    forall i, j | 0 <= i < j < |devices| :: devices[i].id != devices[j].id
  }

  lemma {:induction false} DistinctDevicesStay(devices: seq<LiveDevice>)
    requires DistinctIds(devices)
    ensures Values(Build(devices, Id)) == devices
  {
    if devices != [] {
      var front, last := devices[..|devices| - 1], devices[|devices| - 1];
      DistinctDevicesStay(front);
      KeysAreSeen(front, Id, last.id);
      ValuesAfterPut(Build(front, Id), last.id, last, |front|);
    }
  }

  lemma MergedIdsAreDistinct(snapshots: seq<Snapshot>)
    requires snapshots != []
    ensures DistinctIds(Merged(snapshots).devices)
  {
    BuildKeysFit(AllDevices(snapshots), Id);
  }

  /** Merging in the snapshot of no devices last is neutral exactly when the schema version is
      the snapshot's own, the time is not later and no id repeats. */
  lemma EmptyLastIsNeutralIff(s: Snapshot, now: Instant)
    ensures Merged([s, NoDevices(now)]) == s <==>
      s.version == SCHEMA_VERSION && now <= s.capturedAt && DistinctIds(s.devices)
  {
    var both, one := [s, NoDevices(now)], [s];
    assert both[..1] == one;
    JustOne(s);
    assert AllDevices(both) == s.devices;
    if DistinctIds(s.devices) { DistinctDevicesStay(s.devices); }
    if Merged(both) == s { MergedIdsAreDistinct(both); }
  }

  /** Merging it in first keeps version and source, whatever they are. */
  lemma EmptyFirstIsNeutralIff(s: Snapshot, now: Instant)
    ensures Merged([NoDevices(now), s]) == s <==> now <= s.capturedAt && DistinctIds(s.devices)
  {
    var both, one := [NoDevices(now), s], [NoDevices(now)];
    assert both[..1] == one;
    JustOne(NoDevices(now));
    assert AllDevices(both) == s.devices;
    if DistinctIds(s.devices) { DistinctDevicesStay(s.devices); }
    if Merged(both) == s { MergedIdsAreDistinct(both); }
  }

  /** Snapshots that the empty one changes: of an older version on one side, of an earlier
      time on both. */
  lemma EmptyIsNotNeutral()
    ensures
      var old_, early := Snapshot([], 1, "0.9.0", Some("live")), Snapshot([], 0, SCHEMA_VERSION, None);
      && Merged([old_, NoDevices(1)]) != old_ && Merged([NoDevices(1), old_]) == old_
      && Merged([early, NoDevices(1)]) != early && Merged([NoDevices(1), early]) != early
  {
    var old_, early := Snapshot([], 1, "0.9.0", Some("live")), Snapshot([], 0, SCHEMA_VERSION, None);
    assert "0.9.0"[0] == '0' && SCHEMA_VERSION[0] == '1';
    EmptyLastIsNeutralIff(old_, 1);
    EmptyFirstIsNeutralIff(old_, 1);
    EmptyLastIsNeutralIff(early, 1);
    EmptyFirstIsNeutralIff(early, 1);
  }

  lemma JustOne(s: Snapshot)
    ensures AllDevices([s]) == s.devices && LastSource([s]) == s.source && Latest([s]) == s.capturedAt
  {
    assert [s][..0] == [];
    assert AllDevices([]) + s.devices == s.devices;
  }
}
