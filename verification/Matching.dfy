// Matching NetBox devices to live ones (backend/app/comparison/matcher.py,
// backend/app/inventory/entities.py).

module NetBox {
  import opened Common

  datatype Interface = Interface(name: string, enabled: bool, macAddress: Option<string>, description: Option<string>)

  datatype Vlan = Vlan(vid: int, name: string, status: Option<string>)

  datatype Device = Device(
    name: string, serial: Option<string>, primaryIp: Option<string>, model: string, platform: Option<string>,
    interfaces: seq<Interface>)

  datatype Inventory = Inventory(devices: seq<Device>, vlans: seq<Vlan>)
}

module SortedNames {
  /** Python's order on text: code point by code point, a prefix before its extensions. */
  predicate Before(a: string, b: string) {
    if b == "" then false
    else if a == "" then true
    else if a[0] != b[0] then a[0] < b[0]
    else Before(a[1..], b[1..])
  }

  ghost predicate Ascending(s: seq<string>) {
    forall i, j | 0 <= i < j < |s| :: Before(s[i], s[j])
  }

  lemma {:induction false} BeforeIsTransitive(a: string, b: string, c: string)
    requires Before(a, b) && Before(b, c)
    ensures Before(a, c)
  {
    if a != "" && a[0] == b[0] && b[0] == c[0] { BeforeIsTransitive(a[1..], b[1..], c[1..]); }
  }

  lemma {:induction false} BeforeIsTotal(a: string, b: string)
    ensures a == b || Before(a, b) || Before(b, a)
    ensures !(Before(a, b) && Before(b, a)) && !Before(a, a)
  {
    if a != "" {
      BeforeIsTotal(a[1..], a[1..]);
      if b != "" && a[0] == b[0] {
        BeforeIsTotal(a[1..], b[1..]);
        assert a == [a[0]] + a[1..] && b == [b[0]] + b[1..];
      }
    }
  }

  /** Puts a name into its place, once. */
  function Insert(s: seq<string>, x: string): seq<string> {
    if s == [] then [x]
    else if x == s[0] then s
    else if Before(x, s[0]) then [x] + s
    else [s[0]] + Insert(s[1..], x)
  }

  lemma {:induction false} InsertKeepsAscending(s: seq<string>, x: string)
    requires Ascending(s)
    ensures Ascending(Insert(s, x))
    ensures forall y :: y in Insert(s, x) <==> y in s || y == x
  {
    if s == [] || x == s[0] {
    } else if Before(x, s[0]) {
      forall j | 0 <= j < |s| ensures Before(x, s[j]) {
        if j > 0 { BeforeIsTransitive(x, s[0], s[j]); }
      }
    } else {
      InsertKeepsAscending(s[1..], x);
      BeforeIsTotal(x, s[0]);
      var rest := Insert(s[1..], x);
      forall j | 0 <= j < |rest| ensures Before(s[0], rest[j]) {
        assert rest[j] in rest;
        if rest[j] != x {
          var k :| 0 <= k < |s| - 1 && s[1..][k] == rest[j];
          assert s[k + 1] == rest[j];
        }
      }
      assert s == [s[0]] + s[1..];
    }
  }

  /** Two ascending lists of the same names are one list. */
  lemma {:induction false} AscendingIsUnique(a: seq<string>, b: seq<string>)
    requires Ascending(a) && Ascending(b) && forall x :: x in a <==> x in b
    ensures a == b
  {
    if a == [] {
      if b != [] { HasSome(b); }
    } else {
      assert a[0] in b;
      LeastFirst(a, b);
      LeastFirst(b, a);
      BeforeIsTotal(a[0], b[0]);
      forall x ensures x in a[1..] <==> x in b[1..] {
        InTail(a, x);
        InTail(b, x);
      }
      AscendingIsUnique(a[1..], b[1..]);
      assert a == [a[0]] + a[1..] && b == [b[0]] + b[1..];
    }
  }

  lemma HasSome(s: seq<string>)
    requires s != []
    ensures exists x :: x in s
  {
    assert s[0] in s;
  }

  lemma LeastFirst(a: seq<string>, b: seq<string>)
    requires a != [] && Ascending(b) && a[0] in b
    ensures b[0] == a[0] || Before(b[0], a[0])
  {
    var i :| 0 <= i < |b| && b[i] == a[0];
  }

  lemma InTail(s: seq<string>, x: string)
    requires s != [] && Ascending(s)
    ensures x in s[1..] <==> x in s && x != s[0]
  {
    forall j | 1 <= j < |s| ensures s[j] != s[0] {
      assert Before(s[0], s[j]);
      BeforeIsTotal(s[0], s[0]);
    }
    assert s == [s[0]] + s[1..];
  }

  method Sorted(names: set<string>) returns (s: seq<string>)
    ensures Ascending(s) && forall x :: x in s <==> x in names
  {
    s := [];
    var rest := names;
    while rest != {}
      invariant rest <= names && Ascending(s) && forall x :: x in s <==> x in names - rest
    {
      var x :| x in rest;
      InsertKeepsAscending(s, x);
      s := Insert(s, x);
      rest := rest - {x};
    }
  }
}

module Matching {
  import opened Common
  import opened OrderedDicts
  import opened Snapshots
  import opened SortedNames
  import NetBox

  // strip().casefold(), of which nothing more is known here.
  type Normalizer = string -> string

  function Normalized(norm: Normalizer, value: Option<string>): string {
    if value.None? then "" else norm(value.value)
  }

  type Pair = (NetBox.Device, LiveDevice)

  datatype Match = Match(
    matched: seq<Pair>, missing: seq<NetBox.Device>, unexpected: seq<LiveDevice>, duplicateNetBox: seq<string>,
    duplicateLive: seq<string>)

  function NameKey(norm: Normalizer): LiveDevice -> string {
    (d: LiveDevice) => norm(d.name)
  }

  function FirstBySerial(norm: Normalizer, live: seq<LiveDevice>, key: string): Option<LiveDevice> {
    if live == [] then None
    else if Normalized(norm, live[0].serial) == key then Some(live[0])
    else FirstBySerial(norm, live[1..], key)
  }

  /** The live device a NetBox device stands for: of those with its name the last; if there
      is none, of those with its serial number the first. */
  function Counterpart(norm: Normalizer, live: seq<LiveDevice>, device: NetBox.Device): Option<LiveDevice> {
    var byName := LastOf(live, NameKey(norm), norm(device.name));
    if byName.Some? then byName
    else if device.serial.Some? && device.serial.value != "" then FirstBySerial(norm, live, norm(device.serial.value))
    else None
  }

  function Matched(norm: Normalizer, live: seq<LiveDevice>, devices: seq<NetBox.Device>): seq<Pair> {
    if devices == [] then []
    else
      var last := devices[|devices| - 1];
      Matched(norm, live, devices[..|devices| - 1])
        + if Counterpart(norm, live, last).Some? then [(last, Counterpart(norm, live, last).value)] else []
  }

  function Missing(norm: Normalizer, live: seq<LiveDevice>, devices: seq<NetBox.Device>): seq<NetBox.Device> {
    if devices == [] then []
    else
      var last := devices[|devices| - 1];
      Missing(norm, live, devices[..|devices| - 1]) + if Counterpart(norm, live, last).Some? then [] else [last]
  }

  predicate IdMatched(matched: seq<Pair>, id: string) {
    exists i | 0 <= i < |matched| :: matched[i].1.id == id
  }

  /** The live devices whose id nobody matched, in order. */
  function Unmatched(live: seq<LiveDevice>, matched: seq<Pair>): seq<LiveDevice> {
    if live == [] then []
    else
      var last := live[|live| - 1];
      Unmatched(live[..|live| - 1], matched) + if IdMatched(matched, last.id) then [] else [last]
  }

  function Without(devices: seq<LiveDevice>, id: string): seq<LiveDevice> {
    if devices == [] then []
    else
      var last := devices[|devices| - 1];
      Without(devices[..|devices| - 1], id) + if last.id != id then [last] else []
  }

  /** Non-empty names that occur more than once, sorted. */
  function Repeated(names: seq<string>): seq<string> {
    if names == [] then []
    else
      var front, last := names[..|names| - 1], names[|names| - 1];
      if last != "" && last in front then Insert(Repeated(front), last) else Repeated(front)
  }

  function NetBoxNames(norm: Normalizer, devices: seq<NetBox.Device>): seq<string> {
    seq(|devices|, i requires 0 <= i < |devices| => norm(devices[i].name))
  }

  function LiveNames(norm: Normalizer, devices: seq<LiveDevice>): seq<string> {
    seq(|devices|, i requires 0 <= i < |devices| => norm(devices[i].name))
  }

  function MatchOf(norm: Normalizer, devices: seq<NetBox.Device>, live: seq<LiveDevice>): Match {
    var matched := Matched(norm, live, devices);
    Match(matched, Missing(norm, live, devices), Unmatched(live, matched), Repeated(NetBoxNames(norm, devices)),
      Repeated(LiveNames(norm, live)))
  }

  // ------------------------------------------------------------------- methods

  method LiveBySerial(norm: Normalizer, live: seq<LiveDevice>, serial: string) returns (r: Option<LiveDevice>)
    ensures r == FirstBySerial(norm, live, norm(serial))
  {
    var key := norm(serial);
    assert live[0..] == live;
    for i := 0 to |live|
      invariant FirstBySerial(norm, live, key) == FirstBySerial(norm, live[i..], key)
    {
      assert live[i..][1..] == live[i + 1..];
      if Normalized(norm, live[i].serial) == key { return Some(live[i]); }
    }
    return None;
  }

  /** What a name repeated means, independent of any order. */
  ghost predicate Twice(names: seq<string>, x: string) {
    x != "" && exists i, j :: 0 <= i < j < |names| && names[i] == x && names[j] == x
  }

  lemma {:induction false} RepeatedNames(names: seq<string>)
    ensures Ascending(Repeated(names))
    ensures forall x :: x in Repeated(names) <==> Twice(names, x)
  {
    if names != [] {
      var front, last := names[..|names| - 1], names[|names| - 1];
      RepeatedNames(front);
      forall x ensures Twice(names, x) <==> Twice(front, x) || (x == last && last != "" && last in front) {
        TwiceStep(front, last, x);
        assert names == front + [last];
      }
      InsertKeepsAscending(Repeated(front), last);
    }
  }

  lemma TwiceStep(front: seq<string>, last: string, x: string)
    ensures Twice(front + [last], x) <==> Twice(front, x) || (x == last && last != "" && last in front)
  {
    var names := front + [last];
    if Twice(front, x) {
      var i, j :| 0 <= i < j < |front| && front[i] == x && front[j] == x;
      assert names[i] == x && names[j] == x;
    }
    if x == last && last != "" && last in front {
      var i :| 0 <= i < |front| && front[i] == x;
      assert names[i] == x && names[|front|] == x;
    }
    if Twice(names, x) {
      var i, j :| 0 <= i < j < |names| && names[i] == x && names[j] == x;
      assert front[i] == x;
      assert j < |front| ==> front[j] == x;
    }
  }

  method Duplicates(names: seq<string>) returns (r: seq<string>)
    ensures r == Repeated(names)
  {
    var seen: set<string>, duplicates: set<string> := {}, {};
    for i := 0 to |names|
      invariant forall x :: x in seen <==> x != "" && x in names[..i]
      invariant forall x :: x in duplicates <==> Twice(names[..i], x)
    {
      forall x ensures Twice(names[..i + 1], x) <==>
        Twice(names[..i], x) || (x == names[i] && names[i] != "" && names[i] in names[..i])
      {
        assert names[..i + 1] == names[..i] + [names[i]];
        TwiceStep(names[..i], names[i], x);
      }
      if names[i] == "" { continue; }
      if names[i] in seen {
        duplicates := duplicates + {names[i]};
      }
      seen := seen + {names[i]};
    }
    assert names[..|names|] == names;
    r := Sorted(duplicates);
    RepeatedNames(names);
    AscendingIsUnique(r, Repeated(names));
  }

  lemma {:induction false} MatchAlsoRemoves(live: seq<LiveDevice>, matched: seq<Pair>, pair: Pair)
    ensures Without(Unmatched(live, matched), pair.1.id) == Unmatched(live, matched + [pair])
  {
    if live != [] {
      var front, last := live[..|live| - 1], live[|live| - 1];
      MatchAlsoRemoves(front, matched, pair);
      assert IdMatched(matched + [pair], last.id) <==> IdMatched(matched, last.id) || pair.1.id == last.id by {
        var all := matched + [pair];
        assert all[|matched|] == pair;
        if IdMatched(matched, last.id) {
          var i :| 0 <= i < |matched| && matched[i].1.id == last.id;
          assert all[i] == matched[i];
        }
      }
      var rest, rest' := Unmatched(front, matched), Unmatched(front, matched + [pair]);
      assert rest + [] == rest && rest' + [] == rest';
      assert (rest + [last])[..|rest|] == rest;
    }
  }

  lemma {:induction false} NobodyMatched(live: seq<LiveDevice>)
    ensures Unmatched(live, []) == live
  {
    if live != [] { NobodyMatched(live[..|live| - 1]); }
  }

  /** The live device for one NetBox device, by name and then by serial number. */
  method FindLive(
    norm: Normalizer, live: seq<LiveDevice>, liveByName: Dict<string, LiveDevice>, device: NetBox.Device)
    returns (found: Option<LiveDevice>)
    requires liveByName == Build(live, NameKey(norm))
    ensures found == Counterpart(norm, live, device)
  {
    LastValueWins(live, NameKey(norm), norm(device.name));
    found := Get(liveByName, norm(device.name));
    if found.None? && device.serial.Some? && device.serial.value != "" {
      found := LiveBySerial(norm, live, device.serial.value);
    }
  }

  lemma MatchStep(norm: Normalizer, live: seq<LiveDevice>, devices: seq<NetBox.Device>, i: nat)
    requires i < |devices|
    ensures
      var found := Counterpart(norm, live, devices[i]);
      var matched, missing := Matched(norm, live, devices[..i]), Missing(norm, live, devices[..i]);
      && Matched(norm, live, devices[..i + 1]) == (if found.Some? then matched + [(devices[i], found.value)] else matched)
      && Missing(norm, live, devices[..i + 1]) == (if found.Some? then missing else missing + [devices[i]])
  {
    assert devices[..i + 1][..i] == devices[..i];
    var matched, missing := Matched(norm, live, devices[..i]), Missing(norm, live, devices[..i]);
    assert matched + [] == matched && missing + [] == missing;
  }

  /** InventoryMatcher.match */
  method MatchDevices(norm: Normalizer, devices: seq<NetBox.Device>, live: seq<LiveDevice>) returns (r: Match)
    ensures r == MatchOf(norm, devices, live)
  {
    var liveByName := Build(live, NameKey(norm));
    var duplicateNetBox := Duplicates(NetBoxNames(norm, devices));
    var duplicateLive := Duplicates(LiveNames(norm, live));
    var matched: seq<Pair>, missing: seq<NetBox.Device>, unexpected := [], [], live;
    NobodyMatched(live);
    for i := 0 to |devices|
      invariant matched == Matched(norm, live, devices[..i]) && missing == Missing(norm, live, devices[..i])
      invariant unexpected == Unmatched(live, matched)
    {
      MatchStep(norm, live, devices, i);
      var found := FindLive(norm, live, liveByName, devices[i]);
      if found.None? {
        missing := missing + [devices[i]];
        continue;
      }
      MatchAlsoRemoves(live, matched, (devices[i], found.value));
      matched := matched + [(devices[i], found.value)];
      unexpected := Without(unexpected, found.value.id);
    }
    assert devices[..|devices|] == devices;
    r := Match(matched, missing, unexpected, duplicateNetBox, duplicateLive);
  }

  // ---------------------------------------------------------------- the partition

  /** `whole` is `a` and `b` run together, each in its own order. */
  ghost predicate Shuffle<T(!new)>(a: seq<T>, b: seq<T>, whole: seq<T>) {
    if whole == [] then a == [] && b == []
    else
      var last, front := whole[|whole| - 1], whole[..|whole| - 1];
      || (a != [] && a[|a| - 1] == last && Shuffle(a[..|a| - 1], b, front))
      || (b != [] && b[|b| - 1] == last && Shuffle(a, b[..|b| - 1], front))
  }

  function NetBoxSide(pairs: seq<Pair>): seq<NetBox.Device> {
    seq(|pairs|, i requires 0 <= i < |pairs| => pairs[i].0)
  }

  /** Every NetBox device is matched or missing, never both, and both lists keep the order. */
  lemma {:induction false} MatchedAndMissingPartition(norm: Normalizer, live: seq<LiveDevice>, devices: seq<NetBox.Device>)
    ensures Shuffle(NetBoxSide(Matched(norm, live, devices)), Missing(norm, live, devices), devices)
  {
    if devices != [] {
      var front, last := devices[..|devices| - 1], devices[|devices| - 1];
      MatchedAndMissingPartition(norm, live, front);
      var a, b := Matched(norm, live, front), Missing(norm, live, front);
      if Counterpart(norm, live, last).Some? {
        assert NetBoxSide(Matched(norm, live, devices))[..|a|] == NetBoxSide(a);
        assert b + [] == b;
      } else {
        assert a + [] == a;
        assert (b + [last])[..|b|] == b;
      }
    }
  }

  /** Matched are exactly the devices with a counterpart, with it; missing are the others. */
  lemma {:induction false} MatchedIffCounterpart(
    norm: Normalizer, live: seq<LiveDevice>, devices: seq<NetBox.Device>, pair: Pair)
    ensures pair in Matched(norm, live, devices) <==>
      pair.0 in devices && Counterpart(norm, live, pair.0) == Some(pair.1)
    ensures pair.0 in Missing(norm, live, devices) <==>
      pair.0 in devices && Counterpart(norm, live, pair.0).None?
  {
    if devices != [] { MatchedIffCounterpart(norm, live, devices[..|devices| - 1], pair); }
  }

  ghost predicate SameName(norm: Normalizer, live: seq<LiveDevice>, device: NetBox.Device) {
    exists l :: l in live && norm(l.name) == norm(device.name)
  }

  // A live device with the serial number and none before it.
  ghost predicate IsFirst(norm: Normalizer, live: seq<LiveDevice>, key: string, found: LiveDevice) {
    exists i :: 0 <= i < |live| && live[i] == found && Normalized(norm, found.serial) == key
      && forall j | 0 <= j < i :: Normalized(norm, live[j].serial) != key
  }

  /** What a counterpart is: the last live device of that name, whatever its serial number; where
      none has the name, the first with the serial number, if the device has one. */
  lemma CounterpartIs(norm: Normalizer, live: seq<LiveDevice>, device: NetBox.Device)
    ensures var found := Counterpart(norm, live, device);
      if SameName(norm, live, device) then
        && found.Some? && found.value in live && norm(found.value.name) == norm(device.name)
        && IsLast(live, NameKey(norm), norm(device.name), found.value)
      else if device.serial.None? || device.serial.value == "" then found.None?
      else if found.Some? then IsFirst(norm, live, norm(device.serial.value), found.value)
      else forall l | l in live :: Normalized(norm, l.serial) != norm(device.serial.value)
  {
    LastOfIs(live, NameKey(norm), norm(device.name));
    if device.serial.Some? { FirstBySerialIs(norm, live, norm(device.serial.value)); }
    if SameName(norm, live, device) {
      var l :| l in live && norm(l.name) == norm(device.name);
      var i :| 0 <= i < |live| && live[i] == l;
      assert NameKey(norm)(live[i]) == norm(device.name);
    }
  }

  lemma {:induction false} FirstBySerialIs(norm: Normalizer, live: seq<LiveDevice>, key: string)
    ensures FirstBySerial(norm, live, key).Some? ==> IsFirst(norm, live, key, FirstBySerial(norm, live, key).value)
    ensures FirstBySerial(norm, live, key).None? ==> forall l | l in live :: Normalized(norm, l.serial) != key
  {
    if live != [] {
      FirstBySerialIs(norm, live[1..], key);
      assert live == [live[0]] + live[1..];
      if Normalized(norm, live[0].serial) != key && FirstBySerial(norm, live, key).Some? {
        StillFirst(norm, live, key, FirstBySerial(norm, live, key).value);
      }
    }
  }

  lemma StillFirst(norm: Normalizer, live: seq<LiveDevice>, key: string, found: LiveDevice)
    requires live != [] && Normalized(norm, live[0].serial) != key && IsFirst(norm, live[1..], key, found)
    ensures IsFirst(norm, live, key, found)
  {
    var rest := live[1..];
    var i :| 0 <= i < |rest| && rest[i] == found && Normalized(norm, found.serial) == key
      && forall j | 0 <= j < i :: Normalized(norm, rest[j].serial) != key;
    assert live[i + 1] == found;
    forall j | 0 <= j < i + 1 ensures Normalized(norm, live[j].serial) != key {
      if j > 0 { assert live[j] == rest[j - 1]; }
    }
  }

  /** Unexpected are exactly the live devices whose id nobody matched. */
  lemma {:induction false} UnexpectedIffUnmatched(live: seq<LiveDevice>, matched: seq<Pair>, l: LiveDevice)
    ensures l in Unmatched(live, matched) <==> l in live && !IdMatched(matched, l.id)
  {
    if live != [] { UnexpectedIffUnmatched(live[..|live| - 1], matched, l); }
  }
}
