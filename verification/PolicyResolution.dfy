// From a list of packages to the compiled policies, one for each policy key
// (backend/app/policies/evaluation.py).

module PolicyResolution {
  import opened Common
  import opened Texts
  import opened OrderedDicts
  import opened PolicyInheritance

  datatype Compiled = Compiled(package: Package, ruleKeys: seq<RuleKey>)

  datatype UnknownRule = UnknownRule(package: Package, rule: RuleKey)

  // ----------------------------------------------------------- specification

  /** Packages by id: the one given last. */
  function RegistryOf(packages: seq<Package>): Registry {
    if packages == [] then map[]
    else
      var last := packages[|packages| - 1];
      RegistryOf(packages[..|packages| - 1])[last.id := last]
  }

  function OfKey(packages: seq<Package>, key: string): (r: seq<Package>)
    ensures forall p :: p in r <==> p in packages && p.key == key
  {
    if packages == [] then []
    else
      var last := packages[|packages| - 1];
      assert packages == packages[..|packages| - 1] + [last];
      var before := OfKey(packages[..|packages| - 1], key);
      if last.key == key then before + [last] else before
  }

  function KeysOf(packages: seq<Package>): (r: seq<string>)
    ensures |r| == |packages| && forall i | 0 <= i < |r| :: r[i] == packages[i].key
  {
    seq(|packages|, i requires 0 <= i < |packages| => packages[i].key)
  }

  predicate HasKey(packages: seq<Package>, key: string) {
    OfKey(packages, key) != []
  }

  function Selected(packages: seq<Package>, key: string): Package
    requires HasKey(packages, key)
  {
    SelectsLatest(OfKey(packages, key));
    SortDescending(OfKey(packages, key))[0]
  }

  /** The packages whose rules a key's compiled policy takes, in order. */
  function Sources(packages: seq<Package>, key: string): seq<Package>
    requires HasKey(packages, key)
  {
    Resolved(Selected(packages, key), RegistryOf(packages))
  }

  function FirstUnknown(keys: seq<RuleKey>, known: set<RuleKey>): Option<RuleKey> {
    if keys == [] then None else if keys[0] !in known then Some(keys[0]) else FirstUnknown(keys[1..], known)
  }

  function Compile(package: Package, byId: Registry, known: set<RuleKey>): Result<Compiled, UnknownRule> {
    var keys := Dedup(Flatten(Resolved(package, byId)));
    match FirstUnknown(keys, known)
    case Some(rule) => Err(UnknownRule(package, rule))
    case None => Ok(Compiled(package, keys))
  }

  /** One policy for each package, up to the first that does not compile. */
  function CompileEach(selected: seq<Package>, byId: Registry, known: set<RuleKey>): Result<seq<Compiled>, UnknownRule> {
    if selected == [] then Ok([])
    else
      match Compile(selected[0], byId, known)
      case Err(e) => Err(e)
      case Ok(first) => Behind([first], CompileEach(selected[1..], byId, known))
  }

  function Behind(done: seq<Compiled>, rest: Result<seq<Compiled>, UnknownRule>): Result<seq<Compiled>, UnknownRule> {
    match rest
    case Err(e) => Err(e)
    case Ok(more) => Ok(done + more)
  }

  // -------------------------------------------------------------- operations

  ghost predicate Grouped(groups: Dict<string, seq<Package>>, packages: seq<Package>) {
    && groups.Valid() && groups.keys == Dedup(KeysOf(packages))
    && forall k | k in groups.items :: groups.items[k] == OfKey(packages, k)
  }

  lemma GroupOneMore(groups: Dict<string, seq<Package>>, packages: seq<Package>, p: Package)
    requires Grouped(groups, packages)
    ensures Grouped(Put(groups, p.key, Entries(groups, p.key) + [p]), packages + [p])
  {
    var after := Put(groups, p.key, Entries(groups, p.key) + [p]);
    KeysOfSnoc(packages, p);
    forall k | k in after.items ensures after.items[k] == OfKey(packages + [p], k) {
      OfKeySnoc(packages, p, k);
      if HasKey(packages, p.key) { KeyIsListed(packages, p.key); }
    }
  }

  lemma OfKeySnoc(packages: seq<Package>, p: Package, key: string)
    ensures OfKey(packages + [p], key) == if p.key == key then OfKey(packages, key) + [p] else OfKey(packages, key)
  {
    assert (packages + [p])[..|packages|] == packages;
  }

  lemma KeysOfSnoc(packages: seq<Package>, p: Package)
    ensures Dedup(KeysOf(packages + [p])) ==
            if p.key in Dedup(KeysOf(packages)) then Dedup(KeysOf(packages)) else Dedup(KeysOf(packages)) + [p.key]
  {
    assert KeysOf(packages + [p]) == KeysOf(packages) + [p.key];
    DedupSnoc(KeysOf(packages), p.key);
  }

  lemma KeyIsListed(packages: seq<Package>, key: string)
    requires HasKey(packages, key)
    ensures key in Dedup(KeysOf(packages))
  {
    var p := OfKey(packages, key)[0];
    assert p in OfKey(packages, key);
    var i :| 0 <= i < |packages| && packages[i] == p;
    assert KeysOf(packages)[i] == key;
    DedupFacts(KeysOf(packages));
  }

  lemma KeysHavePackages(packages: seq<Package>)
    ensures forall k | k in Dedup(KeysOf(packages)) :: HasKey(packages, k)
  {
    DedupFacts(KeysOf(packages));
    forall k | k in Dedup(KeysOf(packages)) ensures HasKey(packages, k) {
      var i :| 0 <= i < |packages| && KeysOf(packages)[i] == k;
      assert packages[i] in OfKey(packages, k);
    }
  }

  /** The packages that are compiled, by order of their keys' first occurrence. */
  function SelectedAll(packages: seq<Package>): (r: seq<Package>)
    ensures |r| == |Dedup(KeysOf(packages))|
    ensures forall i | 0 <= i < |r| ::
      HasKey(packages, Dedup(KeysOf(packages))[i]) && r[i] == Selected(packages, Dedup(KeysOf(packages))[i])
  {
    KeysHavePackages(packages);
    var keys := Dedup(KeysOf(packages));
    seq(|keys|, i requires 0 <= i < |keys| => assert keys[i] in keys; Selected(packages, keys[i]))
  }

  function Entries(groups: Dict<string, seq<Package>>, key: string): seq<Package> {
    if key in groups.items then groups.items[key] else []
  }

  /** The loop that files the packages under key and under id. */
  method FilePackages(packages: seq<Package>) returns (groups: Dict<string, seq<Package>>, byId: Registry)
    ensures Grouped(groups, packages) && byId == RegistryOf(packages)
  {
    groups, byId := Empty(), map[];
    for i := 0 to |packages|
      invariant Grouped(groups, packages[..i]) && byId == RegistryOf(packages[..i])
    {
      var package := packages[i];
      assert packages[..i + 1] == packages[..i] + [package] && packages[..i + 1][..i] == packages[..i];
      GroupOneMore(groups, packages[..i], package);
      groups := Put(groups, package.key, Entries(groups, package.key) + [package]);
      byId := byId[package.id := package];
    }
    assert packages[..|packages|] == packages;
  }

  method BuildPolicy(package: Package, byId: Registry, known: set<RuleKey>) returns (r: Result<Compiled, UnknownRule>)
    ensures r == Compile(package, byId, known)
  {
    var ordered, _ := ResolveInheritedPackages(package, byId, {});
    var keys := CollectRuleKeys(ordered);
    for i := 0 to |keys|
      invariant FirstUnknown(keys, known) == FirstUnknown(keys[i..], known)
    {
      if keys[i] !in known { return Err(UnknownRule(package, keys[i])); }
      assert keys[i..][1..] == keys[i + 1..];
    }
    return Ok(Compiled(package, keys));
  }

  /** The entries of one key, latest first, and the policy of the first of them. */
  method CompileKey(entries: seq<Package>, byId: Registry, known: set<RuleKey>) returns (r: Result<Compiled, UnknownRule>)
    requires entries != []
    ensures SortDescending(entries) != [] && r == Compile(SortDescending(entries)[0], byId, known)
  {
    SelectsLatest(entries);
    var sorted := SortDescending(entries);
    r := BuildPolicy(sorted[0], byId, known);
  }

  lemma GroupAt(groups: Dict<string, seq<Package>>, packages: seq<Package>, i: nat)
    requires Grouped(groups, packages) && i < |groups.keys|
    ensures |SelectedAll(packages)| == |groups.keys|
    ensures groups.keys[i] in groups.items
    ensures var entries := groups.items[groups.keys[i]];
      entries != [] && SortDescending(entries) != [] && SortDescending(entries)[0] == SelectedAll(packages)[i]
  {
    var key := groups.keys[i];
    assert SelectedAll(packages)[i] == Selected(packages, key) && HasKey(packages, key);
    SelectsLatest(OfKey(packages, key));
  }

  method ResolveWithVersions(packages: seq<Package>, known: set<RuleKey>) returns (r: Result<seq<Compiled>, UnknownRule>)
    ensures r == CompileEach(SelectedAll(packages), RegistryOf(packages), known)
  {
    var groups, byId := FilePackages(packages);
    var compiled: seq<Compiled> := [];
    ghost var selected := SelectedAll(packages);
    CompiledFromEnds(compiled, selected, byId, known);
    for i := 0 to |groups.keys|
      invariant CompileEach(selected, byId, known) == CompiledFrom(compiled, selected, i, byId, known)
    {
      GroupAt(groups, packages, i);
      var policy := CompileKey(groups.items[groups.keys[i]], byId, known);
      CompileTurn(compiled, selected, i, byId, known, policy);
      if policy.Err? { return Err(policy.error); }
      compiled := compiled + [policy.value];
    }
    CompiledFromEnds(compiled, selected, byId, known);
    return Ok(compiled);
  }

  /** What the loop returns when `done` is compiled and selected[i..] is still to come. */
  ghost function CompiledFrom(done: seq<Compiled>, selected: seq<Package>, i: nat, byId: Registry, known: set<RuleKey>)
    : Result<seq<Compiled>, UnknownRule>
    requires i <= |selected|
  {
    Behind(done, CompileEach(selected[i..], byId, known))
  }

  lemma CompiledFromEnds(done: seq<Compiled>, selected: seq<Package>, byId: Registry, known: set<RuleKey>)
    ensures CompiledFrom([], selected, 0, byId, known) == CompileEach(selected, byId, known)
    ensures CompiledFrom(done, selected, |selected|, byId, known) == Ok(done)
  {
    assert selected[0..] == selected && selected[|selected|..] == [];
    var none: seq<Compiled> := [];
    assert done + none == done && CompileEach(selected[|selected|..], byId, known) == Ok(none);
    var all := CompileEach(selected, byId, known);
    if all.Ok? { assert [] + all.value == all.value; }
  }

  lemma CompileTurn(done: seq<Compiled>, selected: seq<Package>, i: nat, byId: Registry, known: set<RuleKey>,
    r: Result<Compiled, UnknownRule>)
    requires i < |selected| && r == Compile(selected[i], byId, known)
    ensures CompiledFrom(done, selected, i, byId, known)
            == if r.Err? then Err(r.error) else CompiledFrom(done + [r.value], selected, i + 1, byId, known)
  {
    assert selected[i..][0] == selected[i] && selected[i..][1..] == selected[i + 1..];
    if r.Ok? { BehindBoth(done, r.value, CompileEach(selected[i + 1..], byId, known)); }
  }

  lemma BehindBoth(done: seq<Compiled>, next: Compiled, rest: Result<seq<Compiled>, UnknownRule>)
    ensures Behind(done, Behind([next], rest)) == Behind(done + [next], rest)
  {
    if rest.Ok? { assert done + ([next] + rest.value) == done + [next] + rest.value; }
  }

  // ---------------------------------------------------------------- registry

  ghost predicate GivenLast(packages: seq<Package>, p: Package) {
    exists i :: 0 <= i < |packages| && packages[i] == p && forall j | i < j < |packages| :: packages[j].id != p.id
  }

  lemma StillGivenLast(front: seq<Package>, last: Package, p: Package)
    requires GivenLast(front, p) && last.id != p.id
    ensures GivenLast(front + [last], p)
  {
    var all := front + [last];
    var i :| 0 <= i < |front| && front[i] == p && forall j | i < j < |front| :: front[j].id != p.id;
    assert all[i] == p && forall j | i < j < |all| :: all[j].id != p.id;
  }

  /** An id is known exactly if some package has it; it stands for the one given last. */
  lemma {:induction false} RegistryHoldsLast(packages: seq<Package>)
    ensures Registered(RegistryOf(packages))
    ensures forall p | p in packages :: p.id in RegistryOf(packages)
    ensures forall x | x in RegistryOf(packages) :: GivenLast(packages, RegistryOf(packages)[x])
  {
    if packages != [] {
      var front, last := packages[..|packages| - 1], packages[|packages| - 1];
      assert packages == front + [last];
      RegistryHoldsLast(front);
      forall x | x in RegistryOf(packages) ensures GivenLast(packages, RegistryOf(packages)[x]) {
        if x != last.id { StillGivenLast(front, last, RegistryOf(front)[x]); }
      }
    }
  }

  ghost predicate OnePackage(packages: seq<Package>, x: Id) {
    forall p, q | p in packages && q in packages && p.id == x && q.id == x :: p == q
  }

  lemma HeldIsGiven(packages: seq<Package>, x: Id)
    requires x in RegistryOf(packages)
    ensures RegistryOf(packages)[x] in packages && RegistryOf(packages)[x].id == x
  {
    RegistryHoldsLast(packages);
    assert GivenLast(packages, RegistryOf(packages)[x]);
  }

  // ------------------------------------------------ the walk meets what it can reach

  ghost predicate AgreeAbove(one: Registry, other: Registry, ids: seq<Id>) {
    && one.Keys == other.Keys
    && forall x | x in one && Reachable(one, ids, x) :: one[x] == other[x]
  }

  lemma AgreeOnRest(one: Registry, other: Registry, ids: seq<Id>)
    requires ids != [] && AgreeAbove(one, other, ids)
    ensures AgreeAbove(one, other, ids[1..])
    ensures ids[0] in one ==> one[ids[0]] == other[ids[0]] && AgreeAbove(one, other, one[ids[0]].inherited)
  {
    assert forall i | i in ids[1..] :: i in ids;
    forall x | x in one && Reachable(one, ids[1..], x) ensures one[x] == other[x] { ReachWider(one, ids[1..], ids, x); }
    if ids[0] in one {
      ReachFirst(one, ids, ids[0]);
      forall x | x in one && Reachable(one, one[ids[0]].inherited, x) ensures one[x] == other[x] {
        ReachThrough(one, ids, ids[0], x);
      }
    }
  }

  /** Registries that agree on what is reachable resolve alike. */
  lemma {:induction false} WalkAgrees(ids: seq<Id>, one: Registry, other: Registry, visited: set<Id>)
    requires AgreeAbove(one, other, ids)
    ensures Walk(ids, one, visited) == Walk(ids, other, visited)
    decreases |one.Keys - visited|, |ids|
  {
    if ids != [] {
      AgreeOnRest(one, other, ids);
      if ids[0] in visited {
        WalkAgrees(ids[1..], one, other, visited);
      } else {
        var middle, above := WalkUnfold(ids, one, visited);
        if ids[0] in one { WalkAgrees(one[ids[0]].inherited, one, other, visited + {ids[0]}); }
        WalkAgrees(ids[1..], one, other, middle);
        var middle', above' := WalkUnfold(ids, other, visited);
      }
    }
  }

  // ------------------------------------------------------- does the order matter?

  predicate IsLatestOfKey(packages: seq<Package>, key: string, p: Package) {
    p in packages && p.key == key && forall q | q in packages && q.key == key :: !p.version.Less(q.version)
  }

  ghost predicate OneLatest(packages: seq<Package>, key: string) {
    forall p, q | IsLatestOfKey(packages, key, p) && IsLatestOfKey(packages, key, q) :: p == q
  }

  lemma SelectedIsLatest(packages: seq<Package>, key: string)
    requires HasKey(packages, key)
    ensures IsLatestOfKey(packages, key, Selected(packages, key))
  {
    var entries := OfKey(packages, key);
    SelectsLatest(entries);
    var i :| 0 <= i < |entries| && SortDescending(entries)[0] == entries[i] && IsFirstLatest(entries, i);
    assert entries[i] in entries;
  }

  lemma {:induction false} FirstOfKey(packages: seq<Package>, key: string)
    requires packages != [] && packages[0].key == key
    ensures HasKey(packages, key) && OfKey(packages, key)[0] == packages[0]
  {
    if |packages| == 1 {
      assert OfKey(packages[..0], key) == [];
    } else {
      FirstOfKey(packages[..|packages| - 1], key);
    }
  }

  /** A latest package that is given first of all is selected. */
  lemma FirstGivenIsSelected(packages: seq<Package>, p: Package)
    requires packages != [] && packages[0] == p && IsLatestOfKey(packages, p.key, p)
    ensures HasKey(packages, p.key) && Selected(packages, p.key) == p
  {
    FirstOfKey(packages, p.key);
    var entries := OfKey(packages, p.key);
    SelectsLatest(entries);
    var i :| 0 <= i < |entries| && SortDescending(entries)[0] == entries[i] && IsFirstLatest(entries, i);
    assert entries[i] in entries;
  }

  ghost predicate SameGiven(packages: seq<Package>, other: seq<Package>) {
    multiset(packages) == multiset(other)
  }

  lemma SameMembers(packages: seq<Package>, other: seq<Package>)
    requires SameGiven(packages, other)
    ensures forall p :: p in packages <==> p in other
    ensures forall k :: HasKey(packages, k) <==> HasKey(other, k)
  {
    forall p ensures p in packages <==> p in other { assert p in multiset(packages) <==> p in multiset(other); }
    forall k ensures HasKey(packages, k) <==> HasKey(other, k) { SameKeys(packages, other, k); }
  }

  lemma SameKeys(packages: seq<Package>, other: seq<Package>, key: string)
    requires forall p :: p in packages <==> p in other
    ensures HasKey(packages, key) <==> HasKey(other, key)
  {
    if HasKey(packages, key) { assert OfKey(packages, key)[0] in OfKey(other, key); }
    if HasKey(other, key) { assert OfKey(other, key)[0] in OfKey(packages, key); }
  }

  lemma PutFirst(packages: seq<Package>, p: Package) returns (other: seq<Package>)
    requires p in packages
    ensures SameGiven(packages, other) && other != [] && other[0] == p
  {
    var i :| 0 <= i < |packages| && packages[i] == p;
    other := [p] + (packages[..i] + packages[i + 1..]);
    assert packages == packages[..i] + [p] + packages[i + 1..];
  }

  lemma PutLast(packages: seq<Package>, p: Package) returns (other: seq<Package>)
    requires p in packages
    ensures SameGiven(packages, other) && p.id in RegistryOf(other) && RegistryOf(other)[p.id] == p
  {
    var i :| 0 <= i < |packages| && packages[i] == p;
    other := packages[..i] + packages[i + 1..] + [p];
    assert packages == packages[..i] + [p] + packages[i + 1..];
  }

  /** The selected package is the same for every order exactly if one package alone is the
      latest of the key. */
  lemma SelectedOrderFreeIff(packages: seq<Package>, key: string)
    requires HasKey(packages, key)
    ensures OneLatest(packages, key) <==>
      forall other | SameGiven(packages, other) :: HasKey(other, key) && Selected(other, key) == Selected(packages, key)
  {
    if OneLatest(packages, key) {
      forall other | SameGiven(packages, other) ensures HasKey(other, key) && Selected(other, key) == Selected(packages, key) {
        SelectedAlike(packages, other, key);
      }
    } else {
      var other := AnotherSelected(packages, key);
    }
  }

  lemma SelectedAlike(packages: seq<Package>, other: seq<Package>, key: string)
    requires HasKey(packages, key) && OneLatest(packages, key) && SameGiven(packages, other)
    ensures HasKey(other, key) && Selected(other, key) == Selected(packages, key)
  {
    SameMembers(packages, other);
    SelectedIsLatest(packages, key);
    SelectedIsLatest(other, key);
    assert IsLatestOfKey(packages, key, Selected(other, key));
  }

  lemma AnotherSelected(packages: seq<Package>, key: string) returns (other: seq<Package>)
    requires HasKey(packages, key) && !OneLatest(packages, key)
    ensures SameGiven(packages, other) && HasKey(other, key) && Selected(other, key) != Selected(packages, key)
  {
    var p, q :| IsLatestOfKey(packages, key, p) && IsLatestOfKey(packages, key, q) && p != q;
    var p' := if p == Selected(packages, key) then q else p;
    other := PutFirst(packages, p');
    SameMembers(packages, other);
    FirstGivenIsSelected(other, p');
  }

  /** What a key's policy is compiled from does not depend on the order exactly if one package
      alone is the latest of the key and every id that can be reached from it has one package. */
  lemma SourcesOrderFreeIff(packages: seq<Package>, key: string)
    requires HasKey(packages, key)
    ensures OneLatest(packages, key) && OneAncestorEach(packages, key) <==>
      forall other | SameGiven(packages, other) :: HasKey(other, key) && Sources(other, key) == Sources(packages, key)
  {
    if OneLatest(packages, key) && OneAncestorEach(packages, key) {
      forall other | SameGiven(packages, other) ensures HasKey(other, key) && Sources(other, key) == Sources(packages, key) {
        SourcesAlike(packages, other, key);
      }
    } else if !OneLatest(packages, key) {
      var other := AnotherSelected(packages, key);
      RootIsLastSource(packages, key);
      RootIsLastSource(other, key);
    } else {
      var other := AnotherAncestor(packages, key);
    }
  }

  ghost predicate OneAncestorEach(packages: seq<Package>, key: string)
    requires HasKey(packages, key)
  {
    forall x | Reachable(RegistryOf(packages), Selected(packages, key).inherited, x) :: OnePackage(packages, x)
  }

  lemma RootIsLastSource(packages: seq<Package>, key: string)
    requires HasKey(packages, key)
    ensures var s := Sources(packages, key); s != [] && s[|s| - 1] == Selected(packages, key)
  {
  }

  lemma SourcesAlike(packages: seq<Package>, other: seq<Package>, key: string)
    requires HasKey(packages, key) && OneLatest(packages, key) && OneAncestorEach(packages, key) && SameGiven(packages, other)
    ensures HasKey(other, key) && Sources(other, key) == Sources(packages, key)
  {
    SelectedAlike(packages, other, key);
    SameMembers(packages, other);
    var ids := Selected(packages, key).inherited;
    RegistriesAgree(packages, other, ids);
    WalkAgrees(ids, RegistryOf(packages), RegistryOf(other), {});
  }

  lemma GivenIsHeld(packages: seq<Package>, p: Package)
    requires p in packages
    ensures p.id in RegistryOf(packages)
  {
    RegistryHoldsLast(packages);
  }

  lemma KnownInBoth(packages: seq<Package>, other: seq<Package>, x: Id)
    requires forall p :: p in packages <==> p in other
    ensures x in RegistryOf(packages) <==> x in RegistryOf(other)
  {
    if x in RegistryOf(packages) {
      HeldIsGiven(packages, x);
      GivenIsHeld(other, RegistryOf(packages)[x]);
    }
    if x in RegistryOf(other) {
      HeldIsGiven(other, x);
      GivenIsHeld(packages, RegistryOf(other)[x]);
    }
  }

  lemma RegistriesAgree(packages: seq<Package>, other: seq<Package>, ids: seq<Id>)
    requires forall p :: p in packages <==> p in other
    requires forall x | Reachable(RegistryOf(packages), ids, x) :: OnePackage(packages, x)
    ensures AgreeAbove(RegistryOf(packages), RegistryOf(other), ids)
  {
    forall x ensures x in RegistryOf(packages) <==> x in RegistryOf(other) { KnownInBoth(packages, other, x); }
    forall x | x in RegistryOf(packages) && Reachable(RegistryOf(packages), ids, x)
      ensures RegistryOf(packages)[x] == RegistryOf(other)[x]
    {
      HeldIsGiven(packages, x);
      HeldIsGiven(other, x);
      assert OnePackage(packages, x);
    }
  }

  lemma AnotherAncestor(packages: seq<Package>, key: string) returns (other: seq<Package>)
    requires HasKey(packages, key) && OneLatest(packages, key) && !OneAncestorEach(packages, key)
    ensures SameGiven(packages, other) && HasKey(other, key) && Sources(other, key) != Sources(packages, key)
  {
    var byId, root := RegistryOf(packages), Selected(packages, key);
    var x :| Reachable(byId, root.inherited, x) && !OnePackage(packages, x);
    var p, q :| p in packages && q in packages && p.id == x && q.id == x && p != q;
    RegistryHoldsLast(packages);
    var held := byId[x];
    var p' := if p == held then q else p;
    other := PutLast(packages, p');
    RegistryHoldsLast(other);
    SelectedAlike(packages, other, key);
    HeldIsGiven(packages, x);
    ResolvesReachable(root, byId, held);
    ResolvesReachable(root, RegistryOf(other), held);
  }

  // ------------------------------------------------------------------ versions

  datatype VersionChange = MAJOR | MINOR | PATCH

  /** bump_version. A major change keeps the major number. */
  function Bump(v: Version, change: VersionChange): Version {
    match change
    case MAJOR => Version(v.major, 0, 0)
    case MINOR => Version(v.major, v.minor + 1, 0)
    case PATCH => Version(v.major, v.minor, v.patch + 1)
  }

  /** Versions are ordered by their numbers, the major one first; of two different ones one is
      the later. */
  lemma VersionsAreOrdered(a: Version, b: Version, c: Version)
    ensures !a.Less(a) && (a.Less(b) && b.Less(c) ==> a.Less(c))
    ensures a.Less(b) || b.Less(a) || a == b
    ensures a.major < b.major ==> a.Less(b)
    ensures a.major == b.major && a.minor < b.minor ==> a.Less(b)
    ensures a.major == b.major && a.minor == b.minor ==> (a.Less(b) <==> a.patch < b.patch)
  {
  }

  /** A changed version is later than the one it was made from exactly if the change is not a
      major one; a major change gives an earlier version, or the same one. */
  lemma BumpIsLaterIff(v: Version, change: VersionChange)
    ensures v.Less(Bump(v, change)) <==> !change.MAJOR?
    ensures change.MAJOR? ==> Bump(v, change) == v || Bump(v, change).Less(v)
  {
  }

  lemma MajorBumpIsEarlier()
    ensures Bump(Version(1, 2, 3), MAJOR) == Version(1, 0, 0) && Version(1, 0, 0).Less(Version(1, 2, 3))
  {
  }

  /** Whether a changed package takes over from the one selected so far, whatever the order: exactly
      if the change is not a major one. */
  lemma BumpTakesOverIff(packages: seq<Package>, key: string, bumped: Package, change: VersionChange)
    requires HasKey(packages, key) && bumped.key == key
    requires bumped.version == Bump(Selected(packages, key).version, change) && bumped !in packages
    ensures (forall other | SameGiven(packages + [bumped], other) :: HasKey(other, key) && Selected(other, key) == bumped)
      <==> !change.MAJOR?
  {
    var all, selected := packages + [bumped], Selected(packages, key);
    SelectedIsLatest(packages, key);
    BumpIsLaterIff(selected.version, change);
    assert bumped in all && selected in all;
    if change.MAJOR? {
      var other := PutFirst(all, selected);
      SameMembers(all, other);
      forall q | q in other && q.key == key ensures !selected.version.Less(q.version) {
        if q == bumped { VersionsAreOrdered(selected.version, q.version, selected.version); }
      }
      FirstGivenIsSelected(other, selected);
    } else {
      forall other | SameGiven(all, other) ensures HasKey(other, key) && Selected(other, key) == bumped {
        LaterIsSelected(packages, key, bumped, other);
      }
    }
  }

  lemma LaterIsSelected(packages: seq<Package>, key: string, later: Package, other: seq<Package>)
    requires HasKey(packages, key) && later.key == key && SameGiven(packages + [later], other)
    requires Selected(packages, key).version.Less(later.version)
    ensures HasKey(other, key) && Selected(other, key) == later
  {
    SelectedIsLatest(packages, key);
    SameMembers(packages + [later], other);
    assert later in packages + [later];
    assert later in OfKey(other, key);
    SelectedIsLatest(other, key);
    AllEarlier(packages, key, later);
  }

  lemma AllEarlier(packages: seq<Package>, key: string, later: Package)
    requires HasKey(packages, key) && Selected(packages, key).version.Less(later.version)
    ensures forall q | q in packages && q.key == key :: q.version.Less(later.version)
  {
    SelectedIsLatest(packages, key);
    var selected := Selected(packages, key);
    forall q | q in packages && q.key == key ensures q.version.Less(later.version) {
      VersionsAreOrdered(q.version, selected.version, later.version);
    }
  }

  // ------------------------------------------------------------ what is compiled

  ghost predicate Needs(root: Package, byId: Registry, rule: RuleKey) {
    rule in root.rules || exists x :: x in byId && Reachable(byId, root.inherited, x) && rule in byId[x].rules
  }

  lemma {:induction false} FirstUnknownIs(keys: seq<RuleKey>, known: set<RuleKey>)
    ensures FirstUnknown(keys, known).None? <==> forall k | k in keys :: k in known
    ensures FirstUnknown(keys, known).Some? ==> FirstUnknown(keys, known).value in keys && FirstUnknown(keys, known).value !in known
  {
    if keys != [] { FirstUnknownIs(keys[1..], known); }
  }

  lemma NeededAreKeys(root: Package, byId: Registry, rule: RuleKey)
    requires Registered(byId)
    ensures rule in Dedup(Flatten(Resolved(root, byId))) <==> Needs(root, byId, rule)
  {
    CompiledKeys(root, byId);
  }

  ghost predicate AllKnown(root: Package, byId: Registry, known: set<RuleKey>) {
    forall rule | Needs(root, byId, rule) :: rule in known
  }

  ghost predicate IsCompiledOf(c: Compiled, root: Package, byId: Registry) {
    && c.package == root && Distinct(c.ruleKeys)
    && forall rule :: rule in c.ruleKeys <==> Needs(root, byId, rule)
  }

  ghost predicate IsUnknownOf(e: UnknownRule, root: Package, byId: Registry, known: set<RuleKey>) {
    e.package == root && Needs(root, byId, e.rule) && e.rule !in known
  }

  lemma CompilesIff(root: Package, byId: Registry, known: set<RuleKey>)
    requires Registered(byId)
    ensures Compile(root, byId, known).Ok? <==> AllKnown(root, byId, known)
    ensures Compile(root, byId, known).Ok? ==> IsCompiledOf(Compile(root, byId, known).value, root, byId)
    ensures Compile(root, byId, known).Err? ==> IsUnknownOf(Compile(root, byId, known).error, root, byId, known)
  {
    var keys := Dedup(Flatten(Resolved(root, byId)));
    DedupFacts(Flatten(Resolved(root, byId)));
    forall rule ensures rule in keys <==> Needs(root, byId, rule) { NeededAreKeys(root, byId, rule); }
    FirstUnknownIs(keys, known);
  }

  ghost predicate CompiledInOrder(cs: seq<Compiled>, selected: seq<Package>, byId: Registry) {
    |cs| == |selected| && forall i | 0 <= i < |cs| :: IsCompiledOf(cs[i], selected[i], byId)
  }

  ghost predicate FailsFirstAt(e: UnknownRule, selected: seq<Package>, byId: Registry, known: set<RuleKey>, i: nat) {
    && i < |selected| && IsUnknownOf(e, selected[i], byId, known)
    && forall j | 0 <= j < i :: AllKnown(selected[j], byId, known)
  }

  ghost predicate FailsFirst(e: UnknownRule, selected: seq<Package>, byId: Registry, known: set<RuleKey>) {
    exists i: nat :: FailsFirstAt(e, selected, byId, known, i)
  }

  ghost predicate AllRulesKnown(selected: seq<Package>, byId: Registry, known: set<RuleKey>) {
    forall i | 0 <= i < |selected| :: AllKnown(selected[i], byId, known)
  }

  /** Compilation succeeds exactly if every rule named by a selected package or by one of its
      ancestors is known; then there is one policy for each, with exactly those rules.
      Otherwise it reports an unknown rule of the first package that has one. */
  lemma {:induction false} CompilesEachIff(selected: seq<Package>, byId: Registry, known: set<RuleKey>)
    requires Registered(byId)
    ensures CompileEach(selected, byId, known).Ok? <==> AllRulesKnown(selected, byId, known)
    ensures CompileEach(selected, byId, known).Ok? ==> CompiledInOrder(CompileEach(selected, byId, known).value, selected, byId)
    ensures CompileEach(selected, byId, known).Err? ==> FailsFirst(CompileEach(selected, byId, known).error, selected, byId, known)
  {
    if selected != [] {
      var first, rest := Compile(selected[0], byId, known), CompileEach(selected[1..], byId, known);
      CompilesIff(selected[0], byId, known);
      CompilesEachIff(selected[1..], byId, known);
      if first.Err? {
        assert FailsFirstAt(first.error, selected, byId, known, 0) && !AllKnown(selected[0], byId, known);
      } else if rest.Err? {
        FailsLater(rest.error, selected, byId, known);
      } else {
        CompiledBehind(first.value, rest.value, selected, byId, known);
      }
    }
  }

  lemma CompiledBehind(c: Compiled, cs: seq<Compiled>, selected: seq<Package>, byId: Registry, known: set<RuleKey>)
    requires selected != [] && IsCompiledOf(c, selected[0], byId) && CompiledInOrder(cs, selected[1..], byId)
    requires AllKnown(selected[0], byId, known) && AllRulesKnown(selected[1..], byId, known)
    ensures CompiledInOrder([c] + cs, selected, byId) && AllRulesKnown(selected, byId, known)
  {
    assert forall i | 0 < i < |selected| :: selected[i] == selected[1..][i - 1];
  }

  lemma FailsLater(e: UnknownRule, selected: seq<Package>, byId: Registry, known: set<RuleKey>)
    requires selected != [] && AllKnown(selected[0], byId, known) && FailsFirst(e, selected[1..], byId, known)
    ensures FailsFirst(e, selected, byId, known) && !AllRulesKnown(selected, byId, known)
  {
    var i: nat :| FailsFirstAt(e, selected[1..], byId, known, i);
    forall j | 0 <= j < i + 1 ensures AllKnown(selected[j], byId, known) {
      if j > 0 { assert selected[j] == selected[1..][j - 1]; }
    }
    assert FailsFirstAt(e, selected, byId, known, i + 1) && !AllKnown(selected[i + 1], byId, known);
  }

  // ----------------------------------------------------------------- an input

  const OLD_BASE := Package(1, "base", Version(1, 0, 0), [], ["a"])
  const NEW_BASE := Package(1, "base", Version(1, 1, 0), [], ["b"])
  const CHILD := Package(2, "child", Version(1, 0, 0), [1], [])

  lemma ChildSources(base: Package, byId: Registry)
    requires base == OLD_BASE || base == NEW_BASE
    requires byId == map[1 := base, 2 := CHILD]
    ensures Resolved(CHILD, byId) == [base, base, CHILD]
  {
    var middle, above := WalkUnfold([1], byId, {});
  }

  lemma ChildKeys(base: Package, byId: Registry, rule: RuleKey)
    requires base == OLD_BASE || base == NEW_BASE
    requires byId == map[1 := base, 2 := CHILD] && base.rules == [rule]
    ensures Dedup(Flatten(Resolved(CHILD, byId))) == [rule]
  {
    ChildSources(base, byId);
    var all := [base, base, CHILD];
    assert all[..2] == [base, base] && [base, base][..1] == [base] && [base][..0] == [];
    assert Flatten([base]) == [rule] && Flatten([base, base]) == [rule, rule];
    assert Flatten(all) == [rule, rule] + CHILD.rules == [rule, rule];
    assert [rule, rule][..1] == [rule] && [rule][..0] == [];
  }

  /** The same three packages in two orders: both select the new base, but the child inherits
      from whichever base is given last. */
  lemma OldBaseIsInherited()
    ensures
      var one, other := [OLD_BASE, NEW_BASE, CHILD], [NEW_BASE, OLD_BASE, CHILD];
      && SameGiven(one, other)
      && HasKey(one, "base") && HasKey(other, "base") && Selected(one, "base") == Selected(other, "base") == NEW_BASE
      && Compile(CHILD, RegistryOf(one), {"a", "b"}) == Ok(Compiled(CHILD, ["b"]))
      && Compile(CHILD, RegistryOf(other), {"a", "b"}) == Ok(Compiled(CHILD, ["a"]))
  {
    var one, other := [OLD_BASE, NEW_BASE, CHILD], [NEW_BASE, OLD_BASE, CHILD];
    ThreeRegistered(OLD_BASE, NEW_BASE);
    ThreeRegistered(NEW_BASE, OLD_BASE);
    ChildKeys(NEW_BASE, RegistryOf(one), "b");
    ChildKeys(OLD_BASE, RegistryOf(other), "a");
    SelectsNewBase(one);
    SelectsNewBase(other);
  }

  lemma ThreeRegistered(first: Package, second: Package)
    requires first.id == 1 && second.id == 1
    ensures RegistryOf([first, second, CHILD]) == map[1 := second, 2 := CHILD]
  {
    assert [first, second, CHILD][..2] == [first, second] && [first, second][..1] == [first] && [first][..0] == [];
    assert RegistryOf([first]) == map[1 := first];
    assert RegistryOf([first, second]) == map[1 := second];
  }

  lemma SelectsNewBase(packages: seq<Package>)
    requires forall p :: p in packages <==> p in [OLD_BASE, NEW_BASE, CHILD]
    ensures HasKey(packages, "base") && Selected(packages, "base") == NEW_BASE
  {
    assert NEW_BASE in [OLD_BASE, NEW_BASE, CHILD] && NEW_BASE in OfKey(packages, "base");
    SelectedIsLatest(packages, "base");
  }
}
