// Inheritance resolution of compliance policy packages
// (backend/app/policies/evaluation.py, backend/app/policies/models.py).

module PolicyInheritance {
  import opened Common
  import opened Texts

  type Id = nat
  type RuleKey = string

  datatype Version = Version(major: nat, minor: nat, patch: nat) {
    predicate Less(other: Version) {
      || major < other.major
      || (major == other.major && minor < other.minor)
      || (major == other.major && minor == other.minor && patch < other.patch)
    }
  }

  datatype Package = Package(
    id: Id, key: string, version: Version, inherited: seq<Id>, rules: seq<RuleKey>,
    assignments: seq<(string, string)> := [], compiledAt: int := 0)

  type Registry = map<Id, Package>

  ghost predicate Registered(byId: Registry) {
    forall x | x in byId :: byId[x].id == x
  }

  // ---------------------------------------------------------------- the walk

  /** The walk over a list of parent ids: the packages it lists, and the ids visited.
      Every package is listed once by its own walk and once more by its child's. */
  function Walk(ids: seq<Id>, byId: Registry, visited: set<Id>): (r: (seq<Package>, set<Id>))
    ensures visited <= r.1
    decreases |byId.Keys - visited|, |ids|
  {
    if ids == [] then ([], visited)
    else if ids[0] in visited then Walk(ids[1..], byId, visited)
    else
      var now := visited + {ids[0]};
      if ids[0] !in byId then
        Fewer(byId, visited, ids[0]);
        Walk(ids[1..], byId, now)
      else
        Fewer(byId, visited, ids[0]);
        var parent := byId[ids[0]];
        var above := Walk(parent.inherited, byId, now);
        Shrinks(byId, visited, above.1);
        var rest := Walk(ids[1..], byId, above.1);
        (above.0 + [parent] + [parent] + rest.0, rest.1)
  }

  lemma Fewer(byId: Registry, visited: set<Id>, id: Id)
    requires id !in visited
    ensures |byId.Keys - (visited + {id})| <= |byId.Keys - visited|
    ensures id in byId ==> |byId.Keys - (visited + {id})| < |byId.Keys - visited|
  {
    var before, now := byId.Keys - visited, byId.Keys - (visited + {id});
    if id in byId {
      assert now + {id} == before;
    } else {
      assert now == before;
    }
  }

  lemma Shrinks(byId: Registry, visited: set<Id>, more: set<Id>)
    requires visited <= more
    ensures |byId.Keys - more| <= |byId.Keys - visited|
  {
    Subset(byId.Keys - more, byId.Keys - visited);
  }

  lemma Subset(a: set<Id>, b: set<Id>)
    requires a <= b
    ensures |a| <= |b|
  {
    assert b == a + (b - a);
  }

  /** One turn of the walk at an unvisited id, and why what follows is smaller. */
  lemma WalkUnfold(ids: seq<Id>, byId: Registry, visited: set<Id>) returns (middle: set<Id>, above: seq<Package>)
    requires ids != [] && ids[0] !in visited
    ensures middle == if ids[0] in byId then Walk(byId[ids[0]].inherited, byId, visited + {ids[0]}).1 else visited + {ids[0]}
    ensures above == if ids[0] in byId
                     then Walk(byId[ids[0]].inherited, byId, visited + {ids[0]}).0 + [byId[ids[0]], byId[ids[0]]] else []
    ensures visited + {ids[0]} <= middle
    ensures Walk(ids, byId, visited) == (above + Walk(ids[1..], byId, middle).0, Walk(ids[1..], byId, middle).1)
    ensures |byId.Keys - middle| <= |byId.Keys - visited|
    ensures ids[0] in byId ==> |byId.Keys - (visited + {ids[0]})| < |byId.Keys - visited|
  {
    Fewer(byId, visited, ids[0]);
    var now := visited + {ids[0]};
    if ids[0] in byId {
      var parent := byId[ids[0]];
      var inner := Walk(parent.inherited, byId, now);
      middle, above := inner.1, inner.0 + [parent, parent];
      assert inner.0 + [parent] + [parent] == above;
    } else {
      middle, above := now, [];
      assert above + Walk(ids[1..], byId, middle).0 == Walk(ids[1..], byId, middle).0;
    }
    Shrinks(byId, visited, middle);
  }

  function Resolved(package: Package, byId: Registry): seq<Package> {
    Walk(package.inherited, byId, {}).0 + [package]
  }

  /** The recursive method with its shared visited set. It terminates on every graph,
      cyclic ones included. */
  method ResolveInheritedPackages(package: Package, byId: Registry, visited: set<Id>)
    returns (ordered: seq<Package>, visited': set<Id>)
    ensures ordered == Walk(package.inherited, byId, visited).0 + [package]
    ensures visited' == Walk(package.inherited, byId, visited).1
    decreases |byId.Keys - visited|
  {
    ordered, visited' := [], visited;
    ghost var whole := Walk(package.inherited, byId, visited);
    assert package.inherited[0..] == package.inherited;
    assert [] + whole.0 == whole.0;
    for i := 0 to |package.inherited|
      invariant visited <= visited'
      invariant whole.0 == ordered + Walk(package.inherited[i..], byId, visited').0
      invariant whole.1 == Walk(package.inherited[i..], byId, visited').1
    {
      var id := package.inherited[i];
      assert package.inherited[i..][0] == id && package.inherited[i..][1..] == package.inherited[i + 1..];
      if id in visited' { continue; }
      ghost var middle, listed := WalkUnfold(package.inherited[i..], byId, visited');
      ghost var rest := Walk(package.inherited[i + 1..], byId, middle).0;
      ghost var before := ordered;
      Shrinks(byId, visited, visited');
      visited' := visited' + {id};
      if id in byId {
        var parent := byId[id];
        var above: seq<Package>;
        above, visited' := ResolveInheritedPackages(parent, byId, visited');
        ordered := ordered + above;
        ordered := ordered + [parent];
        Pair(before, above[..|above| - 1], parent);
      }
      Regroup(before, listed, rest);
    }
    assert package.inherited[|package.inherited|..] == [];
    ordered := ordered + [package];
  }

  lemma Pair(a: seq<Package>, b: seq<Package>, p: Package)
    ensures a + (b + [p]) + [p] == a + (b + [p, p])
  {
  }

  lemma Regroup(a: seq<Package>, b: seq<Package>, c: seq<Package>)
    ensures a + (b + c) == a + b + c
  {
  }

  // ------------------------------------------------------------ reachability

  /** A non-empty chain of parent links; every link but the last starts at a known package. */
  predicate IsPath(byId: Registry, from: seq<Id>, path: seq<Id>) {
    && path != [] && path[0] in from
    && (forall i | 0 <= i < |path| - 1 :: path[i] in byId && path[i + 1] in byId[path[i]].inherited)
  }

  ghost predicate Reachable(byId: Registry, from: seq<Id>, x: Id) {
    exists path :: IsPath(byId, from, path) && path[|path| - 1] == x
  }

  lemma ReachParent(byId: Registry, from: seq<Id>, x: Id, y: Id)
    requires Reachable(byId, from, x) && x in byId && y in byId[x].inherited
    ensures Reachable(byId, from, y)
  {
    var path :| IsPath(byId, from, path) && path[|path| - 1] == x;
    assert IsPath(byId, from, path + [y]);
  }

  lemma ReachThrough(byId: Registry, from: seq<Id>, x: Id, y: Id)
    requires x in from && x in byId && Reachable(byId, byId[x].inherited, y)
    ensures Reachable(byId, from, y)
  {
    var path :| IsPath(byId, byId[x].inherited, path) && path[|path| - 1] == y;
    var longer := [x] + path;
    assert forall i | 0 < i < |longer| :: longer[i] == path[i - 1];
    assert IsPath(byId, from, longer);
  }

  lemma ReachWider(byId: Registry, from: seq<Id>, wider: seq<Id>, x: Id)
    requires Reachable(byId, from, x) && forall i | i in from :: i in wider
    ensures Reachable(byId, wider, x)
  {
    var path :| IsPath(byId, from, path) && path[|path| - 1] == x;
    assert IsPath(byId, wider, path);
  }

  /** Everything the walk visits is reachable. */
  lemma {:induction false} WalkSound(ids: seq<Id>, byId: Registry, visited: set<Id>)
    ensures forall x | x in Walk(ids, byId, visited).1 && x !in visited :: Reachable(byId, ids, x)
    decreases |byId.Keys - visited|, |ids|
  {
    if ids != [] {
      assert forall i | i in ids[1..] :: i in ids;
      if ids[0] in visited {
        WalkSound(ids[1..], byId, visited);
        forall x | x in Walk(ids, byId, visited).1 && x !in visited ensures Reachable(byId, ids, x) {
          ReachWider(byId, ids[1..], ids, x);
        }
      } else {
        var middle, above := WalkUnfold(ids, byId, visited);
        assert IsPath(byId, ids, [ids[0]]);
        if ids[0] in byId { WalkSound(byId[ids[0]].inherited, byId, visited + {ids[0]}); }
        WalkSound(ids[1..], byId, middle);
        forall x | x in Walk(ids, byId, visited).1 && x !in visited ensures Reachable(byId, ids, x) {
          if x == ids[0] {
            assert [ids[0]][|[ids[0]]| - 1] == x;
          } else if x in middle {
            ReachThrough(byId, ids, ids[0], x);
          } else {
            ReachWider(byId, ids[1..], ids, x);
          }
        }
      }
    }
  }

  ghost predicate ClosedIn(byId: Registry, before: set<Id>, after: set<Id>) {
    forall x, y | x in after && x !in before && x in byId && y in byId[x].inherited :: y in after
  }

  /** The ids the walk visits are closed under parent links. */
  lemma {:induction false} WalkClosed(ids: seq<Id>, byId: Registry, visited: set<Id>)
    ensures forall i | i in ids :: i in Walk(ids, byId, visited).1
    ensures ClosedIn(byId, visited, Walk(ids, byId, visited).1)
    decreases |byId.Keys - visited|, |ids|
  {
    if ids != [] {
      assert forall i | i in ids :: i == ids[0] || i in ids[1..];
      if ids[0] in visited {
        WalkClosed(ids[1..], byId, visited);
      } else {
        var middle, above := WalkUnfold(ids, byId, visited);
        if ids[0] in byId { WalkClosed(byId[ids[0]].inherited, byId, visited + {ids[0]}); }
        WalkClosed(ids[1..], byId, middle);
        ClosedTogether(byId, visited, ids[0], middle, Walk(ids[1..], byId, middle).1);
      }
    }
  }

  lemma ClosedTogether(byId: Registry, visited: set<Id>, id: Id, middle: set<Id>, after: set<Id>)
    requires middle <= after && ClosedIn(byId, middle, after) && ClosedIn(byId, visited + {id}, middle)
    requires id in byId ==> forall y | y in byId[id].inherited :: y in middle
    ensures ClosedIn(byId, visited, after)
  {
  }

  lemma {:induction false} ClosedContainsPath(byId: Registry, from: seq<Id>, v: set<Id>, path: seq<Id>, i: nat)
    requires forall x | x in from :: x in v
    requires forall x, y | x in v && x in byId && y in byId[x].inherited :: y in v
    requires IsPath(byId, from, path) && i < |path|
    ensures path[i] in v
  {
    if i > 0 {
      ClosedContainsPath(byId, from, v, path, i - 1);
      assert path[i - 1] in byId && path[i - 1 + 1] in byId[path[i - 1]].inherited;
    }
  }

  /** From a fresh start the walk visits exactly the reachable ids. */
  lemma VisitsReachable(ids: seq<Id>, byId: Registry, x: Id)
    ensures x in Walk(ids, byId, {}).1 <==> Reachable(byId, ids, x)
  {
    WalkSound(ids, byId, {});
    WalkClosed(ids, byId, {});
    if Reachable(byId, ids, x) {
      var path :| IsPath(byId, ids, path) && path[|path| - 1] == x;
      ClosedContainsPath(byId, ids, Walk(ids, byId, {}).1, path, |path| - 1);
    }
  }

  // ------------------------------------------------- which packages are listed

  function Occurrences(packages: seq<Package>, p: Package): nat {
    if packages == [] then 0 else (if packages[0] == p then 1 else 0) + Occurrences(packages[1..], p)
  }

  lemma {:induction false} OccurrencesAppend(a: seq<Package>, b: seq<Package>, p: Package)
    ensures Occurrences(a + b, p) == Occurrences(a, p) + Occurrences(b, p)
  {
    if a == [] {
      assert a + b == b;
    } else {
      assert (a + b)[1..] == a[1..] + b;
      OccurrencesAppend(a[1..], b, p);
    }
  }

  lemma {:induction false} OccursIffIn(packages: seq<Package>, p: Package)
    ensures Occurrences(packages, p) > 0 <==> p in packages
  {
    if packages != [] { OccursIffIn(packages[1..], p); }
  }

  predicate NewlyListed(byId: Registry, before: set<Id>, after: set<Id>, p: Package) {
    p.id in byId && byId[p.id] == p && p.id in after && p.id !in before
  }

  /** Each newly visited known package is listed exactly twice, nothing else at all. */
  lemma {:induction false} WalkLists(ids: seq<Id>, byId: Registry, visited: set<Id>, p: Package)
    requires Registered(byId)
    ensures Occurrences(Walk(ids, byId, visited).0, p) ==
            if NewlyListed(byId, visited, Walk(ids, byId, visited).1, p) then 2 else 0
    decreases |byId.Keys - visited|, |ids|
  {
    if ids != [] {
      if ids[0] in visited {
        WalkLists(ids[1..], byId, visited, p);
      } else {
        var middle, above := WalkUnfold(ids, byId, visited);
        WalkLists(ids[1..], byId, middle, p);
        var rest := Walk(ids[1..], byId, middle);
        if ids[0] in byId {
          WalkLists(byId[ids[0]].inherited, byId, visited + {ids[0]}, p);
          ListsTogether(byId, visited, ids[0], Walk(byId[ids[0]].inherited, byId, visited + {ids[0]}).0, middle, rest, p);
        } else {
          assert above + rest.0 == rest.0;
        }
      }
    }
  }

  lemma ListsTogether(
    byId: Registry, visited: set<Id>, id: Id, inner: seq<Package>, middle: set<Id>, rest: (seq<Package>, set<Id>), p: Package)
    requires Registered(byId) && id in byId && id !in visited && visited + {id} <= middle <= rest.1
    requires Occurrences(inner, p) == if NewlyListed(byId, visited + {id}, middle, p) then 2 else 0
    requires Occurrences(rest.0, p) == if NewlyListed(byId, middle, rest.1, p) then 2 else 0
    ensures Occurrences(inner + [byId[id], byId[id]] + rest.0, p) == if NewlyListed(byId, visited, rest.1, p) then 2 else 0
  {
    var parent := byId[id];
    OccurrencesAppend(inner + [parent, parent], rest.0, p);
    OccurrencesAppend(inner, [parent, parent], p);
    assert [parent, parent][1..] == [parent] && [parent][1..] == [];
    assert Occurrences([parent], p) == if p == parent then 1 else 0;
    assert Occurrences([parent, parent], p) == if p == parent then 2 else 0;
    assert NewlyListed(byId, visited, rest.1, p) <==>
      p == parent || NewlyListed(byId, visited + {id}, middle, p) || NewlyListed(byId, middle, rest.1, p);
  }

  /** Resolution lists the root last, and before it exactly the reachable known
      packages, each of them twice. */
  lemma ResolvesReachable(root: Package, byId: Registry, p: Package)
    requires Registered(byId)
    ensures var above := Resolved(root, byId)[..|Resolved(root, byId)| - 1];
      && Resolved(root, byId)[|above|] == root
      && Occurrences(above, p) == (if p.id in byId && byId[p.id] == p && Reachable(byId, root.inherited, p.id) then 2 else 0)
  {
    WalkLists(root.inherited, byId, {}, p);
    VisitsReachable(root.inherited, byId, p.id);
    assert Resolved(root, byId)[..|Resolved(root, byId)| - 1] == Walk(root.inherited, byId, {}).0;
  }

  // ---------------------------------------------------- parents before children

  /** Every known parent of a listed package is listed, and only earlier. */
  ghost predicate ParentsFirst(packages: seq<Package>, byId: Registry) {
    forall j, y | 0 <= j < |packages| && y in packages[j].inherited && y in byId ::
      && (exists k :: 0 <= k < j && packages[k].id == y)
      && (forall k | 0 <= k < |packages| && packages[k].id == y :: k < j)
  }

  ghost predicate Acyclic(byId: Registry, from: seq<Id>) {
    forall x | x in byId && Reachable(byId, from, x) :: !Reachable(byId, byId[x].inherited, x)
  }

  /** As ParentsFirst, for part of a walk: parents may also have been listed before it. */
  ghost predicate ParentsFirstIn(packages: seq<Package>, byId: Registry, earlier: set<Id>) {
    forall j, y | 0 <= j < |packages| && y in packages[j].inherited && y in byId ::
      && (y in earlier || exists k :: 0 <= k < j && packages[k].id == y)
      && (forall k | 0 <= k < |packages| && packages[k].id == y :: k < j)
  }

  ghost predicate ListedIds(packages: seq<Package>, byId: Registry, before: set<Id>, after: set<Id>) {
    && (forall k | 0 <= k < |packages| :: packages[k].id in byId && packages[k].id in after && packages[k].id !in before)
    && (forall x | x in byId && x in after && x !in before :: exists k :: 0 <= k < |packages| && packages[k].id == x)
  }

  lemma WalkIds(ids: seq<Id>, byId: Registry, visited: set<Id>)
    requires Registered(byId)
    ensures ListedIds(Walk(ids, byId, visited).0, byId, visited, Walk(ids, byId, visited).1)
  {
    var r := Walk(ids, byId, visited);
    forall k | 0 <= k < |r.0| ensures r.0[k].id in byId && r.0[k].id in r.1 && r.0[k].id !in visited {
      WalkLists(ids, byId, visited, r.0[k]);
      OccursIffIn(r.0, r.0[k]);
    }
    forall x | x in byId && x in r.1 && x !in visited ensures exists k :: 0 <= k < |r.0| && r.0[k].id == x {
      WalkLists(ids, byId, visited, byId[x]);
      OccursIffIn(r.0, byId[x]);
    }
  }

  /** The packages whose parents are being walked: known, and above all that is walked. */
  ghost predicate OpenAbove(byId: Registry, open: set<Id>, ids: seq<Id>) {
    forall g, i | g in open && i in ids :: g in byId && Reachable(byId, byId[g].inherited, i)
  }

  /** While the walk is inside the parents of `open` packages, nothing it meets again is
      still open: on an acyclic graph an open package cannot be its own ancestor. */
  lemma {:induction false} WalkOrders(
    from: seq<Id>, ids: seq<Id>, byId: Registry, visited: set<Id>, open: set<Id>)
    requires Registered(byId) && Acyclic(byId, from)
    requires forall i | i in ids :: Reachable(byId, from, i)
    requires open <= visited && OpenAbove(byId, open, ids)
    ensures ParentsFirstIn(Walk(ids, byId, visited).0, byId, visited - open)
    decreases |byId.Keys - visited|, |ids|, 1
  {
    if ids != [] {
      assert forall i | i in ids[1..] :: i in ids;
      OpenParts(byId, open, ids);
      if ids[0] in visited {
        WalkOrders(from, ids[1..], byId, visited, open);
      } else if ids[0] in byId {
        WalkOrdersKnown(from, ids, byId, visited, open);
      } else {
        var middle, above := WalkUnfold(ids, byId, visited);
        WalkOrders(from, ids[1..], byId, middle, open);
        EarlierUnknown(Walk(ids[1..], byId, middle).0, byId, visited, open, ids[0]);
        assert above + Walk(ids[1..], byId, middle).0 == Walk(ids[1..], byId, middle).0;
      }
    }
  }

  lemma {:induction false} WalkOrdersKnown(
    from: seq<Id>, ids: seq<Id>, byId: Registry, visited: set<Id>, open: set<Id>)
    requires Registered(byId) && Acyclic(byId, from)
    requires ids != [] && ids[0] in byId && ids[0] !in visited
    requires forall i | i in ids :: Reachable(byId, from, i)
    requires open <= visited && OpenAbove(byId, open, ids)
    ensures ParentsFirstIn(Walk(ids, byId, visited).0, byId, visited - open)
    decreases |byId.Keys - visited|, |ids|, 0
  {
    var middle, above := WalkUnfold(ids, byId, visited);
    var parent, now := byId[ids[0]], visited + {ids[0]};
    OpenParts(byId, open, ids);
    WalkOrders(from, ids[1..], byId, middle, open);
    forall i | i in parent.inherited ensures Reachable(byId, from, i) { ReachParent(byId, from, ids[0], i); }
    OpenMore(byId, open, ids[0]);
    WalkOrders(from, parent.inherited, byId, now, open + {ids[0]});
    WalkIds(parent.inherited, byId, now);
    WalkIds(ids[1..], byId, middle);
    WalkClosed(parent.inherited, byId, now);
    assert now - (open + {ids[0]}) == visited - open;
    OrdersTogether(byId, from, visited, open, ids[0],
                   Walk(parent.inherited, byId, now).0, middle, Walk(ids[1..], byId, middle));
  }

  lemma OpenMore(byId: Registry, open: set<Id>, id: Id)
    requires id in byId && OpenAbove(byId, open, [id])
    ensures OpenAbove(byId, open + {id}, byId[id].inherited)
  {
    forall g, i | g in open + {id} && i in byId[id].inherited
      ensures g in byId && Reachable(byId, byId[g].inherited, i)
    {
      if g == id { ReachFirst(byId, byId[id].inherited, i); } else { OpenAbovePackage(byId, open, id, g, i); }
    }
  }

  lemma OpenAbovePackage(byId: Registry, open: set<Id>, id: Id, g: Id, i: Id)
    requires id in byId && OpenAbove(byId, open, [id]) && g in open && i in byId[id].inherited
    ensures g in byId && Reachable(byId, byId[g].inherited, i)
  {
    assert id in [id];
    ReachParent(byId, byId[g].inherited, id, i);
  }

  lemma EarlierUnknown(packages: seq<Package>, byId: Registry, visited: set<Id>, open: set<Id>, x: Id)
    requires x !in byId && ParentsFirstIn(packages, byId, visited + {x} - open)
    ensures ParentsFirstIn(packages, byId, visited - open)
  {
  }

  lemma OpenParts(byId: Registry, open: set<Id>, ids: seq<Id>)
    requires ids != [] && OpenAbove(byId, open, ids)
    ensures OpenAbove(byId, open, ids[1..]) && OpenAbove(byId, open, [ids[0]])
  {
    assert ids[0] in ids && forall i | i in ids[1..] :: i in ids;
  }

  predicate Lists(packages: seq<Package>, x: Id) {
    exists k :: 0 <= k < |packages| && packages[k].id == x
  }

  lemma ConcatOrdered(p: seq<Package>, q: seq<Package>, byId: Registry, earlier: set<Id>, between: set<Id>)
    requires ParentsFirstIn(p, byId, earlier) && ParentsFirstIn(q, byId, between)
    requires forall y | y in between && y in byId :: y in earlier || Lists(p, y)
    requires forall j, y | 0 <= j < |p| && y in p[j].inherited && y in byId :: !Lists(q, y)
    ensures ParentsFirstIn(p + q, byId, earlier)
  {
    var all := p + q;
    forall j, y | 0 <= j < |all| && y in all[j].inherited && y in byId
      ensures y in earlier || exists k :: 0 <= k < j && all[k].id == y
      ensures forall k | 0 <= k < |all| && all[k].id == y :: k < j
    {
      if j < |p| {
        ConcatEarlier(p, q, y, earlier, j);
      } else {
        var i := j - |p|;
        assert q[i] == all[j];
        assert y in between || exists k :: 0 <= k < i && q[k].id == y;
        if y in between && y !in earlier {
          var k :| 0 <= k < |p| && p[k].id == y;
          assert all[k].id == y;
        } else if y !in between {
          var k :| 0 <= k < i && q[k].id == y;
          assert all[|p| + k].id == y;
        }
      }
    }
  }

  lemma ConcatEarlier(p: seq<Package>, q: seq<Package>, y: Id, earlier: set<Id>, j: nat)
    requires j < |p| && !Lists(q, y)
    requires y in earlier || exists k :: 0 <= k < j && p[k].id == y
    requires forall k | 0 <= k < |p| && p[k].id == y :: k < j
    ensures y in earlier || exists k :: 0 <= k < j && (p + q)[k].id == y
    ensures forall k | 0 <= k < |p + q| && (p + q)[k].id == y :: k < j
  {
    if y !in earlier {
      var k :| 0 <= k < j && p[k].id == y;
      assert (p + q)[k].id == y;
    }
    forall k | |p| <= k < |p + q| ensures (p + q)[k].id != y {
      assert q[k - |p|] == (p + q)[k];
    }
    forall k | 0 <= k < |p| ensures (p + q)[k] == p[k] {}
  }

  /** The walk of a parent with the parent itself, then the rest. */
  lemma OrdersTogether(
    byId: Registry, from: seq<Id>, visited: set<Id>, open: set<Id>, id: Id, inner: seq<Package>, middle: set<Id>,
    rest: (seq<Package>, set<Id>))
    requires Registered(byId) && Acyclic(byId, from) && id in byId && id !in visited && Reachable(byId, from, id)
    requires open <= visited && visited + {id} <= middle && OpenAbove(byId, open, [id])
    requires ParentsFirstIn(inner, byId, visited - open)
    requires ParentsFirstIn(rest.0, byId, middle - open)
    requires ListedIds(inner, byId, visited + {id}, middle) && ListedIds(rest.0, byId, middle, rest.1)
    requires forall i | i in byId[id].inherited :: i in middle
    ensures ParentsFirstIn(inner + [byId[id], byId[id]] + rest.0, byId, visited - open)
  {
    var parent := byId[id];
    var first := inner + [parent, parent];
    ParentAfterItsOwn(byId, from, open, id, visited, inner, middle);
    assert first[|inner|] == parent;
    forall y | y in middle - open && y in byId ensures y in visited - open || Lists(first, y) {
      if y !in visited && y != id {
        var k :| 0 <= k < |inner| && inner[k].id == y;
        assert first[k].id == y;
      }
    }
    forall j, y | 0 <= j < |first| && y in first[j].inherited && y in byId ensures !Lists(rest.0, y) {
      if j < |inner| {
        assert first[j] == inner[j];
        assert y in visited - open || exists k :: 0 <= k < j && inner[k].id == y;
      } else {
        assert first[j] == parent;
      }
      assert y in middle;
    }
    ConcatOrdered(first, rest.0, byId, visited - open, middle - open);
  }

  lemma ParentAfterItsOwn(
    byId: Registry, from: seq<Id>, open: set<Id>, id: Id, visited: set<Id>, above: seq<Package>, after: set<Id>)
    requires Registered(byId) && Acyclic(byId, from) && id in byId && id !in visited && Reachable(byId, from, id)
    requires open <= visited && OpenAbove(byId, open, [id])
    requires ParentsFirstIn(above, byId, visited - open) && ListedIds(above, byId, visited + {id}, after)
    requires forall i | i in byId[id].inherited :: i in after
    ensures ParentsFirstIn(above + [byId[id], byId[id]], byId, visited - open)
  {
    var parent := byId[id];
    var between := set y | y in parent.inherited && y in byId;
    forall y | y in between ensures y != id && y !in open {
      assert IsPath(byId, parent.inherited, [y]);
      assert [y][|[y]| - 1] == y;
      if y in open {
        assert id in [id];
        ReachParent(byId, byId[y].inherited, id, y);
        ReachParent(byId, from, id, y);
      }
    }
    assert ParentsFirstIn([parent, parent], byId, between);
    forall y | y in between ensures y in visited - open || Lists(above, y) {
      if y !in visited { assert y !in visited + {id}; }
    }
    forall j, y | 0 <= j < |above| && y in above[j].inherited && y in byId ensures !Lists([parent, parent], y) {
      assert y in visited - open || exists k :: 0 <= k < j && above[k].id == y;
    }
    ConcatOrdered(above, [parent, parent], byId, visited - open, between);
  }

  /** The ancestors listed before the root are in order exactly if none of them is its own
      ancestor. */
  lemma AncestorsOrderedIffAcyclic(ids: seq<Id>, byId: Registry)
    requires Registered(byId)
    ensures ParentsFirstIn(Walk(ids, byId, {}).0, byId, {}) <==> Acyclic(byId, ids)
  {
    if Acyclic(byId, ids) {
      forall i | i in ids ensures Reachable(byId, ids, i) { ReachFirst(byId, ids, i); }
      var none: set<Id> := {};
      WalkOrders(ids, ids, byId, none, none);
      assert none - none == none;
    }
    if ParentsFirstIn(Walk(ids, byId, {}).0, byId, {}) {
      forall x | x in byId && Reachable(byId, ids, x) ensures !Reachable(byId, byId[x].inherited, x) {
        NoOwnAncestor(ids, byId, x);
      }
    }
  }

  lemma ReachFirst(byId: Registry, ids: seq<Id>, i: Id)
    requires i in ids
    ensures Reachable(byId, ids, i)
  {
    assert IsPath(byId, ids, [i]);
    assert [i][|[i]| - 1] == i;
  }

  /** What stands in a walk: known packages, reachable and under their own id. */
  lemma WalkHolds(ids: seq<Id>, byId: Registry)
    requires Registered(byId)
    ensures forall k | 0 <= k < |Walk(ids, byId, {}).0| ::
      var p := Walk(ids, byId, {}).0[k];
      p.id in byId && byId[p.id] == p && Reachable(byId, ids, p.id)
    ensures forall x | x in byId && Reachable(byId, ids, x) :: Lists(Walk(ids, byId, {}).0, x)
  {
    var above := Walk(ids, byId, {}).0;
    WalkIds(ids, byId, {});
    forall k | 0 <= k < |above|
      ensures above[k].id in byId && byId[above[k].id] == above[k] && Reachable(byId, ids, above[k].id)
    {
      WalkLists(ids, byId, {}, above[k]);
      OccursIffIn(above, above[k]);
      VisitsReachable(ids, byId, above[k].id);
    }
    forall x | x in byId && Reachable(byId, ids, x) ensures Lists(above, x) { VisitsReachable(ids, byId, x); }
  }

  lemma NoOwnAncestor(ids: seq<Id>, byId: Registry, x: Id)
    requires Registered(byId) && ParentsFirstIn(Walk(ids, byId, {}).0, byId, {})
    requires x in byId && Reachable(byId, ids, x)
    ensures !Reachable(byId, byId[x].inherited, x)
  {
    var above := Walk(ids, byId, {}).0;
    WalkHolds(ids, byId);
    var j :| 0 <= j < |above| && above[j].id == x;
    forall path | IsPath(byId, byId[x].inherited, path) ensures path[|path| - 1] != x {
      if path[|path| - 1] == x { AncestorsEarlier(above, byId, j, path, |path| - 1); }
    }
  }

  /** An id is listed before place j, and nowhere else. */
  ghost predicate OnlyBefore(all: seq<Package>, j: nat, y: Id) {
    && (exists k :: 0 <= k < j && k < |all| && all[k].id == y)
    && (forall k | 0 <= k < |all| && all[k].id == y :: k < j)
  }

  lemma ParentEarlier(all: seq<Package>, byId: Registry, j: nat, y: Id)
    requires ParentsFirstIn(all, byId, {}) && j < |all| && y in all[j].inherited && y in byId
    ensures OnlyBefore(all, j, y)
  {
  }

  lemma GrandparentEarlier(all: seq<Package>, byId: Registry, j: nat, x: Id, y: Id)
    requires ParentsFirstIn(all, byId, {}) && j < |all| && OnlyBefore(all, j, x) && x in byId
    requires forall k | 0 <= k < |all| :: all[k].id in byId && byId[all[k].id] == all[k]
    requires y in byId[x].inherited && y in byId
    ensures OnlyBefore(all, j, y)
  {
    var k :| 0 <= k < j && all[k].id == x;
    ParentEarlier(all, byId, k, y);
  }

  /** The ids along a path of parents are listed earlier, and only earlier. */
  lemma {:induction false} AncestorsEarlier(all: seq<Package>, byId: Registry, j: nat, path: seq<Id>, i: nat)
    requires ParentsFirstIn(all, byId, {}) && j < |all|
    requires forall k | 0 <= k < |all| :: all[k].id in byId && byId[all[k].id] == all[k]
    requires IsPath(byId, all[j].inherited, path) && i < |path| && path[i] in byId
    ensures OnlyBefore(all, j, path[i])
  {
    if i == 0 {
      ParentEarlier(all, byId, j, path[0]);
    } else {
      assert path[i - 1] in byId && path[i - 1 + 1] in byId[path[i - 1]].inherited;
      AncestorsEarlier(all, byId, j, path, i - 1);
      GrandparentEarlier(all, byId, j, path[i - 1], path[i]);
    }
  }

  // The root comes last. It need not be the package the registry holds under its id: the one
  // compiled is the latest version, the one held is the version given last.

  /** No package that is inherited from goes by the root's id. */
  ghost predicate RootIsNoAncestor(root: Package, byId: Registry) {
    root.id in byId ==> !Reachable(byId, root.inherited, root.id)
  }

  lemma ReachableParent(root: Package, byId: Registry, j: nat, y: Id)
    requires Registered(byId) && j < |Resolved(root, byId)| && y in Resolved(root, byId)[j].inherited
    ensures Reachable(byId, root.inherited, y)
  {
    WalkHolds(root.inherited, byId);
    var above := Walk(root.inherited, byId, {}).0;
    if j < |above| { ReachParent(byId, root.inherited, above[j].id, y); } else { ReachFirst(byId, root.inherited, y); }
  }

  lemma WithRootAt(above: seq<Package>, root: Package, byId: Registry, j: nat, y: Id)
    requires ParentsFirstIn(above, byId, {}) && j <= |above| && y in byId && y != root.id
    requires if j < |above| then y in above[j].inherited else Lists(above, y)
    ensures exists k :: 0 <= k < j && (above + [root])[k].id == y
    ensures forall k | 0 <= k < |above + [root]| && (above + [root])[k].id == y :: k < j
  {
    var k: nat;
    if j < |above| { k :| 0 <= k < j && above[k].id == y; } else { k :| 0 <= k < |above| && above[k].id == y; }
    assert (above + [root])[k].id == y;
  }

  lemma OrderedWithRoot(root: Package, byId: Registry)
    requires Registered(byId) && ParentsFirstIn(Walk(root.inherited, byId, {}).0, byId, {})
    requires RootIsNoAncestor(root, byId)
    ensures ParentsFirst(Resolved(root, byId), byId)
  {
    var above, all := Walk(root.inherited, byId, {}).0, Resolved(root, byId);
    forall j, y | 0 <= j < |all| && y in all[j].inherited && y in byId
      ensures exists k :: 0 <= k < j && all[k].id == y
      ensures forall k | 0 <= k < |all| && all[k].id == y :: k < j
    {
      ReachableParent(root, byId, j, y);
      ReachableIsListed(root.inherited, byId, y);
      WithRootAt(above, root, byId, j, y);
    }
  }

  lemma ReachableIsListed(ids: seq<Id>, byId: Registry, y: Id)
    requires Registered(byId) && y in byId && Reachable(byId, ids, y)
    ensures Lists(Walk(ids, byId, {}).0, y)
  {
    WalkHolds(ids, byId);
  }

  lemma OrderedWithoutRoot(root: Package, byId: Registry)
    requires Registered(byId) && ParentsFirst(Resolved(root, byId), byId)
    ensures ParentsFirstIn(Walk(root.inherited, byId, {}).0, byId, {})
  {
    var above, all := Walk(root.inherited, byId, {}).0, Resolved(root, byId);
    forall j, y | 0 <= j < |above| && y in above[j].inherited && y in byId
      ensures exists k :: 0 <= k < j && above[k].id == y
      ensures forall k | 0 <= k < |above| && above[k].id == y :: k < j
    {
      assert all[j] == above[j];
      var k :| 0 <= k < j && all[k].id == y;
      assert above[k].id == y;
      forall k | 0 <= k < |above| && above[k].id == y ensures k < j { assert all[k].id == y; }
    }
  }

  lemma NoParentIsRoot(above: seq<Package>, root: Package, byId: Registry, j: nat)
    requires ParentsFirst(above + [root], byId) && root.id in byId && j <= |above|
    ensures root.id !in (above + [root])[j].inherited
  {
    assert (above + [root])[|above|].id == root.id;
  }

  lemma LastIsNotRoot(root: Package, byId: Registry, path: seq<Id>)
    requires Registered(byId) && ParentsFirst(Resolved(root, byId), byId)
    requires root.id in byId && IsPath(byId, root.inherited, path)
    ensures path[|path| - 1] != root.id
  {
    var above, n := Walk(root.inherited, byId, {}).0, |path| - 1;
    if n == 0 {
      NoParentIsRoot(above, root, byId, |above|);
    } else {
      assert path[n - 1] in byId && path[n - 1 + 1] in byId[path[n - 1]].inherited;
      PrefixReaches(byId, root.inherited, path, n - 1);
      WalkHolds(root.inherited, byId);
      var j :| 0 <= j < |above| && above[j].id == path[n - 1];
      NoParentIsRoot(above, root, byId, j);
    }
  }

  lemma OrderedRootIsNoAncestor(root: Package, byId: Registry)
    requires Registered(byId) && ParentsFirst(Resolved(root, byId), byId)
    ensures RootIsNoAncestor(root, byId)
  {
    if root.id in byId {
      forall path | IsPath(byId, root.inherited, path) ensures path[|path| - 1] != root.id {
        LastIsNotRoot(root, byId, path);
      }
    }
  }

  lemma PrefixReaches(byId: Registry, from: seq<Id>, path: seq<Id>, n: nat)
    requires IsPath(byId, from, path) && n < |path|
    ensures Reachable(byId, from, path[n])
  {
    assert IsPath(byId, from, path[..n + 1]);
    assert path[..n + 1][|path[..n + 1]| - 1] == path[n];
  }

  /** By id: every known parent is listed earlier than its child, and only earlier, exactly if
      no ancestor is its own ancestor and none goes by the root's id. */
  lemma ParentsFirstIff(root: Package, byId: Registry)
    requires Registered(byId)
    ensures ParentsFirst(Resolved(root, byId), byId) <==>
      Acyclic(byId, root.inherited) && RootIsNoAncestor(root, byId)
  {
    AncestorsOrderedIffAcyclic(root.inherited, byId);
    if Acyclic(byId, root.inherited) && RootIsNoAncestor(root, byId) { OrderedWithRoot(root, byId); }
    if ParentsFirst(Resolved(root, byId), byId) {
      OrderedWithoutRoot(root, byId);
      OrderedRootIsNoAncestor(root, byId);
    }
  }

  /** By package instead of id: the very package that is inherited from is listed earlier. */
  ghost predicate ParentPackagesFirst(packages: seq<Package>, byId: Registry) {
    forall j, y | 0 <= j < |packages| && y in packages[j].inherited && y in byId ::
      && (exists k :: 0 <= k < j && packages[k] == byId[y])
      && (forall k | 0 <= k < |packages| && packages[k] == byId[y] :: k < j)
  }

  lemma HeldRootIsNoAncestor(root: Package, byId: Registry, y: Id)
    requires Registered(byId) && Acyclic(byId, root.inherited)
    requires y in byId && Reachable(byId, root.inherited, y)
    ensures root != byId[y]
  {
  }

  lemma PackagesWithRootAt(above: seq<Package>, root: Package, byId: Registry, j: nat, y: Id)
    requires ParentsFirstIn(above, byId, {}) && j <= |above| && y in byId && root != byId[y]
    requires forall k | 0 <= k < |above| :: above[k].id in byId && byId[above[k].id] == above[k]
    requires byId[y].id == y && if j < |above| then y in above[j].inherited else Lists(above, y)
    ensures exists k :: 0 <= k < j && (above + [root])[k] == byId[y]
    ensures forall k | 0 <= k < |above + [root]| && (above + [root])[k] == byId[y] :: k < j
  {
    var k: nat;
    if j < |above| { k :| 0 <= k < j && above[k].id == y; } else { k :| 0 <= k < |above| && above[k].id == y; }
    assert (above + [root])[k] == byId[y];
  }

  lemma AcyclicListsPackagesFirst(root: Package, byId: Registry)
    requires Registered(byId) && Acyclic(byId, root.inherited)
    ensures ParentPackagesFirst(Resolved(root, byId), byId)
  {
    var above, all := Walk(root.inherited, byId, {}).0, Resolved(root, byId);
    AncestorsOrderedIffAcyclic(root.inherited, byId);
    WalkHolds(root.inherited, byId);
    forall j, y | 0 <= j < |all| && y in all[j].inherited && y in byId
      ensures exists k :: 0 <= k < j && all[k] == byId[y]
      ensures forall k | 0 <= k < |all| && all[k] == byId[y] :: k < j
    {
      ReachableParent(root, byId, j, y);
      HeldRootIsNoAncestor(root, byId, y);
      PackagesWithRootAt(above, root, byId, j, y);
    }
  }

  lemma PackageOnlyBefore(above: seq<Package>, root: Package, byId: Registry, j: nat, y: Id)
    requires ParentPackagesFirst(above + [root], byId) && j < |above| && y in above[j].inherited && y in byId
    requires byId[y].id == y && forall k | 0 <= k < |above| :: above[k].id in byId && byId[above[k].id] == above[k]
    ensures OnlyBefore(above, j, y)
  {
    var all := above + [root];
    assert all[j] == above[j];
    var k :| 0 <= k < j && all[k] == byId[y];
    assert above[k].id == y;
    forall k | 0 <= k < |above| && above[k].id == y ensures k < j { assert all[k] == byId[y]; }
  }

  lemma PackagesFirstOrder(above: seq<Package>, root: Package, byId: Registry)
    requires Registered(byId) && ParentPackagesFirst(above + [root], byId)
    requires forall k | 0 <= k < |above| :: above[k].id in byId && byId[above[k].id] == above[k]
    ensures ParentsFirstIn(above, byId, {})
  {
    forall j: nat, y | j < |above| && y in above[j].inherited && y in byId
      ensures exists k :: 0 <= k < j && above[k].id == y
      ensures forall k | 0 <= k < |above| && above[k].id == y :: k < j
    {
      PackageOnlyBefore(above, root, byId, j, y);
    }
  }

  lemma PackagesFirstOrdersAncestors(root: Package, byId: Registry)
    requires Registered(byId) && ParentPackagesFirst(Resolved(root, byId), byId)
    ensures ParentsFirstIn(Walk(root.inherited, byId, {}).0, byId, {})
  {
    WalkHolds(root.inherited, byId);
    PackagesFirstOrder(Walk(root.inherited, byId, {}).0, root, byId);
  }

  /** By package the order is right exactly if no ancestor is its own ancestor. */
  lemma ParentPackagesFirstIff(root: Package, byId: Registry)
    requires Registered(byId)
    ensures ParentPackagesFirst(Resolved(root, byId), byId) <==> Acyclic(byId, root.inherited)
  {
    if Acyclic(byId, root.inherited) { AcyclicListsPackagesFirst(root, byId); }
    if ParentPackagesFirst(Resolved(root, byId), byId) {
      PackagesFirstOrdersAncestors(root, byId);
      AncestorsOrderedIffAcyclic(root.inherited, byId);
    }
  }

  /** An input that is acyclic but not in order by id: the registry holds an older version of
      the root, and the root's parent inherits from that one. */
  lemma OlderVersionOfRootIsListed()
    ensures
      var root := Package(1, "A", Version(1, 1, 0), [2], []);
      var byId := map[1 := Package(1, "A", Version(1, 0, 0), [], []), 2 := Package(2, "B", Version(1, 0, 0), [1], [])];
      && Registered(byId) && Acyclic(byId, root.inherited)
      && !ParentsFirst(Resolved(root, byId), byId) && ParentPackagesFirst(Resolved(root, byId), byId)
  {
    var root := Package(1, "A", Version(1, 1, 0), [2], []);
    var byId := map[1 := Package(1, "A", Version(1, 0, 0), [], []), 2 := Package(2, "B", Version(1, 0, 0), [1], [])];
    forall x, path | x in byId && IsPath(byId, byId[x].inherited, path) ensures path[|path| - 1] != x {
      ShortPaths(byId, x, path);
    }
    ReachFirst(byId, root.inherited, 2);
    ReachParent(byId, root.inherited, 2, 1);
    ParentsFirstIff(root, byId);
    ParentPackagesFirstIff(root, byId);
  }

  lemma ShortPaths(byId: Registry, x: Id, path: seq<Id>)
    requires x in byId && IsPath(byId, byId[x].inherited, path)
    requires byId.Keys == {1, 2} && byId[1].inherited == [] && byId[2].inherited == [1]
    ensures path == [1] && x == 2
  {
    var from := byId[x].inherited;
    if |path| > 1 { SecondOnPath(byId, from, path); }
  }

  lemma SecondOnPath(byId: Registry, from: seq<Id>, path: seq<Id>)
    requires IsPath(byId, from, path) && |path| > 1
    ensures path[0] in byId && path[1] in byId[path[0]].inherited
  {
    assert path[0] in byId && path[0 + 1] in byId[path[0]].inherited;
  }

  // ------------------------------------------------------- compiled rule keys

  function Flatten(packages: seq<Package>): seq<RuleKey> {
    if packages == [] then [] else Flatten(packages[..|packages| - 1]) + packages[|packages| - 1].rules
  }

  lemma {:induction false} FlattenFacts(packages: seq<Package>)
    ensures forall k :: k in Flatten(packages) <==> exists i :: 0 <= i < |packages| && k in packages[i].rules
  {
    if packages != [] {
      var front := packages[..|packages| - 1];
      FlattenFacts(front);
      forall k ensures k in Flatten(packages) <==> exists i :: 0 <= i < |packages| && k in packages[i].rules {
        if k in Flatten(front) {
          var i :| 0 <= i < |front| && k in front[i].rules;
          assert k in packages[i].rules;
        }
        if exists i :: 0 <= i < |packages| && k in packages[i].rules {
          var i :| 0 <= i < |packages| && k in packages[i].rules;
          if i < |front| { assert k in front[i].rules; }
        }
      }
    }
  }

  lemma DedupSnoc(keys: seq<RuleKey>, last: RuleKey)
    ensures Dedup(keys + [last]) == if last in Dedup(keys) then Dedup(keys) else Dedup(keys) + [last]
  {
    assert (keys + [last])[..|keys|] == keys;
  }

  lemma OneMoreKey(before: seq<RuleKey>, rules: seq<RuleKey>, j: nat)
    requires j < |rules|
    ensures var keys := Dedup(before + rules[..j]);
      Dedup(before + rules[..j + 1]) == if rules[j] in keys then keys else keys + [rules[j]]
  {
    assert before + rules[..j + 1] == (before + rules[..j]) + [rules[j]];
    DedupSnoc(before + rules[..j], rules[j]);
  }

  /** The rule keys of one package, after those collected so far. */
  method AddRuleKeys(rules: seq<RuleKey>, ghost before: seq<RuleKey>, collected: seq<RuleKey>, known: set<RuleKey>)
    returns (ruleKeys: seq<RuleKey>, seen: set<RuleKey>)
    requires collected == Dedup(before) && forall k :: k in known <==> k in collected
    ensures ruleKeys == Dedup(before + rules) && forall k :: k in seen <==> k in ruleKeys
  {
    ruleKeys, seen := collected, known;
    AllKeysTaken(before, rules);
    for j := 0 to |rules|
      invariant ruleKeys == Dedup(before + rules[..j])
      invariant forall k :: k in seen <==> k in ruleKeys
    {
      OneMoreKey(before, rules, j);
      if rules[j] !in seen {
        seen := seen + {rules[j]};
        ruleKeys := ruleKeys + [rules[j]];
      }
    }
  }

  lemma AllKeysTaken(before: seq<RuleKey>, rules: seq<RuleKey>)
    ensures before + rules[..0] == before && rules[..|rules|] == rules
  {
  }

  /** The two loops of _build_policy that collect rule keys without repeats. */
  method CollectRuleKeys(packages: seq<Package>) returns (ruleKeys: seq<RuleKey>)
    ensures ruleKeys == Dedup(Flatten(packages))
  {
    ruleKeys := [];
    var seen: set<RuleKey> := {};
    for i := 0 to |packages|
      invariant ruleKeys == Dedup(Flatten(packages[..i]))
      invariant forall k :: k in seen <==> k in ruleKeys
    {
      assert packages[..i + 1][..i] == packages[..i];
      ruleKeys, seen := AddRuleKeys(packages[i].rules, Flatten(packages[..i]), ruleKeys, seen);
    }
    assert packages[..|packages|] == packages;
  }

  /** The compiled keys are distinct and are exactly the keys of the root and of every
      known package reachable from it. */
  lemma CompiledKeys(root: Package, byId: Registry)
    requires Registered(byId)
    ensures var keys := Dedup(Flatten(Resolved(root, byId)));
      && (forall i, j | 0 <= i < j < |keys| :: keys[i] != keys[j])
      && (forall k :: k in keys <==>
            k in root.rules || exists x :: x in byId && Reachable(byId, root.inherited, x) && k in byId[x].rules)
  {
    var all := Resolved(root, byId);
    DedupFacts(Flatten(all));
    FlattenFacts(all);
    forall k ensures k in Flatten(all) <==>
      k in root.rules || exists x :: x in byId && Reachable(byId, root.inherited, x) && k in byId[x].rules
    {
      KeyComesFromReachable(root, byId, k);
    }
  }

  lemma KeyComesFromReachable(root: Package, byId: Registry, k: RuleKey)
    requires Registered(byId)
    ensures (exists i :: 0 <= i < |Resolved(root, byId)| && k in Resolved(root, byId)[i].rules) <==>
      k in root.rules || exists x :: x in byId && Reachable(byId, root.inherited, x) && k in byId[x].rules
  {
    var all, above := Resolved(root, byId), Walk(root.inherited, byId, {});
    WalkIds(root.inherited, byId, {});
    if k in root.rules { assert k in all[|all| - 1].rules; }
    if exists i :: 0 <= i < |all| && k in all[i].rules {
      var i :| 0 <= i < |all| && k in all[i].rules;
      if i < |above.0| {
        var x := above.0[i];
        WalkLists(root.inherited, byId, {}, x);
        OccursIffIn(above.0, x);
        VisitsReachable(root.inherited, byId, x.id);
      }
    }
    if exists x :: x in byId && Reachable(byId, root.inherited, x) && k in byId[x].rules {
      var x :| x in byId && Reachable(byId, root.inherited, x) && k in byId[x].rules;
      VisitsReachable(root.inherited, byId, x);
      WalkLists(root.inherited, byId, {}, byId[x]);
      OccursIffIn(above.0, byId[x]);
      var i :| 0 <= i < |above.0| && above.0[i] == byId[x];
      assert all[i] == byId[x];
    }
  }

  // --------------------------------------------------------- version selection

  /** Descending by version; entries of equal version keep their order. */
  function SortDescending(entries: seq<Package>): seq<Package> {
    if entries == [] then [] else InsertDescending(entries[0], SortDescending(entries[1..]))
  }

  function InsertDescending(p: Package, sorted: seq<Package>): seq<Package> {
    if sorted == [] || !p.version.Less(sorted[0].version) then [p] + sorted
    else [sorted[0]] + InsertDescending(p, sorted[1..])
  }

  predicate IsFirstLatest(entries: seq<Package>, i: nat)
    requires i < |entries|
  {
    && (forall j | 0 <= j < |entries| :: !entries[i].version.Less(entries[j].version))
    && (forall j | 0 <= j < i :: entries[j].version.Less(entries[i].version))
  }

  /** The selected package is the first one of the greatest version. */
  lemma {:induction false} SelectsLatest(entries: seq<Package>)
    requires entries != []
    ensures SortDescending(entries) != []
    ensures exists i :: 0 <= i < |entries| && SortDescending(entries)[0] == entries[i] && IsFirstLatest(entries, i)
  {
    if |entries| == 1 {
      assert SortDescending(entries[1..]) == [];
      assert SortDescending(entries)[0] == entries[0] && IsFirstLatest(entries, 0);
    } else {
      SelectsLatest(entries[1..]);
      var rest := SortDescending(entries[1..]);
      var i :| 0 <= i < |entries[1..]| && rest[0] == entries[1..][i] && IsFirstLatest(entries[1..], i);
      forall j | 1 <= j < |entries| ensures entries[j] == entries[1..][j - 1] {}
      if entries[0].version.Less(rest[0].version) {
        assert SortDescending(entries)[0] == entries[i + 1] && IsFirstLatest(entries, i + 1);
      } else {
        assert SortDescending(entries)[0] == entries[0] && IsFirstLatest(entries, 0);
      }
    }
  }
}
