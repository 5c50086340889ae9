// Operations that end a whole job tree: abandon, recover, force-resolve, cancel and
// fail. Each is one transaction; its statements interleave with everybody else's,
// and either all of it is committed or none of it.

module JobTrees {
  import opened Common
  import opened Contracts
  import opened JobRows
  import opened JobProtocol
  import opened JobRuns
  import opened LeaseSafety
  import opened FanoutResults
  import opened Sessions
  import opened JobRepository
  import opened Fanout

  // The scope of the root's target: one device, or a range/CIDR with its expected addresses.
  datatype Scope = SingleDevice | Fanned(scope: nat, expected: seq<Address>) {
    function Expected(): seq<Address> {
      if SingleDevice? then [] else expected
    }
  }

  predicate EndedCleanly(db: Table, id: JobId) {
    id in db && db[id].state.IsTerminal() && db[id].completedAt.Some? && db[id].Unleased()
  }

  /** The root, and every child recorded against an expected address, has finished and
      holds no lease. */
  ghost predicate TreeEnded(
    db: Table, root: JobId, before: seq<DeviceResult>, now: seq<DeviceResult>, scope: Scope)
  {
    && EndedCleanly(db, root)
    && |before| <= |now|
    && (forall a | a in scope.Expected() :: exists i :: 0 <= i < |now| && now[i].address == a && EndedCleanly(db, now[i].child))
    && (forall i: nat | scope.Expected() != [] && i < |now| && (i >= |before| || Represents(before, scope.Expected(), i)) ::
          EndedCleanly(db, now[i].child))
  }

  /** The contract of every tree operation: ended and committed, or nothing committed. */
  twostate predicate AllOrNothing(s: Session, root: JobId, scope: Scope, succeeded: bool)
    reads s
  {
    if succeeded then
      && |s.published| == |old(s.published)| + 1 && s.Writes() == map[]
      && TreeEnded(s.world.db, root, old(s.results), s.results, scope)
    else
      s.published == old(s.published) && s.RolledBack()
  }

  /** Nothing pending, and every result of the tree points at a child of the root. */
  ghost predicate Ready(s: Session, tenant: string, root: JobId)
    reads s
  {
    && s.Valid() && s.RolledBack()
    && (root in s.View() ==> s.View()[root].parent.None?)
    && ResultsLinked(s.View(), s.results, tenant, root)
  }

  /** cancellation_requested, for a root: a request was recorded on it. */
  method CancellationRequested(s: Session, tenant: string, id: JobId) returns (requested: bool)
    requires s.Valid() && id in s.View() && s.View()[id].parent.None?
    modifies s`world, s`schedule, s`trace
    ensures s.Valid() && old(s.trace) <= s.trace && s.Writes() == old(s.Writes())
    ensures Evolves(old(s.View()), s.View()) && Evolves(old(s.Seen()), s.Seen())
    ensures requested ==> id in s.Seen() && s.Seen()[id].cancelRequestedAt.Some?
    ensures AskedToStop(old(s.View()), tenant, id) ==> requested
    ensures old(s.Alone()) ==>
      && s.Alone() && s.View() == old(s.View()) && s.world.db == old(s.world.db)
      && (requested <==> AskedToStop(old(s.View()), tenant, id))
  {
    requested := ReadCancellation(s, tenant, id);
    assert Reaches(old(s.View())[id], s.View()[id]);
    if requested && s.Seen()[id].state.Cancelled? { SeenRootWasAsked(s.trace, s.me, id); }
  }

  lemma CancelledRootWasAsked(trace: seq<Step>, a: Actor, id: JobId)
    requires var view := JobProtocol.View(After(START, trace), a);
      id in view && view[id].state.Cancelled? && view[id].parent.None?
    ensures JobProtocol.View(After(START, trace), a)[id].cancelRequestedAt.Some?
  {
    StartIsOk();
    RunKeeps(START, trace);
    var c := After(START, trace);
    TxIsOk(c, a);
    assert RowOk(JobProtocol.View(c, a), JobProtocol.View(c, a)[id]);
  }

  lemma SeenRootWasAsked(trace: seq<Step>, a: Actor, id: JobId)
    requires var c := After(START, trace);
      && id in TxOf(c, a).seen && TxOf(c, a).seen[id].state.Cancelled?
      && id in JobProtocol.View(c, a) && JobProtocol.View(c, a)[id].parent.None?
      && TxOf(c, a).seen[id] == JobProtocol.View(c, a)[id]
    ensures TxOf(After(START, trace), a).seen[id].cancelRequestedAt.Some?
  {
    CancelledRootWasAsked(trace, a, id);
  }

  predicate OwnedBy(db: Table, tenant: string, id: JobId, owner: Owner) {
    id in db && db[id].tenant == tenant && db[id].state.Running? && db[id].owner == Some(owner)
  }

  function ActiveChildren(view: Table, tenant: string, root: JobId): Table {
    map k | k in view && view[k].tenant == tenant && view[k].parent == Some(root) && view[k].state.IsActive() :: view[k]
  }

  predicate FailsChild(u: Update) {
    u.Terminate? && u.target.Failed?
  }

  /** An UPDATE of a child that is no error when it finds no row. */
  method UpdateChildNow(s: Session, root: JobId, child: JobId, u: Update) returns (r: Result<(), JobError>)
    requires s.Valid() && child in s.View() && s.View()[child].parent == Some(root)
    requires (u.Terminate? || u.CancelRunningChild?) && u.WellFormed()
    requires !FailsChild(u) ==> KnownCancelled(s.Seen(), root)
    modifies s`world, s`trace, s`results, s`summary
    ensures s.Valid() && old(s.trace) <= s.trace
    ensures r.Ok? ==>
      && Evolves(old(s.View()), s.View()) && s.Seen() == old(s.Seen())
      && s.results == old(s.results) && s.summary == old(s.summary)
      && (u.Terminate? || !old(s.View())[child].state.Queued? ==> Finished(s.View(), child))
      && (s.Writes() == old(s.Writes()) || EndedAs(s.View()[child], !FailsChild(u)))
    ensures r.Err? ==> s.RolledBack()
    ensures old(s.Alone()) ==> s.Alone() && r.Ok? && s.View() == old(s.View())[child := s.View()[child]]
    ensures old(s.Alone() && u.Matches(s.View()[child], s.world.now)) ==> EndedAs(s.View()[child], !FailsChild(u))
  {
    ghost var view := s.View();
    var outcome := s.Update(child, u);
    if outcome.Blocked? { return Err(DatabaseError); }
    EvolvesReflexive(view);
    r := Ok(());
  }

  /** The same, other sessions having run in between. */
  method UpdateChild(s: Session, root: JobId, child: JobId, u: Update) returns (r: Result<(), JobError>)
    requires s.Valid() && child in s.View() && s.View()[child].parent == Some(root)
    requires (u.Terminate? || u.CancelRunningChild?) && u.WellFormed()
    requires !FailsChild(u) ==> KnownCancelled(s.Seen(), root)
    modifies s`world, s`schedule, s`trace, s`results, s`summary
    ensures s.Valid() && old(s.trace) <= s.trace
    ensures r.Ok? ==>
      && Evolves(old(s.View()), s.View()) && s.Seen() == old(s.Seen())
      && s.results == old(s.results) && s.summary == old(s.summary)
      && (u.Terminate? || !old(s.View())[child].state.Queued? ==> Finished(s.View(), child))
      && (s.Writes() == old(s.Writes()) || EndedAs(s.View()[child], !FailsChild(u)))
    ensures r.Err? ==> s.RolledBack()
    ensures old(s.Alone()) ==> s.Alone() && r.Ok? && s.View() == old(s.View())[child := s.View()[child]]
    ensures old(s.Alone() && u.Matches(s.View()[child], s.world.now)) ==> EndedAs(s.View()[child], !FailsChild(u))
  {
    s.Interleave();
    ghost var view := s.View();
    assert Reaches(old(s.View())[child], view[child]);
    r := UpdateChildNow(s, root, child, u);
    if r.Ok? { EvolvesTransitive(old(s.View()), view, s.View()); }
  }

  /** A child that was still queued when the children were selected. */
  method EndQueuedChild(s: Session, tenant: string, root: JobId, child: JobId, cancel: bool)
    returns (r: Result<(), JobError>)
    requires s.Valid() && IsChildOf(s.View(), child, tenant, root)
    requires cancel ==> KnownCancelled(s.Seen(), root)
    modifies s`world, s`schedule, s`trace, s`results, s`summary
    ensures s.Valid() && old(s.trace) <= s.trace
    ensures r.Ok? ==>
      && Evolves(old(s.View()), s.View()) && Evolves(old(s.Seen()), s.Seen())
      && s.results == old(s.results) && s.summary == old(s.summary)
      && Finished(s.View(), child) && (s.Writes() == old(s.Writes()) || EndedAs(s.View()[child], cancel))
    ensures r.Err? ==> s.RolledBack()
    ensures old(s.Alone()) ==> s.Alone() && r.Ok? && s.View() == old(s.View())[child := s.View()[child]]
    ensures old(s.Alone() && !s.View()[child].state.IsTerminal()) ==> EndedAs(s.View()[child], cancel)
  {
    EvolvesReflexive(s.Seen());
    r := UpdateChild(s, root, child, Terminate(EndState(cancel), EndCode(cancel)));
  }

  /** The children of a root that one owner is running or that nobody has started. */
  ghost predicate Theirs(view: Table, tenant: string, root: JobId, owner: Owner, child: JobId) {
    && IsChildOf(view, child, tenant, root)
    && (view[child].state.Queued? || (view[child].state.Running? && view[child].owner == Some(owner)))
  }

  /** Those of the owner's children that were handled ended in one way. */
  ghost predicate EndedSoFar(
    view: Table, view': Table, tenant: string, root: JobId, owner: Owner, done: set<JobId>, cancel: bool)
  {
    forall k | k in done && Theirs(view, tenant, root, owner, k) :: k in view' && EndedAs(view'[k], cancel)
  }

  /** One child of an owned tree, as it was when the children were selected. */
  method EndOwnedChild(
    s: Session, tenant: string, root: JobId, child: JobId, selected: Row, owner: Owner, cancel: bool)
    returns (r: Result<(), JobError>)
    requires s.Valid() && IsChildOf(s.View(), child, tenant, root)
    requires cancel ==> KnownCancelled(s.Seen(), root)
    modifies s
    ensures s.Valid() && old(s.trace) <= s.trace && s.published == old(s.published)
    ensures r.Ok? ==>
      && Evolves(old(s.View()), s.View()) && Evolves(old(s.Seen()), s.Seen())
      && s.results == old(s.results) && s.summary == old(s.summary)
      && (selected.state.Queued? || selected.owner == Some(owner) ==> Finished(s.View(), child))
      && (s.Writes() == old(s.Writes()) || EndedAs(s.View()[child], cancel))
    ensures r.Err? ==> s.RolledBack()
    ensures old(s.Alone()) && old(s.View())[child] == selected ==>
      && s.Alone() && r.Ok? && ActiveFrom(old(s.View()), s.View())
      && s.View() == old(s.View())[child := s.View()[child]]
      && (Theirs(old(s.View()), tenant, root, owner, child) ==> EndedAs(s.View()[child], cancel))
  {
    EvolvesReflexive(s.View());
    EvolvesReflexive(s.Seen());
    r := Ok(());
    if selected.state.Queued? {
      r := EndQueuedChild(s, tenant, root, child, cancel);
    } else if selected.owner == Some(owner) {
      assert RowInv(s.View()[child]) by { ViewIsOk(s.trace, s.me); }
      var done := ApplyTransition(s, tenant, child, EndState(cancel), Some(EndCode(cancel)), false, Some(owner));
      if done.Err? { return Err(done.error); }
    }
  }

  /** The owner's children have ended in this state and with this code. */
  ghost predicate ChildrenEndedAs(
    view: Table, view': Table, tenant: string, root: JobId, owner: Owner, state: Status, code: FailureCode)
  {
    forall k | Theirs(view, tenant, root, owner, k) ::
      k in view' && view'[k].state == state && view'[k].failure == Some(code)
  }

  lemma ChildrenStayEnded(
    view: Table, between: Table, view': Table, tenant: string, root: JobId, owner: Owner, state: Status, code: FailureCode)
    requires ChildrenEndedAs(view, between, tenant, root, owner, state, code) && Evolves(between, view')
    requires state.IsTerminal()
    ensures ChildrenEndedAs(view, view', tenant, root, owner, state, code)
  {
    forall k | Theirs(view, tenant, root, owner, k)
      ensures k in view' && view'[k].state == state && view'[k].failure == Some(code)
    {
      assert Reaches(between[k], view'[k]);
    }
  }

  method EndOwnedChildren(s: Session, tenant: string, root: JobId, owner: Owner, cancel: bool)
    returns (r: Result<(), JobError>)
    requires s.Valid()
    requires cancel ==> KnownCancelled(s.Seen(), root)
    modifies s
    ensures s.Valid() && old(s.trace) <= s.trace && s.published == old(s.published)
    ensures r.Ok? ==>
      && Evolves(old(s.View()), s.View()) && Evolves(old(s.Seen()), s.Seen())
      && s.results == old(s.results) && s.summary == old(s.summary)
      && (forall k | Theirs(old(s.View()), tenant, root, owner, k) :: Finished(s.View(), k))
    ensures r.Err? ==> s.RolledBack()
    ensures old(s.Alone()) ==>
      && s.Alone() && r.Ok? && ActiveFrom(old(s.View()), s.View())
      && (root in old(s.View()) && old(s.View())[root].parent.None? ==> s.View()[root] == old(s.View())[root])
      && ChildrenEndedAs(old(s.View()), s.View(), tenant, root, owner, EndState(cancel), EndCode(cancel))
  {
    var selected := ActiveChildren(s.View(), tenant, root);
    var todo := selected.Keys;
    ghost var start := s.View();
    EvolvesReflexive(s.View());
    EvolvesReflexive(s.Seen());
    r := Ok(());
    while todo != {}
      invariant s.Valid() && old(s.trace) <= s.trace && s.published == old(s.published)
      invariant Evolves(start, s.View()) && Evolves(old(s.Seen()), s.Seen())
      invariant s.results == old(s.results) && s.summary == old(s.summary) && todo <= selected.Keys && r.Ok?
      invariant forall k | k !in todo && Theirs(start, tenant, root, owner, k) :: Finished(s.View(), k)
      invariant old(s.Alone()) ==>
        s.Alone() && Handled(start, s.View(), tenant, root, owner, selected.Keys - todo, cancel)
      decreases todo
    {
      var child :| child in todo;
      ghost var done := selected.Keys - todo;
      todo := todo - {child};
      r := EndNextChild(s, tenant, root, child, selected[child], owner, cancel, start, old(s.Seen()), done);
      if r.Err? { return; }
      assert selected.Keys - todo == done + {child};
    }
  }

  /** One turn of the loop over the children selected at `start`. */
  method EndNextChild(
    s: Session, tenant: string, root: JobId, child: JobId, selected: Row, owner: Owner, cancel: bool,
    ghost start: Table, ghost known: Table, ghost done: set<JobId>) returns (r: Result<(), JobError>)
    requires s.Valid() && IsChildOf(start, child, tenant, root) && start[child] == selected
    requires Evolves(start, s.View()) && Evolves(known, s.Seen()) && (cancel ==> KnownCancelled(known, root))
    modifies s
    ensures s.Valid() && old(s.trace) <= s.trace && s.published == old(s.published)
    ensures r.Ok? ==>
      && Evolves(start, s.View()) && Evolves(known, s.Seen())
      && s.results == old(s.results) && s.summary == old(s.summary)
      && (Theirs(start, tenant, root, owner, child) ==> Finished(s.View(), child))
      && (forall k | Finished(old(s.View()), k) :: Finished(s.View(), k))
    ensures r.Err? ==> s.RolledBack()
    ensures old(s.Alone() && Handled(start, s.View(), tenant, root, owner, done, cancel)) && child !in done ==>
      s.Alone() && r.Ok? && Handled(start, s.View(), tenant, root, owner, done + {child}, cancel)
  {
    ghost var view, seen := s.View(), s.Seen();
    assert Reaches(start[child], view[child]);
    StillKnownCancelled(known, seen, root);
    r := EndOwnedChild(s, tenant, root, child, selected, owner, cancel);
    if r.Err? { return; }
    EvolvesTransitive(start, view, s.View());
    EvolvesTransitive(known, seen, s.Seen());
    FinishedStay(view, s.View());
    if old(s.Alone()) && Handled(start, view, tenant, root, owner, done, cancel) && child !in done {
      OneMoreHandled(start, view, s.View(), tenant, root, owner, done, cancel, child);
    }
  }

  /** With nobody else at work: what the loop has changed so far. */
  ghost predicate Handled(
    start: Table, view: Table, tenant: string, root: JobId, owner: Owner, done: set<JobId>, cancel: bool)
  {
    && ActiveFrom(start, view) && SameExcept(start, view, done)
    && EndedSoFar(start, view, tenant, root, owner, done, cancel)
  }

  lemma OneMoreHandled(
    start: Table, view: Table, view': Table, tenant: string, root: JobId, owner: Owner, done: set<JobId>, cancel: bool,
    child: JobId)
    requires Handled(start, view, tenant, root, owner, done, cancel) && child in view' && child !in done
    requires ActiveFrom(view, view') && view' == view[child := view'[child]]
    requires Theirs(start, tenant, root, owner, child) ==> EndedAs(view'[child], cancel)
    ensures Handled(start, view', tenant, root, owner, done + {child}, cancel)
  {
  }

  /** Rows outside `changed` are as they were. */
  ghost predicate SameExcept(view: Table, view': Table, changed: set<JobId>) {
    forall k | k in view && k !in changed :: k in view' && view'[k] == view[k]
  }

  predicate RunBy(view: Table, tenant: string, root: JobId, owner: Owner, child: JobId) {
    IsChildOf(view, child, tenant, root) && view[child].state.Running? && view[child].owner == Some(owner)
  }

  /** A child its owner was running is still running for that owner, or has finished. */
  lemma StillTheirs(view: Table, view': Table, tenant: string, root: JobId, owner: Owner)
    requires Evolves(view, view')
    ensures forall k | RunBy(view, tenant, root, owner, k) ::
      Theirs(view', tenant, root, owner, k) || Finished(view', k)
  {
    forall k | RunBy(view, tenant, root, owner, k)
      ensures Theirs(view', tenant, root, owner, k) || Finished(view', k)
    {
      assert Reaches(view[k], view'[k]);
    }
  }

  lemma FinishedStay(view: Table, view': Table)
    requires Evolves(view, view')
    ensures forall k | Finished(view, k) :: Finished(view', k)
  {
    forall k | Finished(view, k) ensures Finished(view', k) {
      assert Reaches(view[k], view'[k]);
    }
  }

  /** A child job of the tree is missing, and another job is active in its place. */
  ghost predicate Blocked(view: Table, rs: seq<DeviceResult>, tenant: string, root: JobId, scope: Scope) {
    scope.Fanned? && Hindered(view, rs, tenant, root, scope.scope, scope.expected)
  }

  lemma BlockedBefore(view: Table, view': Table, rs: seq<DeviceResult>, tenant: string, root: JobId, scope: Scope)
    requires ActiveFrom(view, view') && Blocked(view', rs, tenant, root, scope)
    ensures Blocked(view, rs, tenant, root, scope)
  {
    var a :| a in scope.expected && !HasAddress(rs, a) && ChildKeyTaken(view', tenant, root, scope.scope, a);
    TakenBefore(view, view', tenant, root, scope.scope, a);
  }

  /** Ends the transaction of a tree whose root has just been ended. */
  method SettleTree(s: Session, tenant: string, root: JobId, scope: Scope, interrupted: bool)
    returns (r: Result<(), JobError>)
    requires s.Valid() && root in s.View() && s.View()[root].parent.None? && s.View()[root].state.IsTerminal()
    requires !interrupted ==> KnownCancelled(s.Seen(), root)
    requires ResultsLinked(s.View(), s.results, tenant, root)
    modifies s
    ensures s.Valid() && old(s.trace) <= s.trace && AllOrNothing(s, root, scope, r.Ok?)
    ensures r.Ok? ==> Evolves(old(s.View()), s.world.db)
    ensures r.Ok? && scope.Expected() != [] ==>
      && IsReconciled(old(s.results), s.results, scope.expected, interrupted)
      && s.summary == Some(Summarize(|scope.expected|, s.results))
    ensures old(s.Alone()) ==> s.Alone() && (r.Err? ==> Blocked(old(s.View()), old(s.results), tenant, root, scope))
  {
    if scope.Expected() == [] {
      s.Commit();
      EvolvesReflexive(s.world.db);
      r := Ok(());
    } else {
      r := ReconcileParentJob(s, tenant, root, scope.scope, scope.expected, interrupted);
      if r.Err? { return; }
    }
    s.RowsBackedByTable(root);
    ViewIsOk(s.trace, s.me);
    HasEnded(s.world.db, root, old(s.results), s.results, scope, interrupted);
  }

  /** What a committed reconciliation means for the whole tree. */
  lemma HasEnded(
    db: Table, root: JobId, before: seq<DeviceResult>, now: seq<DeviceResult>, scope: Scope, interrupted: bool)
    requires Finished(db, root) && forall k | k in db :: RowInv(db[k])
    requires if scope.Expected() == [] then now == before
             else IsReconciled(before, now, scope.expected, interrupted) && TreeFinished(db, before, now, scope.expected)
    ensures TreeEnded(db, root, before, now, scope)
  {
    if scope.Expected() != [] { CoversExpected(db, before, now, scope.expected, interrupted); }
    forall k | Finished(db, k) ensures EndedCleanly(db, k) {}
  }

  lemma CoversExpected(
    db: Table, before: seq<DeviceResult>, now: seq<DeviceResult>, expected: seq<Address>, interrupted: bool)
    requires IsReconciled(before, now, expected, interrupted) && TreeFinished(db, before, now, expected)
    ensures forall a | a in expected :: exists i :: 0 <= i < |now| && now[i].address == a && Finished(db, now[i].child)
  {
    AddressesAfter(before, now, expected, interrupted);
    MissingFacts(before, expected);
    forall a | a in expected ensures exists i :: 0 <= i < |now| && now[i].address == a && Finished(db, now[i].child) {
      if a in Missing(before, expected) {
        var k :| 0 <= k < |Missing(before, expected)| && Missing(before, expected)[k] == a;
        assert now[|before| + k].address == a && Finished(db, now[|before| + k].child);
      } else {
        var i := LastAt(before, a);
        RepresentsMeansLast(before, expected, i);
        assert now[i].address == a && Finished(db, now[i].child);
      }
    }
  }

  ghost function LastAt(rs: seq<DeviceResult>, a: Address): (i: nat)
    requires HasAddress(rs, a)
    ensures i < |rs| && rs[i].address == a && forall k | i < k < |rs| :: rs[k].address != a
  {
    if rs[|rs| - 1].address == a then |rs| - 1
    else
      var j :| 0 <= j < |rs| && rs[j].address == a;
      assert rs[..|rs| - 1][j].address == a;
      LastAt(rs[..|rs| - 1], a)
  }

  /** _reconcile_owned_tree: the children of this owner, then the root, then the results. */
  method ReconcileOwnedTree(s: Session, tenant: string, root: JobId, owner: Owner, scope: Scope)
    returns (r: Result<Row, JobError>)
    requires Ready(s, tenant, root) && root in s.View()
    modifies s
    ensures s.Valid() && old(s.trace) <= s.trace && AllOrNothing(s, root, scope, r.Ok?)
    ensures r.Ok? ==>
      && root in s.world.db && s.world.db[root].SameLifecycle(r.value)
      && ((r.value.state.Failed? && r.value.failure == Some(DISCOVERY_FAILED))
          || (r.value.state.Cancelled? && r.value.failure == Some(CANCELLED) && r.value.cancelRequestedAt.Some?))
    ensures r.Ok? && scope.Expected() != [] ==>
      && IsReconciled(old(s.results), s.results, scope.expected, r.value.state.Failed?)
      && s.summary == Some(Summarize(|scope.expected|, s.results))
    ensures r.Ok? ==> forall k | RunBy(old(s.View()), tenant, root, owner, k) :: Finished(s.world.db, k)
    ensures r.Ok? && AskedToStop(old(s.View()), tenant, root) ==> r.value.state.Cancelled?
    ensures old(s.Alone() && OwnedBy(s.View(), tenant, root, owner)) ==>
      s.Alone() && (r.Err? ==> Blocked(old(s.View()), old(s.results), tenant, root, scope))
    ensures old(s.Alone()) && r.Ok? && r.value.failure.Some? ==>
      ChildrenEndedAs(old(s.View()), s.world.db, tenant, root, owner, r.value.state, r.value.failure.value)
  {
    var cancel, ended := EndRootAndChildren(s, tenant, root, owner);
    if ended.Err? { return ended; }
    ghost var view := s.View();
    StillLinked(old(s.View()), old(s.results), view, s.results, tenant, root);
    assert Reaches(old(s.View())[root], view[root]);
    var settled := SettleTree(s, tenant, root, scope, !cancel);
    if settled.Err? {
      if old(s.Alone() && OwnedBy(s.View(), tenant, root, owner)) {
        BlockedBefore(old(s.View()), view, old(s.results), tenant, root, scope);
      }
      return Err(settled.error);
    }
    assert Reaches(view[root], s.world.db[root]);
    FinishedStay(view, s.world.db);
    if old(s.Alone()) {
      ChildrenStayEnded(old(s.View()), view, s.world.db, tenant, root, owner, EndState(cancel), EndCode(cancel));
    }
    r := ended;
  }

  /** Ends the owner's children, then the root, as cancelled or failed. */
  method EndRootAndChildren(s: Session, tenant: string, root: JobId, owner: Owner)
    returns (cancel: bool, r: Result<Row, JobError>)
    requires s.Valid() && root in s.View() && s.View()[root].parent.None?
    modifies s
    ensures s.Valid() && old(s.trace) <= s.trace && s.published == old(s.published)
    ensures r.Ok? ==>
      && Evolves(old(s.View()), s.View()) && root in s.View() && s.View()[root] == r.value
      && s.results == old(s.results) && s.summary == old(s.summary)
      && r.value.state == EndState(cancel) && r.value.failure == Some(EndCode(cancel))
      && (cancel ==> r.value.cancelRequestedAt.Some? && KnownCancelled(s.Seen(), root))
      && (forall k | RunBy(old(s.View()), tenant, root, owner, k) :: Finished(s.View(), k))
    ensures r.Err? ==> s.RolledBack()
    ensures AskedToStop(old(s.View()), tenant, root) ==> cancel
    ensures old(s.Alone() && OwnedBy(s.View(), tenant, root, owner)) ==>
      s.Alone() && r.Ok? && ActiveFrom(old(s.View()), s.View())
    ensures old(s.Alone()) && r.Ok? ==>
      ChildrenEndedAs(old(s.View()), s.View(), tenant, root, owner, EndState(cancel), EndCode(cancel))
  {
    var stopped: Result<(), JobError>;
    cancel, stopped := StopChildren(s, tenant, root, owner);
    if stopped.Err? { r := Err(stopped.error); return; }
    ghost var view, seen := s.View(), s.Seen();
    r := ApplyTransition(s, tenant, root, EndState(cancel), Some(EndCode(cancel)), false, Some(owner));
    if r.Err? { return; }
    EvolvesTransitive(old(s.View()), view, s.View());
    FinishedStay(view, s.View());
    StillKnownCancelled(seen, s.Seen(), root);
    if cancel { RootWasAsked(s, root); }
    if old(s.Alone()) {
      ChildrenStayEnded(old(s.View()), view, s.View(), tenant, root, owner, EndState(cancel), EndCode(cancel));
      if old(OwnedBy(s.View(), tenant, root, owner)) { ActiveButOne(old(s.View()), view, s.View(), root); }
    }
  }

  lemma ActiveButOne(view: Table, between: Table, view': Table, ended: JobId)
    requires ActiveFrom(view, between) && Finished(view', ended) && view' == between[ended := view'[ended]]
    ensures ActiveFrom(view, view')
  {
  }

  /** Whether the root was asked to stop, and the end of its owner's children. */
  method StopChildren(s: Session, tenant: string, root: JobId, owner: Owner)
    returns (cancel: bool, r: Result<(), JobError>)
    requires s.Valid() && root in s.View() && s.View()[root].parent.None?
    modifies s
    ensures s.Valid() && old(s.trace) <= s.trace && s.published == old(s.published)
    ensures r.Ok? ==>
      && Evolves(old(s.View()), s.View()) && root in s.View() && s.View()[root].parent.None?
      && s.results == old(s.results) && s.summary == old(s.summary)
      && (cancel ==> KnownCancelled(s.Seen(), root) && s.Seen()[root].cancelRequestedAt.Some?)
      && (forall k | RunBy(old(s.View()), tenant, root, owner, k) :: Finished(s.View(), k))
    ensures r.Err? ==> s.RolledBack()
    ensures AskedToStop(old(s.View()), tenant, root) ==> cancel
    ensures old(s.Alone()) ==>
      s.Alone() && r.Ok? && ActiveFrom(old(s.View()), s.View()) && s.View()[root] == old(s.View())[root]
    ensures old(s.Alone()) ==>
      ChildrenEndedAs(old(s.View()), s.View(), tenant, root, owner, EndState(cancel), EndCode(cancel))
  {
    cancel := CancellationRequested(s, tenant, root);
    ghost var view, seen := s.View(), s.Seen();
    assert Reaches(old(s.View())[root], view[root]);
    r := EndOwnedChildren(s, tenant, root, owner, cancel);
    if r.Err? { return; }
    assert Reaches(view[root], s.View()[root]);
    if cancel { assert Reaches(seen[root], s.Seen()[root]); }
    EvolvesTransitive(old(s.View()), view, s.View());
    StillTheirs(old(s.View()), view, tenant, root, owner);
    FinishedStay(view, s.View());
  }

  lemma RootWasAsked(s: Session, root: JobId)
    requires s.Valid() && root in s.View() && s.View()[root].state.Cancelled? && s.View()[root].parent.None?
    ensures s.View()[root].cancelRequestedAt.Some?
  {
    CancelledRootWasAsked(s.trace, s.me, root);
  }

  /** How an abandoned or recovered root ends: cancelled if that was asked for before, and else
      failed, unless somebody asked in the meantime. */
  ghost predicate EndedForOwner(before: Table, db: Table, tenant: string, root: JobId, row: Row) {
    && root in db && db[root].SameLifecycle(row)
    && ((row.state.Failed? && row.failure == Some(DISCOVERY_FAILED))
        || (row.state.Cancelled? && row.failure == Some(CANCELLED) && row.cancelRequestedAt.Some?))
    && (AskedToStop(before, tenant, root) ==> row.state.Cancelled?)
  }

  /** Ends an expired tree; never resumes it. None when the lease has not expired. */
  method RecoverExpiredOwnedJob(s: Session, tenant: string, root: JobId, staleBefore: Instant, scope: Scope)
    returns (r: Result<Option<Row>, JobError>)
    requires Ready(s, tenant, root)
    modifies s
    ensures s.Valid() && old(s.trace) <= s.trace
    ensures AllOrNothing(s, root, scope, r.Ok? && r.value.Some?)
    ensures r == Ok(None) <==> !old(root in s.View() && s.View()[root].tenant == tenant
                                      && RecoveryAccepts(root, s.View()[root], staleBefore))
    ensures r.Ok? && r.value.Some? ==> EndedForOwner(old(s.View()), s.world.db, tenant, root, r.value.value)
    ensures old(s.Alone()) && r.Err? ==> Blocked(old(s.View()), old(s.results), tenant, root, scope)
  {
    if root == PROTECTED {
      return Ok(None);
    }
    var job := s.Get(tenant, root);
    if !(&& job.Some? && job.value.state.Running?
         && job.value.owner.Some? && job.value.leaseExpiresAt.Some? && job.value.heartbeatAt.Some?
         && job.value.leaseExpiresAt.value < staleBefore) {
      return Ok(None);
    }
    var ended := ReconcileOwnedTree(s, tenant, root, job.value.owner.value, scope);
    match ended
    case Ok(row) => r := Ok(Some(row));
    case Err(error) => r := Err(error);
  }

  /** Stops a tree whose worker has lost its heartbeat. None when it is not this owner's. */
  method AbandonOwnedJob(s: Session, tenant: string, root: JobId, owner: Owner, scope: Scope)
    returns (r: Result<Option<Row>, JobError>)
    requires Ready(s, tenant, root)
    modifies s
    ensures s.Valid() && old(s.trace) <= s.trace
    ensures AllOrNothing(s, root, scope, r.Ok? && r.value.Some?)
    ensures r == Ok(None) <==> root == PROTECTED || !old(OwnedBy(s.View(), tenant, root, owner))
    ensures r.Ok? && root != PROTECTED ==> !OwnedBy(s.world.db, tenant, root, owner)
    ensures r.Ok? && r.value.Some? ==> EndedForOwner(old(s.View()), s.world.db, tenant, root, r.value.value)
    ensures old(s.Alone()) && r.Err? ==> Blocked(old(s.View()), old(s.results), tenant, root, scope)
  {
    if root == PROTECTED {
      return Ok(None);
    }
    s.RowsBackedByTable(root);
    var job := s.Get(tenant, root);
    if !(job.Some? && job.value.state.Running? && job.value.owner == Some(owner)) {
      return Ok(None);
    }
    var ended := ReconcileOwnedTree(s, tenant, root, owner, scope);
    match ended
    case Ok(row) => r := Ok(Some(row));
    case Err(error) => r := Err(error);
  }

  /** Fails a root and ends its tree. */
  method FailTree(s: Session, tenant: string, root: JobId, owner: Owner, scope: Scope) returns (r: Result<Row, JobError>)
    requires Ready(s, tenant, root) && root in s.View()
    modifies s
    ensures s.Valid() && old(s.trace) <= s.trace && AllOrNothing(s, root, scope, r.Ok?)
    ensures r.Ok? ==> r.value.state.Failed? && r.value.failure == Some(DISCOVERY_FAILED)
    ensures old(s.Alone() && OwnedBy(s.View(), tenant, root, owner)) ==>
      s.Alone() && (r.Err? ==> Blocked(old(s.View()), old(s.results), tenant, root, scope))
  {
    ghost var view := s.View();
    r := ApplyTransition(s, tenant, root, Failed, Some(DISCOVERY_FAILED), false, Some(owner));
    if r.Err? { return; }
    StillLinked(view, old(s.results), s.View(), s.results, tenant, root);
    assert Reaches(view[root], s.View()[root]);
    ghost var ended := s.View();
    var settled := SettleTree(s, tenant, root, scope, true);
    if settled.Err? {
      if old(s.Alone() && OwnedBy(s.View(), tenant, root, owner)) {
        BlockedBefore(view, ended, old(s.results), tenant, root, scope);
      }
      r := Err(settled.error);
    }
  }

  /** The worker's handler for an execution error: fail the root it still owns. */
  method FailOwnedJob(s: Session, tenant: string, root: JobId, owner: Owner, scope: Scope)
    returns (r: Result<Option<Row>, JobError>)
    requires Ready(s, tenant, root)
    modifies s
    ensures s.Valid() && old(s.trace) <= s.trace
    ensures AllOrNothing(s, root, scope, r.Ok? && r.value.Some?)
    ensures r == Ok(None) <==> !old(OwnedBy(s.View(), tenant, root, owner))
    ensures r.Ok? && r.value.Some? ==> r.value.value.state.Failed? && r.value.value.failure == Some(DISCOVERY_FAILED)
    ensures old(s.Alone()) && r.Err? ==> Blocked(old(s.View()), old(s.results), tenant, root, scope)
  {
    var job := s.Get(tenant, root);
    if !(job.Some? && job.value.state.Running? && job.value.owner == Some(owner)) {
      return Ok(None);
    }
    var failed := FailTree(s, tenant, root, owner, scope);
    match failed
    case Ok(row) => r := Ok(Some(row));
    case Err(error) => r := Err(error);
  }

  // Changed carries the row the operation wrote, Unchanged one that needed no write.
  datatype Cancellation = Changed(row: Row) | Unchanged(row: Row)

  /** After a lost compare-and-set: fine if the job turned out cancelled. */
  method CancelledMeanwhile(s: Session, tenant: string, id: JobId) returns (r: Result<Cancellation, JobError>)
    requires s.Valid() && s.RolledBack()
    modifies s`world, s`schedule, s`trace
    ensures s.Valid() && old(s.trace) <= s.trace && s.RolledBack()
    ensures r.Ok? ==> r.value.Unchanged? && r.value.row.state.Cancelled?
    ensures r.Err? ==> r == Err(CancellationConflict)
  {
    var current := ReadRow(s, tenant, id);
    if current.Some? && current.value.state.Cancelled? { r := Ok(Unchanged(current.value)); }
    else { r := Err(CancellationConflict); }
  }

  /** A cancellation written but not yet committed, or nothing written. */
  twostate predicate CancellationPending(s: Session, root: JobId, new r: Result<Cancellation, JobError>)
    reads s
  {
    && s.published == old(s.published)
    && s.savedResults == old(s.savedResults) && s.savedSummary == old(s.savedSummary)
    && if r.Ok? && r.value.Changed? then
         && Evolves(old(s.View()), s.View()) && root in old(s.View()) && root in s.View()
         && s.View()[root] == r.value.row && r.value.row.cancelRequestedAt.Some?
         && KnownCancelled(s.Seen(), root)
         && s.results == old(s.results) && s.summary == old(s.summary)
       else
         || s.RolledBack()
         || (s.Writes() == old(s.Writes()) && s.results == old(s.results) && s.summary == old(s.summary) && r.Ok?)
  }

  /** What a request is answered when nobody else is at work: no such job, already cancelled or
      asked, too late, or written. */
  predicate RequestAnswers(view: Table, tenant: string, root: JobId, r: Result<Cancellation, JobError>) {
    if !(root in view && view[root].tenant == tenant) then r == Err(NotFound)
    else if view[root].state.Cancelled? then r.Ok? && r.value.Unchanged?
    else if view[root].state.IsTerminal() then r == Err(CancellationConflict)
    else r.Ok? && (r.value.Changed? <==> view[root].cancelRequestedAt.None?)
  }

  method WriteRequest(s: Session, tenant: string, root: JobId) returns (r: Result<Cancellation, JobError>)
    requires s.Valid()
    modifies s
    ensures s.Valid() && old(s.trace) <= s.trace && CancellationPending(s, root, r)
    ensures r.Ok? && r.value.Unchanged? ==> r.value.row.state.Cancelled? || r.value.row.cancelRequestedAt.Some?
    ensures r.Ok? && r.value.Changed? ==>
      r.value.row.state.Running? || (r.value.row.state.Cancelled? && r.value.row.failure == Some(CANCELLED))
    ensures old(s.Alone()) ==> s.Alone() && RequestAnswers(old(s.View()), tenant, root, r)
    ensures old(s.Alone()) && r.Ok? && r.value.Changed? ==>
      && s.View() == old(s.View())[root := r.value.row]
      && (r.value.row.state.Running? <==> old(s.View())[root].state.Running?)
  {
    var job := s.Get(tenant, root);
    if job.None? {
      s.Rollback();
      return Err(NotFound);
    }
    if job.value.state.IsTerminal() {
      if job.value.state.Cancelled? { return Ok(Unchanged(job.value)); }
      s.Rollback();
      return Err(CancellationConflict);
    }
    if job.value.cancelRequestedAt.Some? {
      return Ok(Unchanged(job.value));
    }
    var outcome := UpdateLater(s, root, RequestCancellation(job.value.state));
    if outcome.Blocked? { return Err(DatabaseError); }
    if outcome.Miss? {
      r := CancelledMeanwhile(s, tenant, root);
      return;
    }
    r := Ok(Changed(s.View()[root]));
    var again := s.Get(tenant, root);
  }

  /** Cancels queued work at once, and leaves a request for running work. */
  method RequestJobCancellation(s: Session, tenant: string, root: JobId, scope: Scope)
    returns (r: Result<Cancellation, JobError>)
    requires Ready(s, tenant, root)
    modifies s
    ensures s.Valid() && old(s.trace) <= s.trace
    ensures !(r.Ok? && r.value.Changed?) ==> s.published == old(s.published) && s.RolledBack()
    ensures r.Ok? && r.value.Unchanged? ==> r.value.row.state.Cancelled? || r.value.row.cancelRequestedAt.Some?
    ensures r.Ok? && r.value.Changed? ==>
      && |s.published| == |old(s.published)| + 1 && s.Writes() == map[]
      && root in s.world.db && Reaches(r.value.row, s.world.db[root]) && r.value.row.cancelRequestedAt.Some?
      && (r.value.row.state.Running? || AllOrNothing(s, root, scope, true))
      && (r.value.row.state.Running? || (r.value.row.state.Cancelled? && r.value.row.failure == Some(CANCELLED)))
    ensures old(s.Alone()) ==>
      || RequestAnswers(old(s.View()), tenant, root, r)
      || (&& old(root in s.View() && s.View()[root].state.Queued?)
          && r.Err? && Blocked(old(s.View()), old(s.results), tenant, root, scope))
    ensures old(s.Alone()) && r.Ok? && r.value.Changed? ==>
      root in old(s.View()) && (r.value.row.state.Running? <==> old(s.View())[root].state.Running?)
  {
    r := WriteRequest(s, tenant, root);
    if r.Err? || r.value.Unchanged? { return; }
    ghost var written := s.View();
    if r.value.row.state.Running? {
      s.Commit();
    } else {
      assert Reaches(old(s.View())[root], written[root]);
      StillLinked(old(s.View()), old(s.results), written, s.results, tenant, root);
      var settled := SettleTree(s, tenant, root, scope, false);
      if settled.Err? {
        if old(s.Alone()) { BlockedAfterEnd(old(s.View()), written, old(s.results), tenant, root, scope); }
        r := Err(settled.error);
        return;
      }
      assert Reaches(written[root], s.world.db[root]);
    }
  }

  lemma BlockedAfterEnd(view: Table, view': Table, rs: seq<DeviceResult>, tenant: string, root: JobId, scope: Scope)
    requires root in view && Finished(view', root) && view' == view[root := view'[root]]
    requires Blocked(view', rs, tenant, root, scope)
    ensures Blocked(view, rs, tenant, root, scope)
  {
    ActiveButOne(view, view, view', root);
    BlockedBefore(view, view', rs, tenant, root, scope);
  }

  predicate RunningChild(view: Table, tenant: string, root: JobId, child: JobId) {
    IsChildOf(view, child, tenant, root) && view[child].state.Running?
  }

  ghost predicate RunningChildrenCancelled(view: Table, view': Table, tenant: string, root: JobId) {
    forall k | RunningChild(view, tenant, root, k) :: k in view' && view'[k].state.Cancelled?
  }

  lemma ChildrenStayCancelled(view: Table, written: Table, ended: Table, view': Table, tenant: string, root: JobId)
    requires RunningChildrenCancelled(written, ended, tenant, root) && Evolves(ended, view')
    requires root in view && view[root].parent.None? && root in written && written == view[root := written[root]]
    ensures RunningChildrenCancelled(view, view', tenant, root)
  {
    forall k | RunningChild(view, tenant, root, k) ensures k in view' && view'[k].state.Cancelled? {
      assert RunningChild(written, tenant, root, k);
      assert Reaches(ended[k], view'[k]);
    }
  }

  lemma StillRunning(view: Table, view': Table, tenant: string, root: JobId)
    requires Evolves(view, view')
    ensures forall k | RunningChild(view, tenant, root, k) :: RunningChild(view', tenant, root, k) || Finished(view', k)
  {
    forall k | RunningChild(view, tenant, root, k) ensures RunningChild(view', tenant, root, k) || Finished(view', k) {
      assert Reaches(view[k], view'[k]);
    }
  }

  /** Cancels the running children of a force-resolved root; the UPDATE keeps its state guard. */
  method CancelRunningChildren(s: Session, tenant: string, root: JobId) returns (r: Result<(), JobError>)
    requires s.Valid() && KnownCancelled(s.Seen(), root)
    modifies s
    ensures s.Valid() && old(s.trace) <= s.trace && s.published == old(s.published)
    ensures r.Ok? ==>
      && Evolves(old(s.View()), s.View()) && Evolves(old(s.Seen()), s.Seen())
      && s.results == old(s.results) && s.summary == old(s.summary)
      && (forall k | RunningChild(old(s.View()), tenant, root, k) :: Finished(s.View(), k))
    ensures r.Err? ==> s.RolledBack()
    ensures old(s.Alone()) ==> s.Alone() && r.Ok? && ActiveFrom(old(s.View()), s.View())
    ensures old(s.Alone()) ==> RunningChildrenCancelled(old(s.View()), s.View(), tenant, root)
  {
    var running := set k | k in s.View() && s.View()[k].tenant == tenant
                           && s.View()[k].parent == Some(root) && s.View()[k].state.Running? :: k;
    r := CancelEach(s, root, running);
  }

  ghost predicate AllRunning(view: Table, root: JobId, jobs: set<JobId>) {
    forall k | k in jobs :: k in view && view[k].parent == Some(root) && view[k].state.Running?
  }

  method CancelEach(s: Session, root: JobId, running: set<JobId>) returns (r: Result<(), JobError>)
    requires s.Valid() && KnownCancelled(s.Seen(), root) && AllRunning(s.View(), root, running)
    modifies s`world, s`schedule, s`trace, s`results, s`summary
    ensures s.Valid() && old(s.trace) <= s.trace
    ensures r.Ok? ==>
      && Evolves(old(s.View()), s.View()) && Evolves(old(s.Seen()), s.Seen())
      && s.results == old(s.results) && s.summary == old(s.summary) && AllFinished(s.View(), running)
    ensures r.Err? ==> s.RolledBack()
    ensures old(s.Alone()) ==> s.Alone() && r.Ok? && ActiveFrom(old(s.View()), s.View())
    ensures old(s.Alone()) ==> AllCancelled(s.View(), running)
  {
    var todo := running;
    ghost var start, known, done := s.View(), s.Seen(), {};
    EvolvesReflexive(start);
    EvolvesReflexive(known);
    r := Ok(());
    while todo != {}
      invariant s.Valid() && old(s.trace) <= s.trace && r.Ok?
      invariant Evolves(start, s.View()) && Evolves(known, s.Seen())
      invariant s.results == old(s.results) && s.summary == old(s.summary)
      invariant todo + done == running && todo !! done && AllFinished(s.View(), done)
      invariant old(s.Alone()) ==> s.Alone() && CancelledSoFar(start, s.View(), done)
      decreases todo
    {
      var child :| child in todo;
      todo := todo - {child};
      r := CancelNext(s, root, child, start, known, done);
      if r.Err? { return; }
      done := done + {child};
    }
  }

  /** With nobody else at work: the children in `done` are cancelled, the rest is as it was. */
  ghost predicate CancelledSoFar(start: Table, view: Table, done: set<JobId>) {
    ActiveFrom(start, view) && SameExcept(start, view, done) && AllCancelled(view, done)
  }

  lemma OneMoreCancelled(start: Table, view: Table, view': Table, done: set<JobId>, child: JobId)
    requires CancelledSoFar(start, view, done) && ActiveFrom(view, view')
    requires child in view' && view' == view[child := view'[child]] && view'[child].state.Cancelled?
    ensures CancelledSoFar(start, view', done + {child})
  {
  }

  /** One turn of the loop over the running children. */
  method CancelNext(
    s: Session, root: JobId, child: JobId, ghost start: Table, ghost known: Table, ghost done: set<JobId>)
    returns (r: Result<(), JobError>)
    requires s.Valid() && Evolves(start, s.View()) && Evolves(known, s.Seen()) && KnownCancelled(known, root)
    requires child in start && start[child].parent == Some(root) && start[child].state.Running?
    requires AllFinished(s.View(), done)
    modifies s`world, s`schedule, s`trace, s`results, s`summary
    ensures s.Valid() && old(s.trace) <= s.trace
    ensures r.Ok? ==>
      && Evolves(start, s.View()) && Evolves(known, s.Seen()) && AllFinished(s.View(), done + {child})
      && s.results == old(s.results) && s.summary == old(s.summary)
    ensures r.Err? ==> s.RolledBack()
    ensures old(s.Alone()) && CancelledSoFar(start, old(s.View()), done) && child !in done ==>
      s.Alone() && r.Ok? && CancelledSoFar(start, s.View(), done + {child})
  {
    ghost var view := s.View();
    r := CancelIfRunning(s, root, child, start, known);
    if r.Err? { return; }
    OneMoreFinished(view, s.View(), done, child);
    if old(s.Alone()) && CancelledSoFar(start, view, done) && child !in done {
      OneMoreCancelled(start, view, s.View(), done, child);
    }
  }

  ghost predicate AllCancelled(view: Table, jobs: set<JobId>) {
    forall k | k in jobs :: k in view && view[k].state.Cancelled?
  }

  ghost predicate AllFinished(view: Table, jobs: set<JobId>) {
    forall k | k in jobs :: Finished(view, k)
  }

  lemma OneMoreFinished(view: Table, view': Table, jobs: set<JobId>, job: JobId)
    requires AllFinished(view, jobs) && Evolves(view, view') && Finished(view', job)
    ensures AllFinished(view', jobs + {job})
  {
    FinishedStay(view, view');
  }

  method CancelIfRunning(s: Session, root: JobId, child: JobId, ghost view: Table, ghost seen: Table)
    returns (r: Result<(), JobError>)
    requires s.Valid() && Evolves(view, s.View()) && Evolves(seen, s.Seen()) && KnownCancelled(seen, root)
    requires child in view && view[child].parent == Some(root) && view[child].state.Running?
    modifies s`world, s`schedule, s`trace, s`results, s`summary
    ensures s.Valid() && old(s.trace) <= s.trace
    ensures r.Ok? ==>
      && Evolves(view, s.View()) && Evolves(seen, s.Seen()) && Evolves(old(s.View()), s.View())
      && Finished(s.View(), child)
      && s.results == old(s.results) && s.summary == old(s.summary)
    ensures r.Err? ==> s.RolledBack()
    ensures old(s.Alone()) ==> s.Alone() && r.Ok? && ActiveFrom(old(s.View()), s.View())
    ensures old(s.Alone()) ==> s.View() == old(s.View())[child := s.View()[child]]
    ensures old(s.Alone() && child in s.View() && s.View()[child].state.Running?) ==> s.View()[child].state.Cancelled?
  {
    assert Reaches(view[child], old(s.View())[child]);
    StillKnownCancelled(seen, s.Seen(), root);
    r := UpdateChild(s, root, child, CancelRunningChild);
    if r.Ok? { EvolvesTransitive(view, old(s.View()), s.View()); }
  }

  /** What a force-resolve is answered when nobody else is at work. */
  predicate StaleAnswers(view: Table, now: Instant, tenant: string, root: JobId, r: Result<Cancellation, JobError>) {
    if !(root in view && view[root].tenant == tenant) then r == Err(NotFound)
    else if view[root].state.Cancelled? then r.Ok? && r.value.Unchanged?
    else if view[root].state.Running? && view[root].cancelRequestedAt.Some? && !HasLiveLease(view, root, now) then
      r.Ok? && r.value.Changed?
    else r == Err(CancellationConflict)
  }

  method WriteStaleCancellation(s: Session, tenant: string, root: JobId) returns (r: Result<Cancellation, JobError>)
    requires s.Valid() && s.RolledBack()
    modifies s
    ensures s.Valid() && old(s.trace) <= s.trace && CancellationPending(s, root, r)
    ensures r.Ok? ==> r.value.row.state.Cancelled?
    ensures r.Ok? && r.value.Changed? ==> r.value.row.failure == Some(CANCELLED)
    ensures old(HasLiveLease(s.View(), root, s.world.now)) ==> !(r.Ok? && r.value.Changed?)
    ensures old(s.Alone()) ==> s.Alone() && StaleAnswers(old(s.View()), old(s.world.now), tenant, root, r)
    ensures old(s.Alone()) && r.Ok? && r.value.Changed? ==> s.View() == old(s.View())[root := r.value.row]
  {
    var job := s.Get(tenant, root);
    if job.None? {
      s.Rollback();
      return Err(NotFound);
    }
    if job.value.state.Cancelled? {
      return Ok(Unchanged(job.value));
    }
    if !job.value.state.Running? || job.value.cancelRequestedAt.None? || HasLiveLease(s.View(), root, s.world.now) {
      s.Rollback();
      return Err(CancellationConflict);
    }
    var outcome := UpdateLater(s, root, ResolveStale);
    if outcome.Blocked? { return Err(DatabaseError); }
    if outcome.Miss? {
      r := CancelledMeanwhile(s, tenant, root);
      return;
    }
    r := Ok(Changed(s.View()[root]));
  }

  /** Force-resolves a cancellation nobody is working on; a live lease refuses it. */
  method ResolveStaleCancellation(s: Session, tenant: string, root: JobId, scope: Scope)
    returns (r: Result<Cancellation, JobError>)
    requires Ready(s, tenant, root)
    modifies s
    ensures s.Valid() && old(s.trace) <= s.trace
    ensures AllOrNothing(s, root, scope, r.Ok? && r.value.Changed?)
    ensures r.Ok? ==> r.value.row.state.Cancelled?
    ensures r.Ok? && r.value.Changed? ==>
      && root in s.world.db && s.world.db[root].SameLifecycle(r.value.row)
      && r.value.row.cancelRequestedAt.Some? && r.value.row.failure == Some(CANCELLED)
      && (forall k | RunningChild(old(s.View()), tenant, root, k) :: Finished(s.world.db, k))
    ensures old(HasLiveLease(s.View(), root, s.world.now)) ==> !(r.Ok? && r.value.Changed?)
    ensures old(s.Alone()) ==>
      || StaleAnswers(old(s.View()), old(s.world.now), tenant, root, r)
      || (&& old(root in s.View() && s.View()[root].state.Running?)
          && r.Err? && Blocked(old(s.View()), old(s.results), tenant, root, scope))
    ensures old(s.Alone()) && r.Ok? && r.value.Changed? ==>
      RunningChildrenCancelled(old(s.View()), s.world.db, tenant, root)
  {
    r := WriteStaleCancellation(s, tenant, root);
    if r.Err? || r.value.Unchanged? { return; }
    ghost var written, seen := s.View(), s.Seen();
    var children := CancelRunningChildren(s, tenant, root);
    if children.Err? { r := Err(children.error); return; }
    ghost var ended := s.View();
    StillKnownCancelled(seen, s.Seen(), root);
    assert Reaches(old(s.View())[root], written[root]) && Reaches(written[root], ended[root]);
    EvolvesTransitive(old(s.View()), written, ended);
    StillLinked(old(s.View()), old(s.results), ended, s.results, tenant, root);
    var settled := SettleTree(s, tenant, root, scope, false);
    if settled.Err? {
      if old(s.Alone()) {
        BlockedBefore(written, ended, old(s.results), tenant, root, scope);
        BlockedAfterEnd(old(s.View()), written, old(s.results), tenant, root, scope);
      }
      r := Err(settled.error);
      return;
    }
    assert Reaches(ended[root], s.world.db[root]);
    StillRunning(old(s.View()), written, tenant, root);
    FinishedStay(written, ended);
    FinishedStay(ended, s.world.db);
    if old(s.Alone()) { ChildrenStayCancelled(old(s.View()), written, ended, s.world.db, tenant, root); }
  }

  predicate HasLiveLease(view: Table, id: JobId, now: Instant) {
    id in view && view[id].owner.Some? && view[id].leaseExpiresAt.Some? && view[id].leaseExpiresAt.value > now
  }
}
