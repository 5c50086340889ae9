// Reconciliation of a fanned-out job: every expected address ends with a finished
// child job and a classified result (backend/app/discovery/fanout.py).

module Fanout {
  import opened Common
  import opened Contracts
  import opened JobRows
  import opened JobProtocol
  import opened JobRuns
  import opened FanoutResults
  import opened Sessions
  import opened JobRepository

  /** The dictionary {result.address: result}, by position in the list; the last one wins. */
  method IndexByAddress(rs: seq<DeviceResult>) returns (index: map<Address, nat>)
    ensures IsIndex(index, rs)
  {
    index := map[];
    for i := 0 to |rs|
      invariant forall k | 0 <= k < i :: rs[k].address in index
      invariant forall a | a in index ::
        index[a] < i && rs[index[a]].address == a && forall k | index[a] < k < i :: rs[k].address != a
    {
      index := index[rs[i].address := i];
    }
  }

  /** Some job is active under the tenant and target a child job of this address would have. */
  predicate ChildKeyTaken(view: Table, tenant: string, parent: JobId, scope: nat, address: Address) {
    KeyIsActive(view, NewRow(tenant, DeviceTarget(scope, address), Some(parent)))
  }

  /** Whatever is active later was active before. */
  ghost predicate ActiveFrom(view: Table, view': Table) {
    forall k | k in view' && view'[k].state.IsActive() ::
      k in view && view[k].state.IsActive() && SameKey(view[k], view'[k])
  }

  lemma TakenBefore(view: Table, view': Table, tenant: string, parent: JobId, scope: nat, address: Address)
    requires ActiveFrom(view, view') && ChildKeyTaken(view', tenant, parent, scope, address)
    ensures ChildKeyTaken(view, tenant, parent, scope, address)
  {
  }

  /** Creates the child job of one address and its queued result. */
  method CreateChild(s: Session, tenant: string, parent: JobId, scope: nat, address: Address)
    returns (r: Result<DeviceResult, JobError>)
    requires s.Valid() && parent in s.View() && s.View()[parent].parent.None?
    modifies s`world, s`schedule, s`trace, s`results, s`summary
    ensures s.Valid() && old(s.trace) <= s.trace
    ensures r.Ok? ==>
      && r.value == QueuedResult(address, r.value.child) && s.results == old(s.results) + [r.value]
      && r.value.child !in old(s.View()) && r.value.child in s.View()
      && s.View()[r.value.child] == NewRow(tenant, DeviceTarget(scope, address), Some(parent))
      && s.Writes() == old(s.Writes())[r.value.child := s.View()[r.value.child]]
      && Evolves(old(s.View()), s.View()) && s.Seen() == old(s.Seen()) && s.summary == old(s.summary)
    ensures r.Err? ==> s.RolledBack()
    ensures old(s.Alone()) ==>
      && s.Alone() && (r.Err? ==> ChildKeyTaken(old(s.View()), tenant, parent, scope, address))
      && (r.Ok? ==> s.View() == old(s.View())[r.value.child := s.View()[r.value.child]])
  {
    s.Interleave();
    ghost var between := s.View();
    var id := s.FreshId();
    assert Reaches(old(s.View())[parent], between[parent]);
    var inserted := s.Insert(id, NewRow(tenant, DeviceTarget(scope, address), Some(parent)));
    if inserted.Err? {
      return Err(inserted.error);
    }
    EvolvesTransitive(old(s.View()), between, s.View());
    var result := QueuedResult(address, id);
    s.results := s.results + [result];
    r := Ok(result);
  }

  predicate Finished(view: Table, id: JobId) {
    id in view && view[id].state.IsTerminal()
  }

  function EndState(cancel: bool): Status {
    if cancel then Cancelled else Failed
  }

  function EndCode(cancel: bool): FailureCode {
    if cancel then CANCELLED else DISCOVERY_FAILED
  }

  predicate EndedAs(r: Row, cancel: bool) {
    r.state == EndState(cancel) && r.failure == Some(EndCode(cancel)) && r.Unleased()
  }

  /** Ends a child that is still active; the read and the unguarded UPDATE are one step. */
  method FinishChild(s: Session, tenant: string, parent: JobId, child: JobId, interrupted: bool)
    returns (r: Result<(), JobError>)
    requires s.Valid() && child in s.View() && s.View()[child].tenant == tenant
    requires s.View()[child].parent == Some(parent)
    requires !interrupted ==> KnownCancelled(s.Seen(), parent)
    modifies s`world, s`schedule, s`trace, s`results, s`summary
    ensures s.Valid() && old(s.trace) <= s.trace
    ensures r.Ok? ==>
      && Evolves(old(s.View()), s.View()) && Evolves(old(s.Seen()), s.Seen()) && Finished(s.View(), child)
      && s.results == old(s.results) && s.summary == old(s.summary)
      && (old(s.View())[child].state.IsTerminal() ==> s.Writes() == old(s.Writes()))
      // Somebody else ended it, or this call did, and then in the state that was asked for.
      && (s.Writes() == old(s.Writes()) ||
          (s.Writes() == old(s.Writes())[child := s.View()[child]] && EndedAs(s.View()[child], !interrupted)))
    ensures r.Err? ==> s.RolledBack()
    ensures old(s.Alone()) ==> s.Alone() && r.Ok? && s.View() == old(s.View())[child := s.View()[child]]
  {
    var job := ReadRow(s, tenant, child);
    ghost var read := s.View();
    assert Reaches(old(s.View())[child], read[child]);
    if job.Some? && !job.value.state.IsTerminal() {
      StillKnownCancelled(old(s.Seen()), s.Seen(), parent);
      r := EndActive(s, parent, child, interrupted);
      if r.Err? { return; }
      EvolvesTransitive(old(s.View()), read, s.View());
    }
    r := Ok(());
  }

  /** The UPDATE of a child that was just read as active. */
  method EndActive(s: Session, parent: JobId, child: JobId, interrupted: bool) returns (r: Result<(), JobError>)
    requires s.Valid() && child in s.View() && s.View()[child].parent == Some(parent)
    requires !s.View()[child].state.IsTerminal() && (!interrupted ==> KnownCancelled(s.Seen(), parent))
    modifies s`world, s`trace, s`results, s`summary
    ensures s.Valid() && old(s.trace) <= s.trace
    ensures r.Ok? ==>
      && Evolves(old(s.View()), s.View()) && s.Seen() == old(s.Seen()) && Finished(s.View(), child)
      && s.results == old(s.results) && s.summary == old(s.summary)
      && s.Writes() == old(s.Writes())[child := s.View()[child]] && EndedAs(s.View()[child], !interrupted)
    ensures r.Err? ==> s.RolledBack()
    ensures old(s.Alone()) ==> s.Alone() && r.Ok? && s.View() == old(s.View())[child := s.View()[child]]
  {
    var outcome := s.Update(child,
      if interrupted then Terminate(Failed, DISCOVERY_FAILED) else Terminate(Cancelled, CANCELLED));
    if outcome.Blocked? { return Err(DatabaseError); }
    r := Ok(());
  }

  lemma StillKnownCancelled(seen: Table, seen': Table, id: JobId)
    requires Evolves(seen, seen')
    ensures KnownCancelled(seen, id) ==> KnownCancelled(seen', id)
  {
  }

  /** Ends the child of one result and settles the result. */
  method SettleResult(s: Session, tenant: string, parent: JobId, i: nat, interrupted: bool)
    returns (r: Result<(), JobError>)
    requires s.Valid() && i < |s.results| && IsChildOf(s.View(), s.results[i].child, tenant, parent)
    requires !interrupted ==> KnownCancelled(s.Seen(), parent)
    modifies s`world, s`schedule, s`trace, s`results, s`summary
    ensures s.Valid() && old(s.trace) <= s.trace
    ensures r.Ok? ==>
      && Evolves(old(s.View()), s.View()) && Evolves(old(s.Seen()), s.Seen()) && s.summary == old(s.summary)
      && s.results == old(s.results)[i := Settle(old(s.results)[i], interrupted)]
      && Finished(s.View(), old(s.results)[i].child)
      && (Finished(old(s.View()), old(s.results)[i].child) ==> s.Writes() == old(s.Writes()))
    ensures r.Err? ==> s.RolledBack()
    ensures old(s.Alone()) ==> s.Alone() && r.Ok? && s.View() == old(s.View())[old(s.results)[i].child := s.View()[old(s.results)[i].child]]
  {
    r := FinishChild(s, tenant, parent, s.results[i].child, interrupted);
    if r.Err? { return; }
    s.results := s.results[i := Settle(s.results[i], interrupted)];
  }

  /** A new child and its result for an address without one, settled at once. */
  method SettleMissing(s: Session, tenant: string, parent: JobId, scope: nat, address: Address, interrupted: bool)
    returns (r: Result<(), JobError>)
    requires s.Valid() && parent in s.View() && s.View()[parent].parent.None?
    requires !interrupted ==> KnownCancelled(s.Seen(), parent)
    modifies s`world, s`schedule, s`trace, s`results, s`summary
    ensures s.Valid() && old(s.trace) <= s.trace
    ensures r.Ok? ==>
      && Evolves(old(s.View()), s.View()) && Evolves(old(s.Seen()), s.Seen()) && s.summary == old(s.summary)
      && |s.results| == |old(s.results)| + 1
      && var child := s.results[|old(s.results)|].child;
         && s.results == old(s.results) + [Settle(QueuedResult(address, child), interrupted)]
         && Finished(s.View(), child) && IsChildOf(s.View(), child, tenant, parent)
    ensures r.Err? ==> s.RolledBack()
    ensures old(s.Alone()) ==>
      && s.Alone() && (r.Err? ==> ChildKeyTaken(old(s.View()), tenant, parent, scope, address))
      && (r.Ok? ==> ActiveFrom(old(s.View()), s.View()))
  {
    var created := CreateChild(s, tenant, parent, scope, address);
    if created.Err? { return Err(created.error); }
    ghost var between, results := s.View(), s.results;
    r := SettleResult(s, tenant, parent, |s.results| - 1, interrupted);
    if r.Err? { return; }
    EvolvesTransitive(old(s.View()), between, s.View());
    assert Reaches(between[created.value.child], s.View()[created.value.child]);
    if old(s.Alone()) { CreatedAndEnded(old(s.View()), between, s.View(), created.value.child); }
  }

  lemma CreatedAndEnded(view: Table, between: Table, view': Table, child: JobId)
    requires child in between && child in view' && Finished(view', child)
    requires between == view[child := between[child]] && view' == between[child := view'[child]]
    ensures ActiveFrom(view, view')
  {
  }

  predicate IsChildOf(view: Table, child: JobId, tenant: string, parent: JobId) {
    child in view && view[child].tenant == tenant && view[child].parent == Some(parent)
  }

  /** Every result of the tree points at a child job of the parent (foreign keys). */
  ghost predicate ResultsLinked(view: Table, rs: seq<DeviceResult>, tenant: string, parent: JobId) {
    forall i | 0 <= i < |rs| :: IsChildOf(view, rs[i].child, tenant, parent)
  }

  /** The children of the results that reconciliation looks at have finished. */
  ghost predicate TreeFinished(view: Table, before: seq<DeviceResult>, now: seq<DeviceResult>, expected: seq<Address>) {
    && |before| <= |now|
    && (forall i: nat | i < |now| && (i >= |before| || Represents(before, expected, i)) :: Finished(view, now[i].child))
  }

  /** The loop invariant: the addresses in `done` have been reconciled. */
  ghost predicate InProgress(
    view: Table, before: seq<DeviceResult>, now: seq<DeviceResult>, done: seq<Address>,
    tenant: string, parent: JobId, interrupted: bool)
  {
    && IsReconciled(before, now, done, interrupted)
    && TreeFinished(view, before, now, done)
    && ResultsLinked(view, now, tenant, parent)
  }

  ghost predicate IsIndex(index: map<Address, nat>, rs: seq<DeviceResult>) {
    && (forall k | 0 <= k < |rs| :: rs[k].address in index)
    && (forall a | a in index ::
          index[a] < |rs| && rs[index[a]].address == a && forall k | index[a] < k < |rs| :: rs[k].address != a)
  }

  /** A turn for an address with a result. */
  method ReconcileKnown(
    s: Session, tenant: string, parent: JobId, address: Address, at: nat, interrupted: bool,
    ghost before: seq<DeviceResult>, ghost done: seq<Address>) returns (r: Result<(), JobError>)
    requires s.Valid() && (!interrupted ==> KnownCancelled(s.Seen(), parent))
    requires InProgress(s.View(), before, s.results, done, tenant, parent, interrupted)
    requires at < |before| && before[at].address == address && forall k | at < k < |before| :: before[k].address != address
    modifies s`world, s`schedule, s`trace, s`results, s`summary
    ensures s.Valid() && old(s.trace) <= s.trace
    ensures r.Ok? ==>
      && Evolves(old(s.View()), s.View()) && Evolves(old(s.Seen()), s.Seen()) && s.summary == old(s.summary)
      && InProgress(s.View(), before, s.results, done + [address], tenant, parent, interrupted)
      && (Finished(old(s.View()), before[at].child) ==> s.Writes() == old(s.Writes()))
    ensures r.Err? ==> s.RolledBack()
    ensures old(s.Alone()) ==> s.Alone() && r.Ok? && ActiveFrom(old(s.View()), s.View())
  {
    ghost var view, rs := s.View(), s.results;
    ChildrenStay(before, rs, done, interrupted);
    assert IsChildOf(view, s.results[at].child, tenant, parent);
    r := SettleResult(s, tenant, parent, at, interrupted);
    if r.Err? { return; }
    ReconcileExisting(before, rs, done, interrupted, address, at);
    FinishedExisting(before, rs, s.results, done, address, at, view, s.View());
    StillLinked(view, rs, s.View(), s.results, tenant, parent);
  }

  /** A turn for an address without one. */
  method ReconcileUnknown(
    s: Session, tenant: string, parent: JobId, scope: nat, address: Address, interrupted: bool,
    ghost before: seq<DeviceResult>, ghost done: seq<Address>) returns (r: Result<(), JobError>)
    requires s.Valid() && parent in s.View() && s.View()[parent].parent.None?
    requires !interrupted ==> KnownCancelled(s.Seen(), parent)
    requires InProgress(s.View(), before, s.results, done, tenant, parent, interrupted) && !HasAddress(before, address)
    modifies s`world, s`schedule, s`trace, s`results, s`summary
    ensures s.Valid() && old(s.trace) <= s.trace
    ensures r.Ok? ==>
      && Evolves(old(s.View()), s.View()) && Evolves(old(s.Seen()), s.Seen()) && s.summary == old(s.summary)
      && InProgress(s.View(), before, s.results, done + [address], tenant, parent, interrupted)
    ensures r.Err? ==> s.RolledBack()
    ensures old(s.Alone()) ==>
      && s.Alone() && (r.Err? ==> ChildKeyTaken(old(s.View()), tenant, parent, scope, address))
      && (r.Ok? ==> ActiveFrom(old(s.View()), s.View()))
  {
    ghost var view, rs := s.View(), s.results;
    r := SettleMissing(s, tenant, parent, scope, address, interrupted);
    if r.Err? { return; }
    ReconcileMissing(before, rs, done, interrupted, address, s.results[|rs|].child);
    FinishedMissing(before, rs, s.results, done, address, view, s.View());
    StillLinked(view, rs, s.View(), s.results, tenant, parent);
  }

  /** One turn of the reconciliation loop. */
  method ReconcileTurn(
    s: Session, tenant: string, parent: JobId, scope: nat, address: Address, index: map<Address, nat>,
    interrupted: bool, ghost before: seq<DeviceResult>, ghost done: seq<Address>)
    returns (r: Result<(), JobError>)
    requires s.Valid() && parent in s.View() && s.View()[parent].parent.None?
    requires !interrupted ==> KnownCancelled(s.Seen(), parent)
    requires IsIndex(index, before) && InProgress(s.View(), before, s.results, done, tenant, parent, interrupted)
    modifies s`world, s`schedule, s`trace, s`results, s`summary
    ensures s.Valid() && old(s.trace) <= s.trace
    ensures r.Ok? ==>
      && Evolves(old(s.View()), s.View()) && Evolves(old(s.Seen()), s.Seen()) && s.summary == old(s.summary)
      && InProgress(s.View(), before, s.results, done + [address], tenant, parent, interrupted)
      && (address in index && Finished(old(s.View()), before[index[address]].child) ==> s.Writes() == old(s.Writes()))
    ensures r.Err? ==> s.RolledBack()
    ensures old(s.Alone()) ==>
      && s.Alone()
      && (r.Err? ==> !HasAddress(before, address) && ChildKeyTaken(old(s.View()), tenant, parent, scope, address))
      && (r.Ok? ==> ActiveFrom(old(s.View()), s.View()))
  {
    if address in index {
      r := ReconcileKnown(s, tenant, parent, address, index[address], interrupted, before, done);
    } else {
      r := ReconcileUnknown(s, tenant, parent, scope, address, interrupted, before, done);
    }
  }

  lemma ChildrenStay(before: seq<DeviceResult>, now: seq<DeviceResult>, done: seq<Address>, interrupted: bool)
    requires IsReconciled(before, now, done, interrupted)
    ensures forall i: nat | i < |before| :: now[i].child == before[i].child
  {
    forall i: nat | i < |before| ensures now[i].child == before[i].child {
      assert now[i] == if Represents(before, done, i) then Settle(before[i], interrupted) else before[i];
    }
  }

  lemma StillLinked(
    view: Table, rs: seq<DeviceResult>, view': Table, rs': seq<DeviceResult>, tenant: string, parent: JobId)
    requires ResultsLinked(view, rs, tenant, parent) && Evolves(view, view') && |rs| <= |rs'|
    requires forall i | 0 <= i < |rs| :: rs'[i].child == rs[i].child
    requires forall i | |rs| <= i < |rs'| :: IsChildOf(view', rs'[i].child, tenant, parent)
    ensures ResultsLinked(view', rs', tenant, parent)
  {
    forall i | 0 <= i < |rs'| ensures IsChildOf(view', rs'[i].child, tenant, parent) {
      if i < |rs| { assert IsChildOf(view, rs[i].child, tenant, parent); }
    }
  }

  /** When every expected address had a finished result before, a turn finds it finished. */
  lemma QuietTurn(
    before: seq<DeviceResult>, expected: seq<Address>, i: nat, start: Table, view: Table, index: map<Address, nat>)
    requires Missing(before, expected) == [] && TreeFinished(start, before, before, expected)
    requires Evolves(start, view) && i < |expected| && IsIndex(index, before)
    ensures expected[i] in index && Finished(view, before[index[expected[i]]].child)
  {
    MissingFacts(before, expected);
    assert expected[i] !in Missing(before, expected);
    assert HasAddress(before, expected[i]);
    var at := index[expected[i]];
    RepresentsMeansLast(before, expected, at);
    assert Finished(start, before[at].child);
  }

  /** A child job is missing and cannot be created, because another job is active in its place. */
  ghost predicate Hindered(
    view: Table, rs: seq<DeviceResult>, tenant: string, parent: JobId, scope: nat, expected: seq<Address>)
  {
    exists a | a in expected :: !HasAddress(rs, a) && ChildKeyTaken(view, tenant, parent, scope, a)
  }

  /** The loop of reconcile_parent_job. */
  method ReconcileAddresses(
    s: Session, tenant: string, parent: JobId, scope: nat, expected: seq<Address>, interrupted: bool)
    returns (r: Result<(), JobError>)
    requires s.Valid() && parent in s.View() && s.View()[parent].parent.None?
    requires !interrupted ==> KnownCancelled(s.Seen(), parent)
    requires ResultsLinked(s.View(), s.results, tenant, parent)
    modifies s`world, s`schedule, s`trace, s`results, s`summary
    ensures s.Valid() && old(s.trace) <= s.trace
    ensures r.Err? ==> s.RolledBack()
    ensures old(s.Alone()) ==>
      s.Alone() && (r.Err? ==> Hindered(old(s.View()), old(s.results), tenant, parent, scope, expected))
    ensures r.Ok? ==>
      && Evolves(old(s.View()), s.View()) && s.summary == old(s.summary)
      && InProgress(s.View(), old(s.results), s.results, expected, tenant, parent, interrupted)
      && (Settled(old(s.View()), old(s.results), expected) ==> s.Writes() == old(s.Writes()))
  {
    ghost var before := s.results;
    ghost var quiet := Settled(s.View(), before, expected);
    var index := IndexByAddress(s.results);
    EvolvesReflexive(s.View());
    EvolvesReflexive(s.Seen());
    NothingReconciled(s.View(), before, tenant, parent, interrupted);
    for i := 0 to |expected|
      invariant s.Valid() && old(s.trace) <= s.trace && s.summary == old(s.summary)
      invariant Evolves(old(s.View()), s.View()) && Evolves(old(s.Seen()), s.Seen())
      invariant InProgress(s.View(), before, s.results, expected[..i], tenant, parent, interrupted)
      invariant quiet ==> s.Writes() == old(s.Writes())
      invariant old(s.Alone()) ==> s.Alone() && ActiveFrom(old(s.View()), s.View())
    {
      ghost var view, seen := s.View(), s.Seen();
      StillKnownCancelled(old(s.Seen()), seen, parent);
      assert Reaches(old(s.View())[parent], view[parent]);
      assert expected[..i + 1] == expected[..i] + [expected[i]];
      if quiet { QuietTurn(before, expected, i, old(s.View()), view, index); }
      r := ReconcileTurn(s, tenant, parent, scope, expected[i], index, interrupted, before, expected[..i]);
      if r.Err? {
        if old(s.Alone()) { TakenBefore(old(s.View()), view, tenant, parent, scope, expected[i]); }
        return;
      }
      EvolvesTransitive(old(s.View()), view, s.View());
      EvolvesTransitive(old(s.Seen()), seen, s.Seen());
    }
    assert expected[..|expected|] == expected;
    r := Ok(());
  }

  /** Nothing is left to reconcile. */
  ghost predicate Settled(view: Table, rs: seq<DeviceResult>, expected: seq<Address>) {
    Missing(rs, expected) == [] && TreeFinished(view, rs, rs, expected)
  }

  lemma NothingReconciled(view: Table, rs: seq<DeviceResult>, tenant: string, parent: JobId, interrupted: bool)
    requires ResultsLinked(view, rs, tenant, parent)
    ensures InProgress(view, rs, rs, [], tenant, parent, interrupted)
  {
  }

  /** reconcile_parent_job: all expected addresses, the run summary, and the commit. */
  method ReconcileParentJob(
    s: Session, tenant: string, parent: JobId, scope: nat, expected: seq<Address>, interrupted: bool)
    returns (r: Result<(), JobError>)
    requires s.Valid() && parent in s.View() && s.View()[parent].parent.None?
    requires !interrupted ==> KnownCancelled(s.Seen(), parent)
    requires ResultsLinked(s.View(), s.results, tenant, parent)
    modifies s
    ensures s.Valid() && old(s.trace) <= s.trace
    ensures r.Err? ==> s.RolledBack() && s.published == old(s.published)
    ensures old(s.Alone()) ==>
      s.Alone() && (r.Err? ==> Hindered(old(s.View()), old(s.results), tenant, parent, scope, expected))
    // Without expected addresses nothing is touched and the caller commits.
    ensures r.Ok? && expected == [] ==>
      && s.results == old(s.results) && s.summary == old(s.summary) && s.published == old(s.published)
      && s.View() == old(s.View()) && s.Writes() == old(s.Writes()) && s.Seen() == old(s.Seen())
    ensures r.Ok? && expected != [] ==>
      && IsReconciled(old(s.results), s.results, expected, interrupted)
      && s.summary == Some(Summarize(|expected|, s.results))
      && s.savedResults == s.results && s.savedSummary == s.summary && s.Writes() == map[]
      && TreeFinished(s.world.db, old(s.results), s.results, expected)
      && ResultsLinked(s.world.db, s.results, tenant, parent)
      && Evolves(old(s.View()), s.world.db) && |s.published| == |old(s.published)| + 1
      && (Settled(old(s.View()), old(s.results), expected)
          ==> s.published == old(s.published) + [old(s.Writes())])
  {
    if expected == [] {
      return Ok(());
    }
    r := ReconcileAddresses(s, tenant, parent, scope, expected, interrupted);
    if r.Err? { return; }
    s.summary := Some(Summarize(|expected|, s.results));
    s.Commit();
  }

  lemma FinishedExisting(
    before: seq<DeviceResult>, rs: seq<DeviceResult>, rs': seq<DeviceResult>, expected: seq<Address>,
    a: Address, at: nat, view: Table, view': Table)
    requires Evolves(view, view') && TreeFinished(view, before, rs, expected)
    requires at < |before| && |rs'| == |rs| && forall i | 0 <= i < |rs| :: rs'[i].child == rs[i].child
    requires before[at].address == a && forall k | at < k < |before| :: before[k].address != a
    requires Finished(view', rs'[at].child)
    ensures TreeFinished(view', before, rs', expected + [a])
  {
    forall i: nat | i < |rs'| && (i >= |before| || Represents(before, expected + [a], i))
      ensures Finished(view', rs'[i].child)
    {
      if i < |before| {
        RepresentsMeansLast(before, expected + [a], i);
        RepresentsMeansLast(before, expected, i);
      }
      if i != at { assert Finished(view, rs[i].child); }
    }
  }

  lemma FinishedMissing(
    before: seq<DeviceResult>, rs: seq<DeviceResult>, rs': seq<DeviceResult>, expected: seq<Address>,
    a: Address, view: Table, view': Table)
    requires Evolves(view, view') && TreeFinished(view, before, rs, expected)
    requires |rs'| == |rs| + 1 && forall i | 0 <= i < |rs| :: rs'[i].child == rs[i].child
    requires !HasAddress(before, a) && Finished(view', rs'[|rs|].child)
    ensures TreeFinished(view', before, rs', expected + [a])
  {
    forall i: nat | i < |rs'| && (i >= |before| || Represents(before, expected + [a], i))
      ensures Finished(view', rs'[i].child)
    {
      if i < |rs| { assert i < |before| ==> Represents(before, expected, i); assert Finished(view, rs[i].child); }
    }
  }

  /** After one reconciliation a second one, even with the opposite flag, finds nothing
      to do: no job is created or ended, no result or total changes. */
  lemma SecondReconciliationIsQuiet(
    db: Table, later: Table, before: seq<DeviceResult>, once: seq<DeviceResult>, twice: seq<DeviceResult>,
    expected: seq<Address>, first: bool, second: bool)
    requires IsReconciled(before, once, expected, first) && TreeFinished(db, before, once, expected)
    requires Evolves(db, later)
    ensures Settled(later, once, expected)
    ensures IsReconciled(once, twice, expected, second) ==> twice == once
  {
    AddressesAfter(before, once, expected, first);
    MissingFacts(once, expected);
    if Missing(once, expected) != [] { assert Missing(once, expected)[0] in Missing(once, expected); }
    forall i: nat | i < |once| && Represents(once, expected, i) ensures Finished(later, once[i].child) {
      if i < |before| { LaterAddressKept(before, once, expected, first, i); }
      assert Finished(db, once[i].child);
    }
    if IsReconciled(once, twice, expected, second) { Idempotence(before, once, twice, expected, first, second); }
  }
}
