// Single-job operations of DiscoveryJobRepository
// (backend/app/persistence/discovery_repositories.py), one transaction each. Other
// sessions run wherever Interleave is called. Every caller rolls back when an
// operation raises, so an error here means the session has rolled back.

module JobRepository {
  import opened Common
  import opened Contracts
  import opened JobRows
  import opened JobProtocol
  import opened JobRuns
  import opened Sessions

  /** One transaction more has been committed. */
  ghost predicate CommittedOnce(before: seq<Table>, after: seq<Table>) {
    before <= after && |after| == |before| + 1
  }

  predicate QueuedFor(db: Table, tenant: string, id: JobId) {
    id in db && db[id].tenant == tenant && db[id].state.Queued?
  }

  /** Why a claim fails: no such job, not claimable, or its row is locked by somebody else. */
  predicate ClaimRefused(error: JobError, c: Config, a: Actor, tenant: string, id: JobId, lease: int) {
    match error
    case NotFound => !(id in c.db && c.db[id].tenant == tenant)
    case InvalidTransition => id == PROTECTED || lease <= 0 || (id in c.db && !c.db[id].state.Queued?)
    case DatabaseError => LockedByOther(c, a, id)
    case _ => false
  }

  predicate ClaimedAlone(db: Table, db': Table, id: JobId, owner: Owner, lease: int, now: Instant) {
    id in db && db' == db[id := ClaimSet(db[id], owner, lease, now)]
  }

  /** Claims a queued job. A lost race leaves every row as it is. */
  method ClaimJob(s: Session, tenant: string, id: JobId, owner: Owner, lease: int) returns (r: Result<Row, JobError>)
    requires s.Valid() && s.Writes() == map[]
    requires id in s.world.db && s.world.db[id].parent.Some? ==>
      s.world.db[id].parent.value in s.world.drivers
      && s.world.drivers[s.world.db[id].parent.value] == Driver(owner, lease)
    modifies s
    ensures s.Valid() && old(s.trace) <= s.trace
    ensures r.Ok? ==>
      && id in s.world.db && s.world.db[id] == r.value && r.value.tenant == tenant
      && r.value.state.Running? && r.value.attempts == 1
      && r.value.owner == Some(owner) && r.value.heartbeatAt == Some(s.world.now)
      && r.value.leaseExpiresAt == Some(s.world.now + lease)
      && id in s.world.drivers && s.world.drivers[id] == Driver(owner, lease)
      && s.published == old(s.published) + [map[id := r.value]] && s.Writes() == map[]
      && s.results == old(s.results) && s.summary == old(s.summary)
    ensures s.savedResults == old(s.savedResults) && s.savedSummary == old(s.savedSummary)
    ensures r.Err? ==> s.RolledBack() && s.published == old(s.published)
    ensures r.Err? ==> ClaimRefused(r.error, s.world, s.me, tenant, id, lease)
    ensures old(s.Alone()) ==>
      && s.Alone()
      && (old(QueuedFor(s.world.db, tenant, id)) && id != PROTECTED && lease > 0 ==> r.Ok?)
      && (r.Ok? ==> ClaimedAlone(old(s.world.db), s.world.db, id, owner, lease, s.world.now))
      && (r.Err? ==> s.world.db == old(s.world.db))
  {
    if id == PROTECTED || lease <= 0 {
      s.Rollback();
      return Err(InvalidTransition);
    }
    s.RowsBackedByTable(id);
    var job := s.Get(tenant, id);
    if job.None? {
      s.Rollback();
      return Err(NotFound);
    }
    r := ClaimKnown(s, id, owner, lease);
  }

  /** The compare-and-set of a claim, for a row that has been read. */
  method ClaimKnown(s: Session, id: JobId, owner: Owner, lease: int) returns (r: Result<Row, JobError>)
    requires s.Valid() && s.Writes() == map[] && id in s.world.db && id != PROTECTED && lease > 0
    requires s.world.db[id].parent.Some? ==>
      s.world.db[id].parent.value in s.world.drivers
      && s.world.drivers[s.world.db[id].parent.value] == Driver(owner, lease)
    modifies s
    ensures s.Valid() && old(s.trace) <= s.trace
    ensures r.Ok? ==>
      && id in s.world.db && s.world.db[id] == r.value && r.value.tenant == old(s.world.db[id].tenant)
      && r.value.state.Running? && r.value.attempts == 1
      && r.value.owner == Some(owner) && r.value.heartbeatAt == Some(s.world.now)
      && r.value.leaseExpiresAt == Some(s.world.now + lease)
      && id in s.world.drivers && s.world.drivers[id] == Driver(owner, lease)
      && s.published == old(s.published) + [map[id := r.value]] && s.Writes() == map[]
      && s.results == old(s.results) && s.summary == old(s.summary)
    ensures s.savedResults == old(s.savedResults) && s.savedSummary == old(s.savedSummary)
    ensures r.Err? ==> s.RolledBack() && s.published == old(s.published)
    ensures r.Err? ==> r.error in {InvalidTransition, DatabaseError}
    ensures r == Err(InvalidTransition) ==> id in s.world.db && !s.world.db[id].state.Queued?
    ensures r == Err(DatabaseError) ==> LockedByOther(s.world, s.me, id)
    ensures old(s.Alone()) ==>
      && s.Alone() && (old(s.world.db[id].state.Queued?) ==> r.Ok?)
      && (r.Ok? ==> ClaimedAlone(old(s.world.db), s.world.db, id, owner, lease, s.world.now))
      && (r.Err? ==> s.world.db == old(s.world.db))
  {
    s.RowsBackedByTable(id);
    s.Interleave();
    s.RowsBackedByTable(id);
    assert Reaches(old(s.world.db[id]), s.world.db[id]);
    var outcome := s.ClaimRow(id, owner, lease);
    match outcome
    case Hit => r := Ok(s.world.db[id]);
    case Miss =>
      QueuedIsClaimable(s, id);
      r := Err(InvalidTransition);
    case Blocked => r := Err(DatabaseError);
  }

  lemma QueuedIsClaimable(s: Session, id: JobId)
    requires s.Valid() && s.Writes() == map[] && id in s.world.db && !ClaimMatches(s.world.db[id])
    ensures !s.world.db[id].state.Queued?
  {
    ViewIsOk(s.trace, s.me);
    assert RowInv(s.View()[id]);
  }

  /** Renews the root and all running children together, or reports the lease lost. */
  method RenewLease(s: Session, root: JobId, owner: Owner, lease: int) returns (renewed: bool)
    requires s.Valid() && s.Writes() == map[] && root in s.world.db && s.world.db[root].parent.None?
    requires root in s.world.drivers && s.world.drivers[root] == Driver(owner, lease)
    modifies s
    ensures s.Valid() && old(s.trace) <= s.trace
    ensures renewed ==> exists id :: id in s.world.db && RenewMatches(id, s.world.db[id], root, owner)
    ensures renewed ==> forall id | id in s.world.db && RenewMatches(id, s.world.db[id], root, owner) ::
      s.world.db[id].heartbeatAt == Some(s.world.now) && s.world.db[id].leaseExpiresAt == Some(s.world.now + lease)
    ensures !renewed ==> s.RolledBack() && s.published == old(s.published)
    // A lease is reported lost only if nothing is left to renew or a row is locked.
    ensures !renewed ==>
      || (forall id | id in s.world.db :: !RenewMatches(id, s.world.db[id], root, owner))
      || (exists id :: id in s.world.db && RenewMatches(id, s.world.db[id], root, owner) && LockedByOther(s.world, s.me, id))
    ensures s.savedResults == old(s.savedResults) && s.savedSummary == old(s.savedSummary)
    ensures old(s.Alone()) ==> s.Alone() && (renewed <==> old(SomeToRenew(s.world.db, root, owner)))
  {
    s.RowsBackedByTable(root);
    s.Interleave();
    s.RowsBackedByTable(root);
    ghost var before := s.world;
    var outcome := s.RenewRows(root, owner, lease);
    renewed := outcome.Hit?;
    if renewed { SomeRenewed(before, root, owner, lease); }
    if outcome.Miss? { NoneRenewed(before, root, owner, lease); }
  }

  predicate SomeToRenew(db: Table, root: JobId, owner: Owner) {
    exists id | id in db :: RenewMatches(id, db[id], root, owner)
  }

  lemma SomeRenewed(c: Config, root: JobId, owner: Owner, lease: int)
    requires Renewed(c, root, owner, lease) != map[]
    ensures SomeToRenew(c.db, root, owner)
    ensures var db := c.db + Renewed(c, root, owner, lease);
      && (exists id :: id in db && RenewMatches(id, db[id], root, owner))
      && (forall id | id in db && RenewMatches(id, db[id], root, owner) ::
            db[id].heartbeatAt == Some(c.now) && db[id].leaseExpiresAt == Some(c.now + lease))
  {
    var rows := Renewed(c, root, owner, lease);
    assert rows.Keys != {};
    var id :| id in rows.Keys;
    assert RenewMatches(id, (c.db + rows)[id], root, owner);
  }

  lemma NoneRenewed(c: Config, root: JobId, owner: Owner, lease: int)
    requires Renewed(c, root, owner, lease) == map[]
    ensures forall id | id in c.db :: !RenewMatches(id, c.db[id], root, owner)
  {
    forall id | id in c.db ensures !RenewMatches(id, c.db[id], root, owner) {
      assert id !in Renewed(c, root, owner, lease);
    }
  }

  /** The row after a transition to a terminal state. */
  predicate Moved(
    r: Row, now: Instant, tenant: string, target: Status, code: Option<FailureCode>, requireNoCancellation: bool)
  {
    && r.tenant == tenant && r.state == target && r.completedAt == Some(now) && r.Unleased()
    && (code.Some? ==> r.failure == code)
    && (requireNoCancellation ==> r.cancelRequestedAt.None?)
  }

  /** What must be the case for a transition to be refused: no such job, a transition the
      table does not allow, a failed condition, a row that changed state since the call
      began, or a row locked by somebody else. */
  predicate Refused(
    error: JobError, before: Table, c: Config, a: Actor, tenant: string, id: JobId, target: Status,
    requireNoCancellation: bool, expectedOwner: Option<Owner>)
  {
    match error
    case NotFound => !(id in c.db && c.db[id].tenant == tenant)
    case DatabaseError => LockedByOther(c, a, id)
    case _ =>
      && id in c.db
      && (|| !Allowed(c.db[id].state, target)
          || (requireNoCancellation && c.db[id].cancelRequestedAt.Some?)
          || (expectedOwner.Some? && c.db[id].owner != expectedOwner)
          || id !in before || c.db[id].state != before[id].state)
  }

  /** The row allows the transition. */
  predicate Grants(
    view: Table, tenant: string, id: JobId, target: Status, requireNoCancellation: bool, expectedOwner: Option<Owner>)
  {
    && id in view && view[id].tenant == tenant && Allowed(view[id].state, target)
    && (requireNoCancellation ==> view[id].cancelRequestedAt.None?)
    && (expectedOwner.Some? ==> view[id].owner == expectedOwner)
  }

  lemma RefusedEarlier(
    error: JobError, before: Table, later: Table, c: Config, a: Actor, tenant: string, id: JobId, target: Status,
    requireNoCancellation: bool, expectedOwner: Option<Owner>)
    requires Refused(error, later, c, a, tenant, id, target, requireNoCancellation, expectedOwner)
    requires Evolves(before, later) && Evolves(later, c.db)
    ensures Refused(error, before, c, a, tenant, id, target, requireNoCancellation, expectedOwner)
  {
    if id in before {
      assert Reaches(before[id], later[id]) && Reaches(later[id], c.db[id]);
    }
  }

  /** A job that had not finished and, while it was running, was run by the expected owner. */
  predicate WasOpen(view: Table, id: JobId, expectedOwner: Option<Owner>) {
    id in view ==>
      && !view[id].state.IsTerminal()
      && (expectedOwner.Some? && view[id].state.Running? ==> view[id].owner == expectedOwner)
  }

  /** Applies one validated terminal transition with a compare-and-set. */
  method ApplyTransition(
    s: Session, tenant: string, id: JobId, target: Status, code: Option<FailureCode>,
    requireNoCancellation: bool, expectedOwner: Option<Owner>) returns (r: Result<Row, JobError>)
    requires s.Valid() && target.IsTerminal() && (target.Succeeded? ==> requireNoCancellation && code.None?)
    requires target.Cancelled? ==> code == Some(CANCELLED) && CancellationKnown(s, id)
    modifies s`world, s`schedule, s`trace, s`results, s`summary
    ensures s.Valid() && old(s.trace) <= s.trace
    ensures r.Ok? ==>
      && id in s.View() && s.View()[id] == r.value
      && Moved(r.value, s.world.now, tenant, target, code, requireNoCancellation)
      && s.Writes() == old(s.Writes())[id := r.value]
      && Evolves(old(s.View()), s.View()) && Evolves(old(s.Seen()), s.Seen())
      && s.results == old(s.results) && s.summary == old(s.summary)
      && WasOpen(old(s.View()), id, expectedOwner)
    ensures r.Err? ==> s.RolledBack() && r.error in {NotFound, InvalidTransition, DatabaseError}
    // Why it fails, for a row this session has not written itself.
    ensures r.Err? && old(s.Writes()) == map[] ==>
      Refused(r.error, old(s.View()), s.world, s.me, tenant, id, target, requireNoCancellation, expectedOwner)
    // With nobody else at work it fails only for a reason of the row.
    ensures old(s.Alone()) ==>
      && s.Alone() && s.world.db == old(s.world.db)
      && (old(Grants(s.View(), tenant, id, target, requireNoCancellation, expectedOwner)) ==> r.Ok?)
      && (r.Ok? ==> s.View() == old(s.View())[id := r.value])
  {
    ghost var before, seen := s.View(), s.Seen();
    assert ViewOk(s.world, s.me) by { ViewIsOk(s.trace, s.me); }
    var checked := ReadAllowed(s, tenant, id, target);
    if checked.Err? { return Err(checked.error); }
    CancellationStillKnown(s, id, seen, before);
    r := SetAfterRead(s, tenant, id, checked.value, target, code, requireNoCancellation, expectedOwner, before);
  }

  /** The compare-and-set, and what it says about the view before the read. */
  method SetAfterRead(
    s: Session, tenant: string, id: JobId, job: Row, target: Status, code: Option<FailureCode>,
    requireNoCancellation: bool, expectedOwner: Option<Owner>, ghost before: Table) returns (r: Result<Row, JobError>)
    requires s.Valid() && id in s.View() && s.View()[id] == job && job.tenant == tenant
    requires id in s.Seen() && s.Seen()[id] == job
    requires target.IsTerminal() && (target.Succeeded? ==> requireNoCancellation && code.None?) && Allowed(job.state, target)
    requires target.Cancelled? ==> code == Some(CANCELLED) && CancellationKnown(s, id)
    requires Evolves(before, s.View()) && (id in before ==> RowInv(before[id]))
    modifies s`world, s`schedule, s`trace, s`results, s`summary
    ensures s.Valid() && old(s.trace) <= s.trace
    ensures r.Ok? ==>
      && id in s.View() && s.View()[id] == r.value
      && Moved(r.value, s.world.now, tenant, target, code, requireNoCancellation)
      && s.Writes() == old(s.Writes())[id := r.value] && s.Seen() == old(s.Seen())
      && Evolves(before, s.View()) && WasOpen(before, id, expectedOwner)
      && s.results == old(s.results) && s.summary == old(s.summary)
    ensures r.Err? ==> s.RolledBack() && r.error in {InvalidTransition, DatabaseError}
    ensures r.Err? && old(s.Writes()) == map[] ==>
      Refused(r.error, before, s.world, s.me, tenant, id, target, requireNoCancellation, expectedOwner)
    ensures old(s.Alone()) ==>
      && s.Alone() && s.world.db == old(s.world.db)
      && (r.Err? ==> (requireNoCancellation && job.cancelRequestedAt.Some?) || (expectedOwner.Some? && job.owner != expectedOwner))
      && (r.Ok? ==> s.View() == old(s.View())[id := r.value])
  {
    ghost var read := s.View();
    r := CompareAndSet(s, tenant, id, job, target, code, requireNoCancellation, expectedOwner);
    if r.Ok? {
      Applied(before, read, s.View(), id, expectedOwner);
    } else if old(s.Writes()) == map[] {
      RefusedAfterRead(r.error, before, read, s.world, s.me, tenant, id, target, requireNoCancellation, expectedOwner);
    }
  }

  /** From the view before the read to the one after the write. */
  lemma Applied(before: Table, read: Table, after: Table, id: JobId, expectedOwner: Option<Owner>)
    requires Evolves(before, read) && Evolves(read, after)
    requires id in read && !read[id].state.IsTerminal() && (id in before ==> RowInv(before[id]))
    requires expectedOwner.Some? ==> read[id].owner == expectedOwner
    ensures Evolves(before, after) && WasOpen(before, id, expectedOwner)
  {
    EvolvesTransitive(before, read, after);
    if id in before { RunningOwnerStays(before[id], read[id]); }
  }

  lemma RunningOwnerStays(before: Row, read: Row)
    requires RowInv(before) && Reaches(before, read) && !read.state.IsTerminal()
    ensures !before.state.IsTerminal() && (before.state.Running? ==> before.owner == read.owner)
  {
  }

  lemma RefusedAfterRead(
    error: JobError, before: Table, read: Table, c: Config, a: Actor, tenant: string, id: JobId, target: Status,
    requireNoCancellation: bool, expectedOwner: Option<Owner>)
    requires Evolves(before, read) && id in read && error in {InvalidTransition, DatabaseError}
    requires error.DatabaseError? ==> LockedByOther(c, a, id)
    requires error.InvalidTransition? ==>
      && id in c.db && Reaches(read[id], c.db[id])
      && (|| c.db[id].state != read[id].state
          || (requireNoCancellation && c.db[id].cancelRequestedAt.Some?)
          || (expectedOwner.Some? && c.db[id].owner != expectedOwner))
    ensures Refused(error, before, c, a, tenant, id, target, requireNoCancellation, expectedOwner)
  {
    if id in before { assert Reaches(before[id], read[id]); }
  }

  /** The SELECT of a transition and the check of the transition table. */
  method ReadAllowed(s: Session, tenant: string, id: JobId, target: Status) returns (r: Result<Row, JobError>)
    requires s.Valid()
    modifies s`world, s`schedule, s`trace, s`results, s`summary
    ensures s.Valid() && old(s.trace) <= s.trace
    ensures r.Ok? ==>
      && id in s.View() && s.View()[id] == r.value && r.value.tenant == tenant && Allowed(r.value.state, target)
      && id in s.Seen() && s.Seen()[id] == r.value && s.Writes() == old(s.Writes())
      && Evolves(old(s.View()), s.View()) && Evolves(old(s.Seen()), s.Seen())
      && s.results == old(s.results) && s.summary == old(s.summary)
    ensures r.Err? ==> s.RolledBack() && r.error in {NotFound, InvalidTransition}
    ensures r == Err(NotFound) && old(s.Writes()) == map[] ==>
      !(id in s.world.db && s.world.db[id].tenant == tenant)
    ensures r == Err(InvalidTransition) && old(s.Writes()) == map[] ==>
      id in s.world.db && !Allowed(s.world.db[id].state, target)
    ensures old(s.Alone()) ==>
      && s.Alone() && s.world.db == old(s.world.db)
      && (r.Ok? <==> id in old(s.View()) && old(s.View())[id].tenant == tenant && Allowed(old(s.View())[id].state, target))
      && (r.Ok? ==> s.View() == old(s.View()))
  {
    var job := ReadRow(s, tenant, id);
    if s.Writes() == map[] { s.RowsBackedByTable(id); }
    if job.None? {
      s.Rollback();
      return Err(NotFound);
    }
    if !Allowed(job.value.state, target) {
      s.Rollback();
      return Err(InvalidTransition);
    }
    r := Ok(job.value);
  }

  /** The UPDATE of a transition, with the state that was read in its WHERE clause. */
  method CompareAndSet(
    s: Session, tenant: string, id: JobId, job: Row, target: Status, code: Option<FailureCode>,
    requireNoCancellation: bool, expectedOwner: Option<Owner>) returns (r: Result<Row, JobError>)
    requires s.Valid() && id in s.View() && s.View()[id] == job && job.tenant == tenant
    requires id in s.Seen() && s.Seen()[id] == job
    requires target.IsTerminal() && (target.Succeeded? ==> requireNoCancellation && code.None?) && Allowed(job.state, target)
    requires target.Cancelled? ==> code == Some(CANCELLED) && CancellationKnown(s, id)
    modifies s`world, s`schedule, s`trace, s`results, s`summary
    ensures s.Valid() && old(s.trace) <= s.trace
    ensures r.Ok? ==>
      && id in s.View() && s.View()[id] == r.value
      && Moved(r.value, s.world.now, tenant, target, code, requireNoCancellation)
      && s.Writes() == old(s.Writes())[id := r.value] && s.Seen() == old(s.Seen())
      && Evolves(old(s.View()), s.View())
      && s.results == old(s.results) && s.summary == old(s.summary)
    ensures r.Err? ==> s.RolledBack() && r.error in {InvalidTransition, DatabaseError}
    ensures r == Err(DatabaseError) ==> LockedByOther(s.world, s.me, id)
    ensures r == Err(InvalidTransition) && old(s.Writes()) == map[] ==>
      && id in s.world.db && Reaches(job, s.world.db[id])
      && (|| s.world.db[id].state != job.state
          || (requireNoCancellation && s.world.db[id].cancelRequestedAt.Some?)
          || (expectedOwner.Some? && s.world.db[id].owner != expectedOwner))
    ensures old(s.Alone()) ==>
      && s.Alone() && s.world.db == old(s.world.db)
      && (r.Err? ==> (requireNoCancellation && job.cancelRequestedAt.Some?) || (expectedOwner.Some? && job.owner != expectedOwner))
      && (r.Ok? ==> s.View() == old(s.View())[id := r.value])
    ensures r.Ok? && expectedOwner.Some? ==> job.owner == expectedOwner
  {
    var u := Transition(job.state, target, code, requireNoCancellation, expectedOwner);
    assert RowInv(job) by { ViewIsOk(s.trace, s.me); }
    var outcome := UpdateLater(s, id, u);
    match outcome
    case Hit =>
      ghost var row :| Reaches(job, row) && RowInv(row) && u.Matches(row, s.world.now);
      OwnerStays(job, row);
      r := Ok(s.View()[id]);
    case Miss => r := Err(InvalidTransition);
    case Blocked => r := Err(DatabaseError);
  }

  lemma OwnerStays(before: Row, after: Row)
    requires RowInv(before) && RowInv(after) && Reaches(before, after) && before.state == after.state
    ensures before.owner == after.owner
  {
  }

  /** A SELECT, before which other sessions may have run. */
  method ReadRow(s: Session, tenant: string, id: JobId) returns (row: Option<Row>)
    requires s.Valid()
    modifies s`world, s`schedule, s`trace
    ensures s.Valid() && old(s.trace) <= s.trace && s.Writes() == old(s.Writes())
    ensures Evolves(old(s.View()), s.View()) && Evolves(old(s.Seen()), s.Seen())
    ensures DriversKept(old(s.world), s.world)
    ensures row == if id in s.View() && s.View()[id].tenant == tenant then Some(s.View()[id]) else None
    ensures row.Some? ==> id in s.Seen() && s.Seen()[id] == row.value && RowInv(row.value)
    ensures old(s.Alone()) ==>
      s.Alone() && s.View() == old(s.View()) && s.world.db == old(s.world.db) && s.world.now == old(s.world.now)
  {
    s.Interleave();
    row := s.Get(tenant, id);
  }

  predicate AskedToStop(view: Table, tenant: string, id: JobId) {
    id in view && view[id].tenant == tenant && (view[id].cancelRequestedAt.Some? || view[id].state.Cancelled?)
  }

  /** cancellation_requested: the request column, or else a cancelled state. */
  method ReadCancellation(s: Session, tenant: string, id: JobId) returns (requested: bool)
    requires s.Valid()
    modifies s`world, s`schedule, s`trace
    ensures s.Valid() && old(s.trace) <= s.trace && s.Writes() == old(s.Writes())
    ensures Evolves(old(s.View()), s.View()) && Evolves(old(s.Seen()), s.Seen())
    ensures requested ==> id in s.View() && KnownCancelled(s.Seen(), id) && s.Seen()[id] == s.View()[id]
    ensures !requested && id in old(s.View()) && old(s.View())[id].tenant == tenant ==>
      old(s.View())[id].cancelRequestedAt.None? && !old(s.View())[id].state.Cancelled?
    ensures old(s.Alone()) ==>
      && s.Alone() && s.View() == old(s.View()) && s.world.db == old(s.world.db)
      && (requested <==> AskedToStop(old(s.View()), tenant, id))
  {
    var job := ReadRow(s, tenant, id);
    if job.Some? && job.value.cancelRequestedAt.Some? {
      return true;
    }
    ghost var view, seen := s.View(), s.Seen();
    if id in old(s.View()) { assert Reaches(old(s.View())[id], view[id]); }
    job := ReadRow(s, tenant, id);
    if id in view { assert Reaches(view[id], s.View()[id]); }
    EvolvesTransitive(old(s.View()), view, s.View());
    EvolvesTransitive(old(s.Seen()), seen, s.Seen());
    requested := job.Some? && job.value.state.Cancelled?;
  }

  /** An UPDATE based on an earlier read, other sessions having run in between. */
  method UpdateLater(s: Session, id: JobId, u: Update) returns (outcome: Outcome)
    requires s.Valid() && id in s.View() && LicensedIn(s.View(), s.Seen(), id, u) && u.MissRaises()
    modifies s`world, s`schedule, s`trace, s`results, s`summary
    ensures s.Valid() && old(s.trace) <= s.trace
    ensures outcome.Hit? ==>
      && id in s.View() && (exists row ::
            && Reaches(old(s.View())[id], row) && RowInv(row) && u.Matches(row, s.world.now)
            && s.View()[id] == u.Set(row, s.world.now))
      && s.Writes() == old(s.Writes())[id := s.View()[id]] && s.Seen() == old(s.Seen())
      && Evolves(old(s.View()), s.View()) && RowInv(s.View()[id])
      && s.results == old(s.results) && s.summary == old(s.summary)
    ensures !outcome.Hit? ==> s.RolledBack()
    ensures outcome.Blocked? ==> LockedByOther(s.world, s.me, id)
    ensures outcome.Miss? && old(s.Writes()) == map[] ==>
      id in s.world.db && Reaches(old(s.View())[id], s.world.db[id]) && !u.Matches(s.world.db[id], s.world.now)
    ensures old(s.Alone()) ==>
      && s.Alone() && s.world.db == old(s.world.db) && s.world.now == old(s.world.now)
      && (outcome.Hit? <==> u.Matches(old(s.View())[id], s.world.now))
      && (outcome.Hit? ==> s.View() == old(s.View())[id := s.View()[id]])
  {
    s.Interleave();
    ghost var between := s.View();
    if s.Writes() == map[] { s.RowsBackedByTable(id); }
    assert LicensedIn(s.View(), s.Seen(), id, u) by { assert Reaches(old(s.View())[id], between[id]); }
    assert RowInv(between[id]) by { ViewIsOk(s.trace, s.me); }
    outcome := s.Update(id, u);
    if outcome.Hit? { EvolvesTransitive(old(s.View()), between, s.View()); }
  }

  /** The session has read a cancellation request on the job or on its parent. */
  ghost predicate CancellationKnown(s: Session, id: JobId)
    reads s
  {
    KnownFrom(s.Seen(), s.View(), id)
  }

  ghost predicate KnownFrom(seen: Table, view: Table, id: JobId) {
    && id in view
    && (|| (id in seen && seen[id].cancelRequestedAt.Some?)
        || (view[id].parent.Some? && KnownCancelled(seen, view[id].parent.value)))
  }

  lemma CancellationStillKnown(s: Session, id: JobId, seen: Table, view: Table)
    requires Evolves(seen, s.Seen()) && Evolves(view, s.View())
    ensures KnownFrom(seen, view, id) ==> CancellationKnown(s, id)
  {
  }

  /** The transition of a job whose request has been read, and its commit. */
  method CancelRequested(s: Session, tenant: string, id: JobId, expectedOwner: Option<Owner>)
    returns (r: Result<Row, JobError>)
    requires s.Valid() && CancellationKnown(s, id)
    modifies s
    ensures s.Valid() && old(s.trace) <= s.trace
    ensures r.Ok? ==>
      && id in s.world.db && s.world.db[id] == r.value && s.Writes() == map[]
      && CommittedOnce(old(s.published), s.published)
      && r.value.state.Cancelled? && r.value.failure == Some(CANCELLED) && r.value.Unleased()
    ensures r.Err? ==> s.RolledBack() && s.published == old(s.published)
    ensures r.Err? && old(s.Writes()) == map[] ==>
      Refused(r.error, old(s.View()), s.world, s.me, tenant, id, Cancelled, false, expectedOwner)
    ensures old(s.Alone()) ==>
      s.Alone() && (old(Grants(s.View(), tenant, id, Cancelled, false, expectedOwner)) ==> r.Ok?)
  {
    r := ApplyTransition(s, tenant, id, Cancelled, Some(CANCELLED), false, expectedOwner);
    if r.Ok? { s.Commit(); }
  }

  predicate Cancellable(view: Table, tenant: string, id: JobId, expectedOwner: Option<Owner>) {
    && id in view && view[id].tenant == tenant
    && (view[id].state.Cancelled?
        || (view[id].cancelRequestedAt.Some? && Grants(view, tenant, id, Cancelled, false, expectedOwner)))
  }

  /** Cancels a job whose cancellation was requested; an already cancelled job is returned as it is. */
  method FinaliseCancellation(s: Session, tenant: string, id: JobId, expectedOwner: Option<Owner>)
    returns (r: Result<Row, JobError>)
    requires s.Valid()
    modifies s
    ensures s.Valid() && old(s.trace) <= s.trace
    ensures r.Ok? ==>
      && id in s.world.db && s.world.db[id] == r.value && s.Writes() == map[]
      && CommittedOnce(old(s.published), s.published)
      && r.value.state.Cancelled? && r.value.failure == Some(CANCELLED) && r.value.Unleased()
    ensures r.Err? ==> s.RolledBack() && s.published == old(s.published)
    ensures r.Err? && old(s.Writes()) == map[] ==>
      || Refused(r.error, old(s.View()), s.world, s.me, tenant, id, Cancelled, false, expectedOwner)
      || (id in s.world.db && s.world.db[id].cancelRequestedAt.None?)
    ensures old(s.Alone()) ==>
      s.Alone() && (old(Cancellable(s.View(), tenant, id, expectedOwner)) ==> r.Ok?)
  {
    var job := ReadRow(s, tenant, id);
    if s.Writes() == map[] { s.RowsBackedByTable(id); }
    if job.None? {
      s.Rollback();
      return Err(NotFound);
    }
    if job.value.state.Cancelled? {
      s.Commit();
      return Ok(job.value);
    }
    if job.value.cancelRequestedAt.None? {
      s.Rollback();
      return Err(InvalidTransition);
    }
    ghost var trace, view := s.trace, s.View();
    r := CancelRequested(s, tenant, id, expectedOwner);
    if r.Err? && old(s.Writes()) == map[] {
      RunGrows(trace, s.trace);
      RefusedEarlier(r.error, old(s.View()), view, s.world, s.me, tenant, id, Cancelled, false, expectedOwner);
    }
  }

  /** Drops pending work and records the failure in a clean transaction, unless a
      cancellation was requested meanwhile. */
  method MarkFailedAfterRollback(
    s: Session, tenant: string, id: JobId, code: FailureCode, expectedOwner: Option<Owner>)
    returns (r: Result<Row, JobError>)
    requires s.Valid()
    modifies s
    ensures s.Valid() && old(s.trace) <= s.trace
    ensures r.Ok? ==>
      && id in s.world.db && s.world.db[id] == r.value && r.value.state.Failed?
      && r.value.failure == Some(code) && r.value.cancelRequestedAt.None? && r.value.Unleased()
      && r.value.completedAt.Some? && s.Writes() == map[]
      && s.published == old(s.published) + [map[id := r.value]]
    ensures r.Err? ==> s.RolledBack() && s.published == old(s.published)
    ensures r.Err? ==> Refused(r.error, old(s.world.db), s.world, s.me, tenant, id, Failed, true, expectedOwner)
    ensures old(s.Alone()) ==>
      s.Alone() && (old(Grants(s.world.db, tenant, id, Failed, true, expectedOwner)) ==> r.Ok?)
  {
    s.Rollback();
    s.RowsBackedByTable(id);
    r := ApplyTransition(s, tenant, id, Failed, Some(code), true, expectedOwner);
    if r.Ok? { s.Commit(); }
  }
}
