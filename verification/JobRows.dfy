// One row of the discovery-job table, and the guarded UPDATE statements that
// backend/app/persistence/discovery_repositories.py and fanout.py issue on it.

module JobRows {
  import opened Common
  import opened Contracts

  type JobId = nat
  type Owner = nat
  type Address = string
  // Microseconds of the one database/worker clock.
  type Instant = int

  // A scope target carries its own identifier; the target of a fanned-out
  // address is found or created under the identifier "<scope>:<address>".
  datatype TargetKey = ScopeTarget(id: nat) | DeviceTarget(scope: nat, address: Address)

  datatype Row = Row(
    tenant: string,
    target: TargetKey,
    parent: Option<JobId>,
    state: Status,
    attempts: nat,
    owner: Option<Owner>,
    leaseExpiresAt: Option<Instant>,
    heartbeatAt: Option<Instant>,
    completedAt: Option<Instant>,
    failure: Option<FailureCode>,
    cancelRequestedAt: Option<Instant>,
    selection: Option<string>)
  {
    // The columns that describe the outcome of a job.
    ghost predicate SameLifecycle(other: Row) {
      this.(selection := None) == other.(selection := None)
    }

    predicate Unleased() {
      owner.None? && leaseExpiresAt.None? && heartbeatAt.None?
    }

    predicate Leased() {
      owner.Some? && leaseExpiresAt.Some? && heartbeatAt.Some?
    }
  }

  function NewRow(tenant: string, target: TargetKey, parent: Option<JobId>): Row {
    Row(tenant, target, parent, Queued, 0, None, None, None, None, None, None, None)
  }

  /** What every stored row satisfies. */
  predicate RowInv(r: Row) {
    && (r.state.Running? ==> r.Leased() && r.attempts == 1)
    && (!r.state.Running? ==> r.Unleased())
    && (r.state.Queued? ==> r.attempts == 0)
    && r.attempts <= 1
    && (r.state.IsTerminal() <==> r.completedAt.Some?)
    && (r.failure.Some? ==> r.state.IsTerminal())
    && (r.state.Succeeded? ==> r.cancelRequestedAt.None? && r.failure.None?)
    && (r.state.Cancelled? ==> r.failure == Some(CANCELLED))
  }

  /** How a row may differ between an earlier and a later moment of any run. */
  ghost predicate Reaches(a: Row, b: Row) {
    && a.tenant == b.tenant && a.target == b.target && a.parent == b.parent
    && (a.state.IsTerminal() ==> a.SameLifecycle(b))
    && (b.state.Queued? ==> a.state.Queued?)
    && (a.state.Running? ==> b.attempts == a.attempts)
    && a.attempts <= b.attempts
    && (a.cancelRequestedAt.Some? ==> b.cancelRequestedAt.Some?)
    && (a.owner.Some? ==> b.owner == a.owner || (b.owner.None? && b.state.IsTerminal()))
  }

  lemma ReachesTransitive(a: Row, b: Row, c: Row)
    requires Reaches(a, b) && Reaches(b, c)
    ensures Reaches(a, c)
  {
  }

  // ---------------------------------------------------------------- UPDATEs

  // Single-row statements. `read` is the state the session saw in its earlier
  // SELECT; the statement itself only looks at the row it finds.
  datatype Update =
    | Transition(read: Status, target: Status, code: Option<FailureCode>,
                 requireNoCancellation: bool, expectedOwner: Option<Owner>)
    | RequestCancellation(read: Status)
    | ResolveStale
    | CancelRunningChild
    | Terminate(target: Status, outcome: FailureCode)
    | RecordSelection(selection: Option<string>)
  {
    /** The WHERE clause. */
    predicate Matches(r: Row, now: Instant) {
      match this
      case Transition(read, _, _, requireNoCancellation, expectedOwner) =>
        && r.state == read
        && (requireNoCancellation ==> r.cancelRequestedAt.None?)
        && (expectedOwner.Some? ==> r.owner == expectedOwner)
      case RequestCancellation(read) => r.state == read
      case ResolveStale =>
        && r.state.Running?
        && r.cancelRequestedAt.Some?
        && (r.owner.None? || r.leaseExpiresAt.None? || r.leaseExpiresAt.value <= now)
      case CancelRunningChild => r.state.Running?
      // No WHERE clause on the state: taken as one step with the read before it.
      case Terminate(_, _) => !r.state.IsTerminal()
      case RecordSelection(_) => true
    }

    /** The SET clause. */
    function Set(r: Row, now: Instant): Row {
      match this
      case Transition(_, target, code, _, _) =>
        var failure := if code.Some? then code else r.failure;
        if target.IsTerminal() then Finish(r, target, failure, now)
        else r.(state := target, failure := failure)
      case RequestCancellation(read) =>
        var requested := r.(cancelRequestedAt := Some(now));
        if read.Queued? then Finish(requested, Cancelled, Some(CANCELLED), now) else requested
      case ResolveStale => Finish(r, Cancelled, Some(CANCELLED), now)
      case CancelRunningChild => Finish(r, Cancelled, Some(CANCELLED), now)
      case Terminate(target, code) => Finish(r, target, Some(code), now)
      case RecordSelection(selection) => r.(selection := selection)
    }

    /** Whether an UPDATE that finds no row makes the caller roll back and raise. */
    predicate MissRaises() {
      Transition? || RequestCancellation? || ResolveStale?
    }

    /** What the Python call sites guarantee about the values they pass. */
    predicate WellFormed() {
      match this
      case Transition(read, target, code, requireNoCancellation, _) =>
        && Allowed(read, target) && target.IsTerminal()
        && (target.Succeeded? ==> requireNoCancellation && code.None?)
        && (target.Cancelled? ==> code == Some(CANCELLED))
      case RequestCancellation(read) => !read.IsTerminal()
      case Terminate(target, code) =>
        || (target.Failed? && code.DISCOVERY_FAILED?)
        || (target.Cancelled? && code.CANCELLED?)
      case _ => true
    }

    predicate Cancels(r: Row) {
      match this
      case Transition(_, target, _, _, _) => target.Cancelled?
      case Terminate(target, _) => target.Cancelled?
      case ResolveStale => true
      case CancelRunningChild => true
      case RequestCancellation(read) => read.Queued?
      case RecordSelection(_) => false
    }
  }

  function Finish(r: Row, target: Status, failure: Option<FailureCode>, now: Instant): Row {
    r.(state := target, failure := failure, completedAt := Some(now),
       owner := None, leaseExpiresAt := None, heartbeatAt := None)
  }

  predicate ClaimMatches(r: Row) {
    r.state.Queued? && r.owner.None? && r.leaseExpiresAt.None? && r.heartbeatAt.None?
  }

  function ClaimSet(r: Row, owner: Owner, lease: int, now: Instant): Row {
    r.(state := Running, attempts := r.attempts + 1, owner := Some(owner),
       leaseExpiresAt := Some(now + lease), heartbeatAt := Some(now))
  }

  /** The joint renewal reaches the root and every running child of the same owner. */
  predicate RenewMatches(id: JobId, r: Row, root: JobId, owner: Owner) {
    r.owner == Some(owner) && r.state.Running? && (id == root || r.parent == Some(root))
  }

  function RenewSet(r: Row, lease: int, now: Instant): Row {
    r.(leaseExpiresAt := Some(now + lease), heartbeatAt := Some(now))
  }

  // -------------------------------------------------------- row-level safety

  /** Every statement a call site can issue keeps the row invariant, and a
      finished row keeps its outcome. */
  lemma UpdateKeepsRow(u: Update, r: Row, now: Instant)
    requires RowInv(r) && u.WellFormed() && u.Matches(r, now)
    ensures RowInv(u.Set(r, now)) && Reaches(r, u.Set(r, now))
    ensures r.state.IsTerminal() ==> u.RecordSelection?
  {
  }

  /** A request is dated when it is written, and the end of a job when it ends; nothing else
      touches these columns, the attempts or the selection. */
  lemma UpdateStamps(u: Update, r: Row, now: Instant)
    requires RowInv(r) && u.WellFormed() && u.Matches(r, now)
    ensures u.Set(r, now).cancelRequestedAt == if u.RequestCancellation? then Some(now) else r.cancelRequestedAt
    ensures u.Set(r, now).completedAt == if u.Set(r, now).state != r.state then Some(now) else r.completedAt
    ensures u.Set(r, now).attempts == r.attempts
    ensures u.Set(r, now).selection == if u.RecordSelection? then u.selection else r.selection
    ensures u.Set(r, now).state != r.state ==> u.Set(r, now).Unleased() && u.Set(r, now).state.IsTerminal()
  {
  }

  lemma ClaimKeepsRow(r: Row, owner: Owner, lease: int, now: Instant)
    requires RowInv(r) && ClaimMatches(r)
    ensures RowInv(ClaimSet(r, owner, lease, now)) && Reaches(r, ClaimSet(r, owner, lease, now))
  {
  }

  lemma RenewKeepsRow(id: JobId, r: Row, root: JobId, owner: Owner, lease: int, now: Instant)
    requires RowInv(r) && RenewMatches(id, r, root, owner)
    ensures RowInv(RenewSet(r, lease, now)) && Reaches(r, RenewSet(r, lease, now))
  {
  }

  /** An UPDATE without a state guard on a row that has finished replaces its outcome. */
  lemma UnguardedWriteOverwrites(now: Instant)
    ensures var done := NewRow("t", ScopeTarget(1), None).(state := Succeeded, attempts := 1, completedAt := Some(now));
      RowInv(done) && !Reaches(done, Terminate(Failed, DISCOVERY_FAILED).Set(done, now + 1))
  {
  }
}
