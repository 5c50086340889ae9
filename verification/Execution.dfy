// One worker's execution of one job (backend/app/discovery/execution.py): claim or check
// the ownership, collect, and record the one outcome. What the collection itself does is
// not part of this model; at every step it may fail, and the heartbeat may report the
// lease lost.

module Execution {
  import opened Common
  import opened Contracts
  import opened JobRows
  import opened JobProtocol
  import opened JobRuns
  import opened Sessions
  import opened JobRepository
  import opened JobTrees

  // What can go wrong at a step of the collection.
  datatype Fault = LeaseLost | Broken(code: FailureCode)

  // Why the work stopped: at its end, or because of an exception raised on the way.
  datatype Stop = Complete | CancelRequested | LeaseGone | Broke(code: FailureCode, inFallback: bool)

  // What execute returns; `executed` is false when the job was not this worker's to end.
  datatype Finished = Finished(row: Row, executed: bool)

  /** What is recorded for an executed job: the row is finished, holds no lease, and has
      succeeded or failed only if nobody had asked it to stop. */
  predicate Recorded(db: Table, id: JobId, row: Row) {
    && id in db && db[id] == row
    && row.state.IsTerminal() && row.completedAt.Some? && row.Unleased()
    && (row.state.Succeeded? || row.state.Failed? ==> row.cancelRequestedAt.None?)
    && (row.state.Cancelled? ==> row.failure == Some(CANCELLED))
  }

  /** The job is running for this owner, and neither it nor its parent was asked to stop. */
  predicate Going(view: Table, tenant: string, id: JobId, owner: Owner, parent: Option<JobId>) {
    && id in view && view[id].tenant == tenant && view[id].state.Running? && view[id].owner == Some(owner)
    && Unasked(view, tenant, id, parent)
  }

  predicate Unasked(view: Table, tenant: string, id: JobId, parent: Option<JobId>) {
    && !AskedToStop(view, tenant, id)
    && (parent.Some? ==> !AskedToStop(view, tenant, parent.value))
  }

  /** The same of committed rows as of pending ones, and nobody else is at work. */
  ghost predicate Fit(s: Session, tenant: string, id: JobId, owner: Owner, parent: Option<JobId>)
    reads s
  {
    s.Alone() && Going(s.View(), tenant, id, owner, parent) && Going(s.world.db, tenant, id, owner, parent)
  }

  /** The first thing that goes wrong from step `i` on; there are six steps. */
  function FaultFrom(faults: nat -> Option<Fault>, i: nat): Option<Fault>
    decreases 6 - i
  {
    if i >= 6 then None else if faults(i).Some? then faults(i) else FaultFrom(faults, i + 1)
  }

  /** What a fault makes of the work. */
  predicate StopsFor(stop: Stop, fault: Fault) {
    match fault
    case LeaseLost => stop.LeaseGone?
    case Broken(code) => stop.Broke? && stop.code == code
  }

  /** _raise_if_cancelled: the lease, the job's own request, then its parent's, which is
      passed on to the job. */
  method RaiseIfCancelled(s: Session, tenant: string, id: JobId, parent: Option<JobId>, lost: bool)
    returns (stop: Option<Stop>)
    requires s.Valid()
    modifies s
    ensures s.Valid() && old(s.trace) <= s.trace && s.published == old(s.published)
    ensures stop.None? ==> Evolves(old(s.View()), s.View()) && !lost
    ensures stop.Some? ==> !stop.value.Complete?
    ensures stop.None? && id in old(s.View()) && old(s.View())[id].tenant == tenant ==>
      old(s.View())[id].cancelRequestedAt.None? && !old(s.View())[id].state.Cancelled?
    ensures stop.None? && parent.Some? && parent.value in old(s.View()) && old(s.View())[parent.value].tenant == tenant ==>
      old(s.View())[parent.value].cancelRequestedAt.None? && !old(s.View())[parent.value].state.Cancelled?
    ensures stop.None? ==> s.Writes() == old(s.Writes())
    ensures lost ==> stop == Some(LeaseGone) && s.world == old(s.world) && s.schedule == old(s.schedule)
    ensures !lost && AskedToStop(old(s.View()), tenant, id) ==> stop == Some(CancelRequested)
    ensures old(s.Alone()) && !lost && AskedToStop(old(s.View()), tenant, id) ==> s.Alone() && s.View() == old(s.View())
    ensures old(s.Alone()) && !lost && Unasked(old(s.View()), tenant, id, parent) ==>
      stop.None? && s.Alone() && s.View() == old(s.View()) && s.world.db == old(s.world.db)
  {
    if lost {
      return Some(LeaseGone);
    }
    var requested := ReadCancellation(s, tenant, id);
    if requested {
      return Some(CancelRequested);
    }
    if parent.None? {
      return None;
    }
    ghost var between := s.View();
    if parent.value in old(s.View()) { assert Reaches(old(s.View())[parent.value], between[parent.value]); }
    stop := RaiseIfParentCancelled(s, tenant, id, parent.value);
    if stop.None? { EvolvesTransitive(old(s.View()), between, s.View()); }
  }

  /** The parent's request is checked second and is passed on to the child. */
  method RaiseIfParentCancelled(s: Session, tenant: string, id: JobId, parent: JobId) returns (stop: Option<Stop>)
    requires s.Valid()
    modifies s
    ensures s.Valid() && old(s.trace) <= s.trace && s.published == old(s.published)
    ensures stop.None? ==> Evolves(old(s.View()), s.View())
    ensures stop.Some? ==> !stop.value.Complete?
    ensures stop.None? && parent in old(s.View()) && old(s.View())[parent].tenant == tenant ==>
      old(s.View())[parent].cancelRequestedAt.None? && !old(s.View())[parent].state.Cancelled?
    ensures stop.None? ==> s.Writes() == old(s.Writes())
    ensures old(s.Alone()) && !AskedToStop(old(s.View()), tenant, parent) ==>
      stop.None? && s.Alone() && s.View() == old(s.View()) && s.world.db == old(s.world.db)
  {
    var requested := ReadCancellation(s, tenant, parent);
    if !requested {
      return None;
    }
    var asked := s.Get(tenant, parent);
    if asked.Some? && asked.value.cancelRequestedAt.Some? {
      var passed := WriteRequest(s, tenant, id);
      if passed.Err? {
        return Some(Broke(DISCOVERY_FAILED, false));
      }
    }
    stop := Some(CancelRequested);
  }

  /** One step of the work followed by a check. */
  method Checkpoint(
    s: Session, tenant: string, id: JobId, parent: Option<JobId>, fault: Option<Fault>, inFallback: bool,
    ghost owner: Owner) returns (stop: Option<Stop>)
    requires s.Valid()
    modifies s
    ensures s.Valid() && old(s.trace) <= s.trace && s.published == old(s.published)
    ensures stop.Some? ==> !stop.value.Complete?
    ensures stop.None? ==> fault.None? && Evolves(old(s.View()), s.View()) && s.Writes() == old(s.Writes())
    ensures fault.Some? ==> stop.Some? && StopsFor(stop.value, fault.value)
    ensures fault.None? && AskedToStop(old(s.View()), tenant, id) ==> stop == Some(CancelRequested)
    ensures old(s.Alone()) && fault.None? && AskedToStop(old(s.View()), tenant, id) ==> s.Alone() && s.View() == old(s.View())
    ensures old(Fit(s, tenant, id, owner, parent)) ==> Fit(s, tenant, id, owner, parent) && (fault.None? ==> stop.None?)
  {
    if fault.Some? && fault.value.Broken? {
      return Some(Broke(fault.value.code, inFallback));
    }
    stop := RaiseIfCancelled(s, tenant, id, parent, fault.Some?);
  }

  /** record_selection: reads the job, then writes two columns without a state guard. */
  method WriteSelection(
    s: Session, tenant: string, id: JobId, selection: Option<string>, ghost owner: Owner, ghost parent: Option<JobId>)
    returns (ok: bool)
    requires s.Valid()
    modifies s
    ensures s.Valid() && old(s.trace) <= s.trace && s.published == old(s.published)
    ensures ok ==> id in s.View() && s.View()[id].selection == selection && Evolves(old(s.View()), s.View())
    ensures ok ==> s.Writes() == old(s.Writes())[id := s.View()[id]]
    ensures old(Fit(s, tenant, id, owner, parent)) ==> ok && Fit(s, tenant, id, owner, parent)
  {
    var job := ReadRow(s, tenant, id);
    if job.None? || !job.value.state.Running? { return false; }
    ghost var read := s.View();
    var outcome := s.Update(id, RecordSelection(selection));
    ok := outcome.Hit?;
    if ok { EvolvesTransitive(old(s.View()), read, s.View()); }
  }

  /** What the steps before `n` make of the work: the first fault stops it. */
  predicate StoppedBefore(stop: Stop, faults: nat -> Option<Fault>, from: nat, n: nat)
    decreases n - from
  {
    if from >= n then stop.Complete?
    else if faults(from).Some? then StopsFor(stop, faults(from).value)
    else StoppedBefore(stop, faults, from + 1, n)
  }

  /** The one transaction committed more holds the job with its selection. */
  ghost predicate EvidenceCommitted(before: seq<Table>, after: seq<Table>, id: JobId, selection: Option<string>) {
    CommittedOnce(before, after) && Evidence(after[|before|], id, selection)
  }

  predicate Evidence(rows: Table, id: JobId, selection: Option<string>) {
    id in rows && rows[id].selection == selection
  }

  /** Nothing goes wrong before the evidence is committed. */
  predicate Collected(faults: nat -> Option<Fault>) {
    faults(0).None? && faults(1).None? && faults(2).None?
  }

  /** The try block up to the point where the evidence is committed; the evidence survives
      whatever comes after. `faults` says what goes wrong at which step. */
  method Collect(
    s: Session, tenant: string, id: JobId, parent: Option<JobId>, faults: nat -> Option<Fault>,
    selection: Option<string>, fallback: bool, ghost owner: Owner) returns (stop: Stop)
    requires s.Valid()
    modifies s
    ensures s.Valid() && old(s.trace) <= s.trace
    ensures faults(0).None? && AskedToStop(old(s.View()), tenant, id) ==> stop == CancelRequested
    ensures old(s.Alone()) && faults(0).None? && AskedToStop(old(s.View()), tenant, id) ==>
      s.Alone() && s.View() == old(s.View())
    ensures stop.Complete? ==> Collected(faults)
    ensures stop.Complete? ==> s.Writes() == map[] && EvidenceCommitted(old(s.published), s.published, id, selection)
    ensures !stop.Complete? ==> s.published == old(s.published)
    ensures old(Fit(s, tenant, id, owner, parent)) ==>
      Fit(s, tenant, id, owner, parent) && StoppedBefore(stop, faults, 0, 3)
  {
    var stopped := Checkpoint(s, tenant, id, parent, faults(0), false, owner);
    if stopped.Some? { return stopped.value; }
    stopped := Checkpoint(s, tenant, id, parent, faults(1), fallback, owner);
    if stopped.Some? { return stopped.value; }
    var selected := WriteSelection(s, tenant, id, selection, owner, parent);
    if !selected { return Broke(DISCOVERY_FAILED, fallback); }
    stopped := Checkpoint(s, tenant, id, parent, faults(2), fallback, owner);
    if stopped.Some? { return stopped.value; }
    s.Commit();
    stop := Complete;
  }

  /** The rest of the try block: parsing, snapshot and device result. */
  method Process(
    s: Session, tenant: string, id: JobId, parent: Option<JobId>, faults: nat -> Option<Fault>, fallback: bool,
    ghost owner: Owner) returns (stop: Stop)
    requires s.Valid()
    modifies s
    ensures s.Valid() && old(s.trace) <= s.trace && s.published == old(s.published)
    ensures stop.Complete? ==> faults(3).None? && faults(4).None? && faults(5).None?
    ensures stop.Complete? ==> s.Writes() == old(s.Writes())
    ensures old(Fit(s, tenant, id, owner, parent)) ==>
      Fit(s, tenant, id, owner, parent) && StoppedBefore(stop, faults, 3, 6)
  {
    var stopped := Checkpoint(s, tenant, id, parent, faults(3), fallback, owner);
    if stopped.Some? { return stopped.value; }
    stopped := Checkpoint(s, tenant, id, parent, faults(4), fallback, owner);
    if stopped.Some? { return stopped.value; }
    stopped := Checkpoint(s, tenant, id, parent, faults(5), fallback, owner);
    stop := if stopped.Some? then stopped.value else Complete;
  }

  /** The whole try block before the outcome is recorded. */
  method Perform(
    s: Session, tenant: string, id: JobId, parent: Option<JobId>, faults: nat -> Option<Fault>,
    selection: Option<string>, fallback: bool, ghost owner: Owner) returns (stop: Stop)
    requires s.Valid()
    modifies s
    ensures s.Valid() && old(s.trace) <= s.trace
    ensures faults(0).None? && AskedToStop(old(s.View()), tenant, id) ==> stop == CancelRequested
    ensures old(s.Alone()) && faults(0).None? && AskedToStop(old(s.View()), tenant, id) ==>
      s.Alone() && s.View() == old(s.View())
    ensures stop.Complete? ==> (forall i | 0 <= i <= 5 :: faults(i).None?) && s.Writes() == map[]
    ensures s.published == old(s.published) || EvidenceCommitted(old(s.published), s.published, id, selection)
    ensures stop.Complete? ==> EvidenceCommitted(old(s.published), s.published, id, selection)
    ensures !Collected(faults) ==> s.published == old(s.published)
    ensures old(Fit(s, tenant, id, owner, parent)) && Collected(faults) ==>
      EvidenceCommitted(old(s.published), s.published, id, selection)
    ensures old(Fit(s, tenant, id, owner, parent)) ==>
      && Fit(s, tenant, id, owner, parent)
      && match FaultFrom(faults, 0) case None => stop.Complete? case Some(fault) => StopsFor(stop, fault)
  {
    stop := Collect(s, tenant, id, parent, faults, selection, fallback, owner);
    if StoppedBefore(stop, faults, 0, 3) { FirstFaultStops(stop, faults, 0, 3); }
    if stop.Complete? {
      stop := Process(s, tenant, id, parent, faults, fallback, owner);
      if StoppedBefore(stop, faults, 3, 6) { FirstFaultStops(stop, faults, 3, 6); }
    }
  }

  lemma {:induction false} FirstFaultStops(stop: Stop, faults: nat -> Option<Fault>, from: nat, n: nat)
    requires from <= n <= 6 && StoppedBefore(stop, faults, from, n)
    ensures if stop.Complete? then FaultFrom(faults, from) == FaultFrom(faults, n)
            else FaultFrom(faults, from).Some? && StopsFor(stop, FaultFrom(faults, from).value)
    decreases n - from
  {
    if from < n && faults(from).None? { FirstFaultStops(stop, faults, from + 1, n); }
  }

  // A transition that was refused, with the rows the session saw before and the state it met.
  datatype Refusal = Refusal(target: Status, owner: Option<Owner>, error: JobError, before: Table, world: Config)

  predicate Refuses(x: Refusal, a: Actor, tenant: string, id: JobId) {
    Refused(x.error, x.before, x.world, a, tenant, id, x.target, true, x.owner)
  }

  /** What a failed job is given as its failure code. */
  function CodeFor(why: Stop, fallback: bool, fallbackCode: FailureCode): FailureCode {
    match why
    case Broke(code, _) => code
    case Complete => if fallback then fallbackCode else DISCOVERY_FAILED
    case _ => DISCOVERY_FAILED
  }

  predicate ThroughFallback(why: Stop, fallback: bool) {
    if why.Broke? then why.inFallback else why.Complete? && fallback
  }

  /** How an executed job ends: completed work succeeds unless that transition was refused, and
      a failed job carries the code of what went wrong, unless the fallback could not record it. */
  predicate EndsAs(row: Row, why: Stop, fallback: bool, fallbackCode: FailureCode, refusals: seq<Refusal>) {
    && (why.Complete? ==>
          || row.state.Succeeded?
          || (refusals != [] && refusals[0].target.Succeeded?))
    && (why.CancelRequested? ==> row.state.Cancelled?)
    && (row.state.Succeeded? ==> why.Complete? && row.failure.None?)
    && (row.state.Failed? ==>
          || row.failure == Some(CodeFor(why, fallback, fallbackCode))
          || (&& ThroughFallback(why, fallback) && row.failure == Some(DISCOVERY_FAILED)
              && refusals != [] && refusals[|refusals| - 1].target.Failed?))
  }

  /** Records the outcome. The fallback path names no owner; the job's state and its
      cancellation column decide alone. */
  method RecordOutcome(
    s: Session, tenant: string, id: JobId, owner: Owner, why: Stop, fallback: bool, fallbackCode: FailureCode,
    ghost parent: Option<JobId>) returns (r: Result<Finished, JobError>, ghost refusals: seq<Refusal>)
    requires s.Valid() && (why.Complete? ==> s.Writes() == map[])
    modifies s
    ensures s.Valid() && old(s.trace) <= s.trace
    ensures r.Ok? && r.value.executed ==> s.Writes() == map[] && Recorded(s.world.db, id, r.value.row)
    ensures r.Ok? && r.value.executed ==> CommittedOnce(old(s.published), s.published)
    ensures r.Ok? && r.value.executed ==> EndsAs(r.value.row, why, fallback, fallbackCode, refusals)
    ensures forall x | x in refusals :: Refuses(x, s.me, tenant, id) && During(old(s.trace), s.trace, x.world)
    ensures r.Ok? && !r.value.executed ==> why.LeaseGone? && s.RolledBack() && s.published == old(s.published)
    ensures r.Err? ==> s.RolledBack() && s.published == old(s.published)
    ensures old(Fit(s, tenant, id, owner, parent)) && !why.CancelRequested? ==>
      r.Ok? && s.Alone() && OutcomeAlone(r.value, why)
    ensures old(s.Alone() && Cancellable(s.View(), tenant, id, Some(owner))) && why.CancelRequested? ==>
      r.Ok? && s.Alone() && OutcomeAlone(r.value, why)
  {
    refusals := [];
    if why.LeaseGone? {
      s.Rollback();
      var current := s.Get(tenant, id);
      r := if current.None? then Err(NotFound) else Ok(Finished(current.value, false));
      return;
    }
    if why.CancelRequested? {
      r := RecordCancelled(s, tenant, id, owner);
      return;
    }
    if why.Complete? {
      r, refusals := RecordSuccess(s, tenant, id, owner, fallback, fallbackCode, parent);
    } else {
      r, refusals := RecordBroken(s, tenant, id, owner, why, parent);
    }
  }

  /** The end of the try block; when the transition is refused, the work has failed after all. */
  method RecordSuccess(
    s: Session, tenant: string, id: JobId, owner: Owner, fallback: bool, fallbackCode: FailureCode,
    ghost parent: Option<JobId>) returns (r: Result<Finished, JobError>, ghost refusals: seq<Refusal>)
    requires s.Valid() && s.Writes() == map[]
    modifies s
    ensures s.Valid() && old(s.trace) <= s.trace
    ensures r.Ok? ==> r.value.executed && s.Writes() == map[] && Recorded(s.world.db, id, r.value.row)
    ensures r.Ok? ==> CommittedOnce(old(s.published), s.published)
    ensures r.Ok? ==> EndsAs(r.value.row, Complete, fallback, fallbackCode, refusals)
    ensures forall x | x in refusals :: Refuses(x, s.me, tenant, id) && During(old(s.trace), s.trace, x.world)
    ensures r.Err? ==> s.RolledBack() && s.published == old(s.published)
    ensures old(Fit(s, tenant, id, owner, parent)) ==> r.Ok? && s.Alone() && OutcomeAlone(r.value, Complete)
  {
    ghost var before := s.View();
    var expected := if fallback then None else Some(owner);
    var done := ApplyTransition(s, tenant, id, Succeeded, None, true, expected);
    if done.Ok? {
      SucceededHasNoFailure(s, id);
      s.Commit();
      r, refusals := Ok(Finished(done.value, true)), [];
      return;
    }
    ghost var first := Refusal(Succeeded, expected, done.error, before, s.world);
    ghost var middle := s.trace;
    var broken := Broke(CodeFor(Complete, fallback, fallbackCode), fallback);
    r, refusals := RecordBroken(s, tenant, id, owner, broken, parent);
    refusals := [first] + refusals;
    forall x | x in refusals ensures During(old(s.trace), s.trace, x.world) {
      if x != first { assert During(middle, s.trace, x.world); }
    }
  }

  /** What is recorded when nobody else is at work and nobody asked to stop. */
  predicate OutcomeAlone(f: Finished, why: Stop) {
    match why
    case Complete => f.executed && f.row.state.Succeeded?
    case Broke(code, _) => f.executed && f.row.state.Failed? && f.row.failure == Some(code)
    case LeaseGone => !f.executed
    case CancelRequested => f.executed && f.row.state.Cancelled?
  }

  lemma SucceededHasNoFailure(s: Session, id: JobId)
    requires s.Valid() && id in s.View() && s.View()[id].state.Succeeded?
    ensures s.View()[id].failure.None?
  {
    ViewIsOk(s.trace, s.me);
    assert RowInv(s.View()[id]);
  }

  /** The fallback's own failure path, then the handler of whatever that raises. */
  method RecordBroken(s: Session, tenant: string, id: JobId, owner: Owner, broken: Stop, ghost parent: Option<JobId>)
    returns (r: Result<Finished, JobError>, ghost refusals: seq<Refusal>)
    requires s.Valid() && broken.Broke?
    modifies s
    ensures s.Valid() && old(s.trace) <= s.trace
    ensures r.Ok? ==> r.value.executed && s.Writes() == map[] && Recorded(s.world.db, id, r.value.row)
    ensures r.Ok? ==> !r.value.row.state.Succeeded? && CommittedOnce(old(s.published), s.published)
    ensures r.Ok? && r.value.row.state.Failed? ==>
      || r.value.row.failure == Some(broken.code)
      || (&& broken.inFallback && r.value.row.failure == Some(DISCOVERY_FAILED)
          && refusals != [] && refusals[|refusals| - 1].target.Failed?)
    ensures forall x | x in refusals :: Refuses(x, s.me, tenant, id) && During(old(s.trace), s.trace, x.world)
    ensures r.Err? ==> s.RolledBack() && s.published == old(s.published)
    ensures old(Fit(s, tenant, id, owner, parent)) ==> r.Ok? && s.Alone() && OutcomeAlone(r.value, broken)
  {
    refusals := [];
    if !broken.inFallback {
      r := RecordFailed(s, tenant, id, owner, broken.code, parent);
      return;
    }
    ghost var before := s.world.db;
    var failed := MarkFailedAfterRollback(s, tenant, id, broken.code, None);
    if failed.Ok? {
      r := Ok(Finished(failed.value, true));
      return;
    }
    refusals := [Refusal(Failed, None, failed.error, before, s.world)];
    assert During(old(s.trace), s.trace, s.world);
    r := RecordFailed(s, tenant, id, owner, DISCOVERY_FAILED, parent);
  }

  method RecordCancelled(s: Session, tenant: string, id: JobId, owner: Owner) returns (r: Result<Finished, JobError>)
    requires s.Valid()
    modifies s
    ensures s.Valid() && old(s.trace) <= s.trace
    ensures r.Ok? ==> r.value.executed && s.Writes() == map[] && Recorded(s.world.db, id, r.value.row)
    ensures r.Ok? ==> r.value.row.state.Cancelled? && CommittedOnce(old(s.published), s.published)
    ensures r.Err? ==> s.RolledBack() && s.published == old(s.published)
    ensures old(s.Alone()) ==> s.Alone() && (old(Cancellable(s.View(), tenant, id, Some(owner))) ==> r.Ok?)
  {
    var cancelled := FinaliseCancellation(s, tenant, id, Some(owner));
    if cancelled.Err? { return Err(cancelled.error); }
    s.RowsBackedByTable(id);
    ViewIsOk(s.trace, s.me);
    assert RowInv(s.View()[id]);
    r := Ok(Finished(cancelled.value, true));
  }

  /** The handler of every other exception: a request made meanwhile goes first. */
  method RecordFailed(
    s: Session, tenant: string, id: JobId, owner: Owner, code: FailureCode, ghost parent: Option<JobId>)
    returns (r: Result<Finished, JobError>)
    requires s.Valid()
    modifies s
    ensures s.Valid() && old(s.trace) <= s.trace
    ensures r.Ok? ==> r.value.executed && s.Writes() == map[] && Recorded(s.world.db, id, r.value.row)
    ensures r.Ok? ==> !r.value.row.state.Succeeded? && CommittedOnce(old(s.published), s.published)
    ensures r.Ok? && r.value.row.state.Failed? ==> r.value.row.failure == Some(code)
    ensures r.Err? ==> s.RolledBack() && s.published == old(s.published)
    ensures old(Fit(s, tenant, id, owner, parent)) ==> r.Ok? && s.Alone() && r.value.row.state.Failed?
  {
    var requested := ReadCancellation(s, tenant, id);
    if requested {
      r := RecordCancelled(s, tenant, id, owner);
      return;
    }
    var failed := MarkFailedAfterRollback(s, tenant, id, code, Some(owner));
    if failed.Err? { return Err(failed.error); }
    s.RowsBackedByTable(id);
    ViewIsOk(s.trace, s.me);
    assert RowInv(s.View()[id]);
    r := Ok(Finished(failed.value, true));
  }

  /** The job can be started by this owner. */
  predicate Startable(view: Table, tenant: string, id: JobId, owner: Owner, lease: int, alreadyClaimed: bool) {
    && id in view && view[id].tenant == tenant
    && if alreadyClaimed then view[id].state.Running? && view[id].owner == Some(owner)
       else view[id].state.Queued? && id != PROTECTED && lease > 0
  }

  /** With nobody else at work and nobody asking it to stop. */
  ghost predicate Undisturbed(
    s: Session, tenant: string, id: JobId, parent: Option<JobId>, owner: Owner, lease: int, alreadyClaimed: bool)
    reads s
  {
    s.Alone() && Startable(s.View(), tenant, id, owner, lease, alreadyClaimed) && Unasked(s.View(), tenant, id, parent)
  }

  lemma RunningAskedIsCancellable(s: Session, tenant: string, id: JobId, owner: Owner)
    ensures var view := s.View();
      AskedToStop(view, tenant, id) && view[id].state.Running? && view[id].owner == Some(owner) ==>
        Cancellable(view, tenant, id, Some(owner))
  {
  }

  ghost predicate SomeEvidence(before: seq<Table>, after: seq<Table>, id: JobId, selection: Option<string>) {
    exists k :: |before| <= k < |after| && Evidence(after[k], id, selection)
  }

  /** The first fault says how the job ends; without one it succeeds. */
  predicate FaultsDecide(f: Finished, faults: nat -> Option<Fault>) {
    match FaultFrom(faults, 0)
    case None => f.executed && f.row.state.Succeeded?
    case Some(LeaseLost) => !f.executed
    case Some(Broken(code)) => f.executed && f.row.state.Failed? && f.row.failure == Some(code)
  }

  /** The work on a job that is running for its owner, and its outcome. */
  method Work(
    s: Session, tenant: string, id: JobId, parent: Option<JobId>, owner: Owner, faults: nat -> Option<Fault>,
    selection: Option<string>, fallback: bool, fallbackCode: FailureCode)
    returns (r: Result<Finished, JobError>, ghost why: Stop, ghost refusals: seq<Refusal>)
    requires s.Valid()
    modifies s
    ensures s.Valid() && old(s.trace) <= s.trace && old(s.published) <= s.published
    ensures r.Ok? && r.value.executed ==> s.Writes() == map[] && Recorded(s.world.db, id, r.value.row)
    ensures r.Ok? && r.value.executed ==> EndsAs(r.value.row, why, fallback, fallbackCode, refusals)
    ensures forall x | x in refusals :: Refuses(x, s.me, tenant, id) && During(old(s.trace), s.trace, x.world)
    ensures why.Complete? ==>
      (forall i | 0 <= i <= 5 :: faults(i).None?) && SomeEvidence(old(s.published), s.published, id, selection)
    ensures !(r.Ok? && r.value.executed) ==> s.RolledBack()
    ensures |s.published| <= |old(s.published)| + if Collected(faults) then 2 else 1
    ensures old(Fit(s, tenant, id, owner, parent)) ==>
      && r.Ok? && FaultsDecide(r.value, faults)
      && (Collected(faults) ==> SomeEvidence(old(s.published), s.published, id, selection))
    ensures old(s.Alone() && AskedToStop(s.View(), tenant, id) && Cancellable(s.View(), tenant, id, Some(owner))) ==>
      faults(0).None? ==> r.Ok? && r.value.executed && r.value.row.state.Cancelled?
  {
    var stop := Perform(s, tenant, id, parent, faults, selection, fallback, owner);
    ghost var middle, before := s.trace, s.published;
    why := stop;
    r, refusals := RecordOutcome(s, tenant, id, owner, stop, fallback, fallbackCode, parent);
    forall x | x in refusals ensures During(old(s.trace), s.trace, x.world) {
      assert During(middle, s.trace, x.world);
    }
    if EvidenceCommitted(old(s.published), before, id, selection) {
      assert Evidence(s.published[|old(s.published)|], id, selection);
    }
  }

  /** owned_running_job, or a claim. */
  method Acquire(s: Session, tenant: string, id: JobId, owner: Owner, lease: int, alreadyClaimed: bool)
    returns (acquired: Result<Row, JobError>)
    requires s.Valid() && s.RolledBack()
    requires id in s.world.db && s.world.db[id].parent.Some? ==>
      s.world.db[id].parent.value in s.world.drivers
      && s.world.drivers[s.world.db[id].parent.value] == Driver(owner, lease)
    modifies s
    ensures s.Valid() && old(s.trace) <= s.trace
    ensures acquired.Ok? ==> acquired.value.state.Running? && acquired.value.owner == Some(owner)
    ensures acquired.Ok? ==>
      if alreadyClaimed then s.published == old(s.published) else CommittedOnce(old(s.published), s.published)
    ensures acquired.Err? ==> s.RolledBack() && s.published == old(s.published)
    ensures old(s.Alone() && Startable(s.View(), tenant, id, owner, lease, alreadyClaimed)) ==>
      && acquired.Ok? && s.Alone() && s.View() == s.world.db
      && forall parent :: Unasked(old(s.View()), tenant, id, parent) ==> Going(s.View(), tenant, id, owner, parent)
    ensures old(s.Alone() && Startable(s.View(), tenant, id, owner, lease, alreadyClaimed)) && alreadyClaimed ==>
      s.View() == old(s.View())
  {
    if !alreadyClaimed {
      acquired := ClaimJob(s, tenant, id, owner, lease);
      return;
    }
    var job := s.Get(tenant, id);
    if job.Some? && job.value.state.Running? && job.value.owner == Some(owner) {
      return Ok(job.value);
    }
    s.Rollback();
    acquired := Err(InvalidTransition);
  }

  /** execute. Whoever else runs, and wherever the work stops: an execution that reports a
      result has committed exactly one outcome for the job, and one that reports none has
      committed none. With nobody else at work the faults alone decide which. */
  method Execute(
    s: Session, tenant: string, id: JobId, parent: Option<JobId>, owner: Owner, lease: int, alreadyClaimed: bool,
    faults: nat -> Option<Fault>, selection: Option<string>, fallback: bool, fallbackCode: FailureCode)
    returns (r: Result<Finished, JobError>, ghost why: Stop, ghost refusals: seq<Refusal>)
    requires s.Valid() && s.RolledBack()
    requires id in s.world.db && s.world.db[id].parent.Some? ==>
      s.world.db[id].parent.value in s.world.drivers
      && s.world.drivers[s.world.db[id].parent.value] == Driver(owner, lease)
    modifies s
    ensures s.Valid() && old(s.trace) <= s.trace
    ensures r.Ok? && r.value.executed ==> s.Writes() == map[] && Recorded(s.world.db, id, r.value.row)
    ensures r.Ok? && r.value.executed ==> EndsAs(r.value.row, why, fallback, fallbackCode, refusals)
    ensures forall x | x in refusals :: Refuses(x, s.me, tenant, id) && During(old(s.trace), s.trace, x.world)
    ensures why.Complete? ==> forall i | 0 <= i <= 5 :: faults(i).None?
    ensures !(r.Ok? && r.value.executed) ==> s.RolledBack()
    // A claim, the evidence, and the outcome; nothing else is committed.
    ensures |s.published| <= |old(s.published)| + (if alreadyClaimed then 0 else 1) + (if Collected(faults) then 2 else 1)
    ensures why.Complete? ==> SomeEvidence(old(s.published), s.published, id, selection)
    // Once collected, the evidence stays, whatever goes wrong later.
    ensures old(Undisturbed(s, tenant, id, parent, owner, lease, alreadyClaimed)) && Collected(faults) ==>
      SomeEvidence(old(s.published), s.published, id, selection)
    ensures old(Undisturbed(s, tenant, id, parent, owner, lease, alreadyClaimed)) ==>
      r.Ok? && FaultsDecide(r.value, faults)
    ensures old(s.Alone() && Startable(s.View(), tenant, id, owner, lease, alreadyClaimed)
                && AskedToStop(s.View(), tenant, id)) && alreadyClaimed && faults(0).None? ==>
      r.Ok? && r.value.executed && r.value.row.state.Cancelled?
  {
    why, refusals := LeaseGone, [];
    var acquired := Acquire(s, tenant, id, owner, lease, alreadyClaimed);
    if acquired == Err(InvalidTransition) {
      var existing := s.Get(tenant, id);
      r := if existing.None? then Err(NotFound) else Ok(Finished(existing.value, false));
      return;
    }
    if acquired.Err? {
      r := Err(acquired.error);
      return;
    }
    if alreadyClaimed && AskedToStop(s.View(), tenant, id) { RunningAskedIsCancellable(s, tenant, id, owner); }
    ghost var middle := s.trace;
    r, why, refusals := Work(s, tenant, id, parent, owner, faults, selection, fallback, fallbackCode);
    forall x | x in refusals ensures During(old(s.trace), s.trace, x.world) {
      assert During(middle, s.trace, x.world);
    }
  }
}
