// Heartbeats against lease expiry (backend/app/discovery/worker.py), over timed runs.

module LeaseSafety {
  import opened Common
  import opened Contracts
  import opened JobRows
  import opened JobProtocol
  import opened JobRuns

  /** The check a worker makes when it is built. */
  function ConfigureWorker(heartbeat: int, lease: int): (r: Result<(int, int), string>)
    ensures r.Ok? <==> 2 * heartbeat < lease
  {
    if heartbeat * 2 >= lease then Err("Discovery heartbeat interval must be less than half the lease.")
    else Ok((heartbeat, lease))
  }

  predicate IsRunning(db: Table, id: JobId) {
    id in db && db[id].state.Running?
  }

  /** The step that claims `id`, or renews a lease that covers it. */
  predicate Beats(c: Config, s: Step, id: JobId) {
    || (ClaimSucceeds(c, s) && s.id == id)
    || (s.Renew? && Enabled(c, s) && id in Renewed(c, s.id, s.owner, s.lease))
  }

  /** Along the run, whenever `id` runs, its last claim or renewal is at most `gap` old. */
  ghost predicate Punctual(c: Config, steps: seq<Step>, id: JobId, last: Instant, gap: int)
    decreases |steps|
  {
    && (IsRunning(c.db, id) ==> c.now <= last + gap)
    && (steps != [] ==>
          Punctual(Exec(c, steps[0]), steps[1..], id, if Beats(c, steps[0], id) then c.now else last, gap))
  }

  /** Every worker that claims `id` was configured with a lease longer than `gap`. */
  predicate LongLeases(c: Config, steps: seq<Step>, id: JobId, gap: int) {
    && (id in c.drivers ==> gap < c.drivers[id].lease)
    && (forall i | 0 <= i < |steps| && steps[i].Claim? && steps[i].id == id :: gap < steps[i].lease)
  }

  /** The check of recover_expired_owned_job, on the row it read. */
  predicate RecoveryAccepts(id: JobId, r: Row, staleBefore: Instant) {
    && id != PROTECTED && r.state.Running?
    && r.owner.Some? && r.leaseExpiresAt.Some? && r.heartbeatAt.Some?
    && r.leaseExpiresAt.value < staleBefore
  }

  /** The lease is live: no recovery that reads the row now goes on, and force-resolve misses. */
  ghost predicate Protected(c: Config, id: JobId) {
    IsRunning(c.db, id) ==>
      && c.db[id].leaseExpiresAt.Some? && c.now < c.db[id].leaseExpiresAt.value
      && !ResolveStale.Matches(c.db[id], c.now)
      && (forall staleBefore | staleBefore <= c.now :: !RecoveryAccepts(id, c.db[id], staleBefore))
  }

  ghost predicate BeatIs(c: Config, id: JobId, last: Instant) {
    IsRunning(c.db, id) ==> c.db[id].heartbeatAt == Some(last)
  }

  /** The heartbeat column is the time of the last claim or renewal. */
  lemma BeatStep(c: Config, s: Step, id: JobId, last: Instant)
    requires Inv(c) && BeatIs(c, id, last)
    ensures BeatIs(Exec(c, s), id, if Beats(c, s, id) then c.now else last)
  {
    if s.Commit? {
      TxIsOk(c, s.actor);
      CommitBeat(c, s.actor, id, last);
    } else {
      OtherBeat(c, s, id, last);
    }
  }

  lemma CommitBeat(c: Config, a: Actor, id: JobId, last: Instant)
    requires KeepsLeases(c.db, TxOf(c, a).writes) && BeatIs(c, id, last)
    ensures BeatIs(Exec(c, Commit(a)), id, last)
  {
  }

  lemma OtherBeat(c: Config, s: Step, id: JobId, last: Instant)
    requires !s.Commit? && BeatIs(c, id, last)
    ensures BeatIs(Exec(c, s), id, if Beats(c, s, id) then c.now else last)
  {
    if !ClaimSucceeds(c, s) && !s.Renew? { OtherwiseUnmoved(c, s); }
  }

  lemma LeasesStayLong(c: Config, s: Step, rest: seq<Step>, id: JobId, gap: int)
    requires LongLeases(c, [s] + rest, id, gap)
    ensures LongLeases(Exec(c, s), rest, id, gap)
  {
    assert ([s] + rest)[0] == s;
    forall i | 0 <= i < |rest| && rest[i].Claim? && rest[i].id == id ensures gap < rest[i].lease {
      assert ([s] + rest)[i + 1] == rest[i];
    }
  }

  lemma ProtectedNow(c: Config, id: JobId, last: Instant, gap: int)
    requires Inv(c) && BeatIs(c, id, last)
    requires IsRunning(c.db, id) ==> c.now <= last + gap
    requires id in c.drivers ==> gap < c.drivers[id].lease
    ensures Protected(c, id)
  {
    if IsRunning(c.db, id) { assert LeaseOk(c.db, c.now, c.drivers, id); }
  }

  /** If consecutive renewals are never further apart than a gap shorter than the
      lease, then at every moment the job runs its lease has not expired. */
  lemma {:induction false} LeaseNeverLapses(c: Config, steps: seq<Step>, id: JobId, last: Instant, gap: int)
    requires Inv(c) && BeatIs(c, id, last)
    requires LongLeases(c, steps, id, gap) && Punctual(c, steps, id, last, gap)
    ensures forall n | 0 <= n <= |steps| :: Protected(After(c, steps[..n]), id)
    decreases |steps|
  {
    ProtectedNow(c, id, last, gap);
    if steps != [] {
      var c' := Exec(c, steps[0]);
      StepKeeps(c, steps[0]);
      BeatStep(c, steps[0], id, last);
      assert steps == [steps[0]] + steps[1..];
      LeasesStayLong(c, steps[0], steps[1..], id, gap);
      LeaseNeverLapses(c', steps[1..], id, if Beats(c, steps[0], id) then c.now else last, gap);
      forall n | 0 <= n <= |steps| ensures Protected(After(c, steps[..n]), id) {
        if n == 0 {
          assert steps[..0] == [];
        } else {
          assert steps[..n][0] == steps[0] && steps[..n][1..] == steps[1..][..n - 1];
          assert After(c, steps[..n]) == After(c', steps[1..][..n - 1]);
        }
      }
    }
  }

  /** The worker's own bound: a worker that was allowed to start and renews at
      least every second heartbeat never loses its job to expiry. */
  lemma ConfiguredWorkerIsSafe(steps: seq<Step>, id: JobId, heartbeat: int, lease: int)
    requires ConfigureWorker(heartbeat, lease).Ok?
    requires forall i | 0 <= i < |steps| && steps[i].Claim? && steps[i].id == id :: steps[i].lease == lease
    requires Punctual(START, steps, id, 0, 2 * heartbeat)
    ensures forall n | 0 <= n <= |steps| :: Protected(After(START, steps[..n]), id)
  {
    StartIsOk();
    LeaseNeverLapses(START, steps, id, 0, 2 * heartbeat);
  }

  /** From when on the two checks of a lease pass: force-resolve, which checks in its UPDATE,
      from one lease after the last beat; recovery, which checks the row it has read, after
      that. What recovery then writes is the subject of RecoveryRaces. */
  lemma LapseBoundary(c: Config, id: JobId)
    requires Inv(c) && IsRunning(c.db, id) && id != PROTECTED
    ensures id in c.drivers && c.db[id].heartbeatAt.Some?
    ensures var age := c.now - c.db[id].heartbeatAt.value;
      && (ResolveStale.Matches(c.db[id], c.now) <==>
            c.db[id].cancelRequestedAt.Some? && c.drivers[id].lease <= age)
      && (RecoveryAccepts(id, c.db[id], c.now) <==> c.drivers[id].lease < age)
  {
    assert LeaseOk(c.db, c.now, c.drivers, id);
    assert RowOk(c.db, c.db[id]);
  }

  /** While the root's lease is live, no running child of it can be force-resolved. */
  lemma ChildrenAreProtected(c: Config, child: JobId)
    requires Inv(c) && IsRunning(c.db, child) && c.db[child].parent.Some?
    requires IsRunning(c.db, c.db[child].parent.value) && Protected(c, c.db[child].parent.value)
    ensures Protected(c, child)
  {
    assert LeaseOk(c.db, c.now, c.drivers, child);
    assert LeaseOk(c.db, c.now, c.drivers, c.db[child].parent.value);
    assert RowOk(c.db, c.db[child]);
  }
}
