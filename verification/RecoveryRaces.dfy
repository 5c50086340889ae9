// Recovery reads a row, judges its lease, and writes later
// (backend/app/persistence/discovery_repositories.py, recover_expired_owned_job and
// transition). What its UPDATE checks, what the scan finds, and which workers are safe.

module RecoveryRaces {
  import opened Common
  import opened Contracts
  import opened JobRows
  import opened JobProtocol
  import opened JobRuns
  import opened LeaseSafety

  // --------------------------------------------------------- recovery's write

  /** The UPDATE that ends an expired root: state and owner as they were read, no lease. */
  function RecoveryWrite(owner: Owner, target: Status, code: FailureCode): Update {
    Transition(Running, target, Some(code), false, Some(owner))
  }

  /** Between the check and the UPDATE anything may happen. The UPDATE hits a row that is
      still running, whatever its lease is by then: a running job keeps its owner. If the
      row has not been renewed since it was read, its lease is the one that had expired. */
  lemma RecoveryTakesWhateverStillRuns(
    c: Config, steps: seq<Step>, id: JobId, staleBefore: Instant, target: Status, code: FailureCode)
    requires Inv(c) && id in c.db && RecoveryAccepts(id, c.db[id], staleBefore)
    ensures var later, read := After(c, steps), c.db[id];
      && id in later.db
      && (RecoveryWrite(read.owner.value, target, code).Matches(later.db[id], later.now) <==>
            later.db[id].state.Running?)
      && (later.db[id].state.Running? && later.db[id].heartbeatAt == read.heartbeatAt ==>
            later.db[id].leaseExpiresAt.Some? && later.db[id].leaseExpiresAt.value < staleBefore)
  {
    var later := After(c, steps);
    OwnerNeverChanges(c, steps, id);
    RunKeeps(c, steps);
    RunKeepsDrivers(c, steps);
    assert LeaseOk(c.db, c.now, c.drivers, id);
    assert LeaseOk(later.db, later.now, later.drivers, id);
  }

  /** Force-resolve judges the lease in its UPDATE: on every reachable running row it hits
      exactly if a stop was requested and the lease has expired at that moment. */
  lemma ForceResolveTakesOnlyExpired(c: Config, id: JobId)
    requires Inv(c) && IsRunning(c.db, id)
    ensures c.db[id].leaseExpiresAt.Some?
    ensures ResolveStale.Matches(c.db[id], c.now) <==>
      c.db[id].cancelRequestedAt.Some? && c.db[id].leaseExpiresAt.value <= c.now
  {
    assert LeaseOk(c.db, c.now, c.drivers, id);
  }

  // ----------------------------------------------------------- two short runs

  const ROOT := NewRow("t", ScopeTarget(1), None)
  const CHILD := NewRow("t", DeviceTarget(1, "10.0.0.1"), Some(1))
  const CLAIM: seq<Step> := [Insert(1, 1, ROOT), Commit(1), Claim(1, 1, 5, 10)]
  const FAIL := RecoveryWrite(5, Failed, DISCOVERY_FAILED)

  lemma AfterCons(c: Config, s: Step, rest: seq<Step>)
    ensures After(c, [s] + rest) == After(Exec(c, s), rest)
  {
    assert ([s] + rest)[1..] == rest;
  }

  const HELD := ClaimSet(ROOT, 5, 10, 0)
  const DRIVEN: map<JobId, Driver> := map[1 := Driver(5, 10)]
  const CLAIMED := Config(map[1 := HELD], 0, map[1 := EMPTY_TX], DRIVEN)

  /** A root is created, and claimed at time 0 with a lease of 10. */
  lemma ClaimedRoot()
    ensures After(START, CLAIM) == CLAIMED
  {
    var c := Exec(START, Insert(1, 1, ROOT));
    AfterCons(START, Insert(1, 1, ROOT), [Commit(1)] + [Claim(1, 1, 5, 10)]);
    AfterCons(c, Commit(1), [Claim(1, 1, 5, 10)]);
    AfterCons(Exec(c, Commit(1)), Claim(1, 1, 5, 10), []);
    assert CLAIM == [Insert(1, 1, ROOT)] + ([Commit(1)] + [Claim(1, 1, 5, 10)]);
    assert [Claim(1, 1, 5, 10)] + [] == [Claim(1, 1, 5, 10)];
  }

  lemma AfterTwo(c: Config, s: Step, t: Step)
    ensures After(c, [s, t]) == Exec(Exec(c, s), t)
  {
    assert [s, t] == [s] + [t] && [t] == [t] + [];
    AfterCons(c, s, [t]);
    AfterCons(Exec(c, s), t, []);
  }

  // The lease runs out and a recovery reads the row; then the owner renews after all.
  const READER := Tx(map[1 := HELD], map[])
  const RENEWED_ROW := RenewSet(HELD, 10, 11)
  const LATE := Config(map[1 := HELD], 11, map[1 := EMPTY_TX, 8 := READER], DRIVEN)
  const RENEWED := Config(map[1 := RENEWED_ROW], 11, map[1 := EMPTY_TX, 8 := READER, 2 := EMPTY_TX], DRIVEN)

  lemma LateRead()
    ensures After(START, CLAIM + [Tick(11), Read(8, 1)]) == LATE
  {
    ClaimedRoot();
    AfterAppend(START, CLAIM, [Tick(11), Read(8, 1)]);
    AfterTwo(CLAIMED, Tick(11), Read(8, 1));
  }

  lemma LateRenewal()
    ensures Exec(LATE, Renew(2, 1, 5, 10)) == RENEWED
  {
    assert 1 in Renewed(LATE, 1, 5, 10);
    assert Renewed(LATE, 1, 5, 10) == map[1 := RENEWED_ROW];
  }

  /** The root is running for owner 5, a recovery has read it, and nobody is writing. */
  ghost predicate ReadForRecovery(c: Config) {
    && c.db.Keys == {1} && c.db[1].state.Running? && c.db[1].owner == Some(5)
    && c.drivers == DRIVEN && 1 in c.txs && c.txs[1] == EMPTY_TX && 8 in c.txs && c.txs[8] == READER
    && forall a | a in c.txs :: c.txs[a].writes == map[]
  }

  lemma FailWritten(c: Config)
    requires ReadForRecovery(c)
    ensures Exec(c, Execute(8, 1, FAIL)) == WriteRow(c, 8, 1, FAIL.Set(c.db[1], c.now))
  {
    assert View(c, 8) == c.db;
    assert !LockedByOther(c, 8, 1);
    assert LicensedIn(c.db, READER.seen, 1, FAIL);
  }

  lemma WriteCommitted(c: Config, r: Row)
    requires ReadForRecovery(c)
    ensures Exec(WriteRow(c, 8, 1, r), Commit(8)) == c.(db := map[1 := r], txs := c.txs[8 := READER])
  {
    assert c.db + map[1 := r] == map[1 := r];
  }

  lemma FailCommitted(c: Config)
    requires ReadForRecovery(c)
    ensures After(c, [Execute(8, 1, FAIL), Commit(8)]) ==
      c.(db := map[1 := FAIL.Set(c.db[1], c.now)], txs := c.txs[8 := READER])
  {
    AfterTwo(c, Execute(8, 1, FAIL), Commit(8));
    FailWritten(c);
    WriteCommitted(c, FAIL.Set(c.db[1], c.now));
  }

  const READ_THEN_RENEW: seq<Step> := CLAIM + [Tick(11), Read(8, 1)] + [Renew(2, 1, 5, 10)]

  lemma AfterOne(c: Config, s: Step)
    ensures After(c, [s]) == Exec(c, s)
  {
    AfterCons(c, s, []);
    assert [s] + [] == [s];
  }

  /** A recovery that has read an expired row ends the job although its owner has renewed
      in between: the row it hits has just been renewed and no recovery would accept it. */
  lemma RecoveryEndsRenewedJob()
    ensures
      var renewed := After(START, READ_THEN_RENEW);
      var ended := After(START, READ_THEN_RENEW + [Execute(8, 1, FAIL), Commit(8)]);
      && 1 in TxOf(renewed, 8).seen && RecoveryAccepts(1, TxOf(renewed, 8).seen[1], renewed.now)
      && IsRunning(renewed.db, 1) && renewed.db[1].heartbeatAt == Some(renewed.now) && Protected(renewed, 1)
      && 1 in ended.db && ended.db[1].state.Failed?
  {
    LateRead();
    LateRenewal();
    AfterAppend(START, CLAIM + [Tick(11), Read(8, 1)], [Renew(2, 1, 5, 10)]);
    AfterOne(LATE, Renew(2, 1, 5, 10));
    AfterAppend(START, READ_THEN_RENEW, [Execute(8, 1, FAIL), Commit(8)]);
    FailCommitted(RENEWED);
  }

  // A recovery ends the root; its stalled worker goes on and starts a child.
  const END_ROOT: seq<Step> := CLAIM + [Read(8, 1)] + [Execute(8, 1, FAIL), Commit(8)]
  const START_CHILD: seq<Step> := [Insert(1, 2, CHILD), Commit(1)] + [Claim(1, 2, 5, 10), Tick(11)]

  lemma RootEnded()
    ensures var c := After(START, END_ROOT);
      && c.db == map[1 := FAIL.Set(HELD, 0)] && c.now == 0 && c.drivers == DRIVEN
      && 1 in c.txs && c.txs[1] == EMPTY_TX && forall a | a in c.txs :: c.txs[a].writes == map[]
  {
    ClaimedRoot();
    AfterAppend(START, CLAIM, [Read(8, 1)]);
    AfterOne(CLAIMED, Read(8, 1));
    AfterAppend(START, CLAIM + [Read(8, 1)], [Execute(8, 1, FAIL), Commit(8)]);
    FailCommitted(Exec(CLAIMED, Read(8, 1)));
  }

  // The root's row is there in some state, its worker has nothing open, and nobody is writing.
  ghost predicate Quiet(c: Config, root: Row) {
    && c.db == map[1 := root] && root.parent.None? && root.target == ScopeTarget(1)
    && 1 in c.txs && c.txs[1] == EMPTY_TX && forall a | a in c.txs :: c.txs[a].writes == map[]
  }

  lemma ChildCreated(c: Config, root: Row)
    requires Quiet(c, root)
    ensures var c' := After(c, [Insert(1, 2, CHILD), Commit(1)]);
      && c'.db == map[1 := root, 2 := CHILD] && c'.now == c.now && c'.drivers == c.drivers
      && forall a | a in c'.txs :: c'.txs[a].writes == map[]
  {
    AfterTwo(c, Insert(1, 2, CHILD), Commit(1));
    assert View(c, 1) == c.db;
    assert Exec(c, Insert(1, 2, CHILD)) == WriteRow(c, 1, 2, CHILD);
  }

  lemma ChildClaimed(c: Config, root: Row)
    requires c.db == map[1 := root, 2 := CHILD] && c.drivers == DRIVEN
    requires forall a | a in c.txs :: c.txs[a].writes == map[]
    ensures Exec(c, Claim(1, 2, 5, 10)).db == map[1 := root, 2 := ClaimSet(CHILD, 5, 10, c.now)]
    ensures Exec(c, Claim(1, 2, 5, 10)).now == c.now
    ensures forall a | a in Exec(c, Claim(1, 2, 5, 10)).txs :: Exec(c, Claim(1, 2, 5, 10)).txs[a].writes == map[]
  {
  }

  /** An expired running child that no scan finds: its root has already finished. */
  lemma OrphanedChild()
    ensures
      var db := After(START, END_ROOT + START_CHILD).db;
      && ExpiredChild(db, 2, 11) && db[2].parent == Some(1) && 1 in db && db[1].state.Failed?
      && forall id | id in db :: !ListedForRecovery(id, db[id], 11)
  {
    RootEnded();
    var c := After(START, END_ROOT);
    AfterAppend(START, END_ROOT, START_CHILD);
    AfterAppend(c, [Insert(1, 2, CHILD), Commit(1)], [Claim(1, 2, 5, 10), Tick(11)]);
    ChildCreated(c, FAIL.Set(HELD, 0));
    var created := After(c, [Insert(1, 2, CHILD), Commit(1)]);
    ChildClaimed(created, FAIL.Set(HELD, 0));
    AfterTwo(created, Claim(1, 2, 5, 10), Tick(11));
  }

  // ------------------------------------------------- exactly the safe workers

  /** What a worker's configuration is meant to ensure: whoever claims the job holds this
      lease, renewals are at most two heartbeats apart, and the lease never lapses. */
  ghost predicate KeepsItsJobs(heartbeat: int, lease: int) {
    forall steps: seq<Step>, id: JobId |
      (forall i | 0 <= i < |steps| && steps[i].Claim? && steps[i].id == id :: steps[i].lease == lease)
      && Punctual(START, steps, id, 0, 2 * heartbeat) ::
      Protected(After(START, steps), id)
  }

  lemma LastPrefix(steps: seq<Step>)
    ensures steps[..|steps|] == steps
  {
  }

  function Claimed(lease: int): Config {
    Exec(Exec(Exec(START, Insert(1, 1, ROOT)), Commit(1)), Claim(1, 1, 5, lease))
  }

  lemma ClaimedIs(lease: int)
    requires lease > 0
    ensures Claimed(lease).db == map[1 := ClaimSet(ROOT, 5, lease, 0)] && Claimed(lease).now == 0
  {
    var c1 := Exec(START, Insert(1, 1, ROOT));
    assert c1.now == 0 && Exec(c1, Commit(1)).db == map[1 := ROOT];
  }

  function ClaimSteps(lease: int): seq<Step> {
    [Insert(1, 1, ROOT)] + ([Commit(1)] + ([Claim(1, 1, 5, lease)] + []))
  }

  /** Silence after the claim is punctual as long as it is no longer than the gap. */
  lemma SilenceIsPunctual(lease: int, gap: nat)
    requires lease > 0
    ensures After(START, ClaimSteps(lease) + [Tick(gap)]) == Exec(Claimed(lease), Tick(gap))
    ensures Punctual(START, ClaimSteps(lease) + [Tick(gap)], 1, 0, gap)
  {
    var insert, claim, tick := Insert(1, 1, ROOT), Claim(1, 1, 5, lease), Tick(gap);
    var c1 := Exec(START, insert);
    var c2 := Exec(c1, Commit(1));
    var c3 := Exec(c2, claim);
    ClaimedIs(lease);
    var steps := [insert] + ([Commit(1)] + ([claim] + [tick]));
    assert ClaimSteps(lease) + [tick] == steps;
    AfterCons(START, insert, [Commit(1)] + ([claim] + [tick]));
    AfterCons(c1, Commit(1), [claim] + [tick]);
    AfterCons(c2, claim, [tick]);
    AfterOne(c3, tick);
    PunctualLast(c3, tick, 1, gap);
    PunctualCons(c2, claim, [tick], 1, 0, gap);
    PunctualCons(c1, Commit(1), [claim] + [tick], 1, 0, gap);
    PunctualCons(START, insert, [Commit(1)] + ([claim] + [tick]), 1, 0, gap);
  }

  lemma PunctualLast(c: Config, s: Step, id: JobId, gap: nat)
    requires c.now == 0 && s == Tick(gap)
    ensures Punctual(c, [s], id, 0, gap)
  {
    assert Punctual(Exec(c, s), [], id, 0, gap);
    PunctualCons(c, s, [], id, 0, gap);
    assert [s] + [] == [s];
  }

  /** A configuration the check rejects loses a job: claimed, then two heartbeats of silence. */
  lemma RejectedWorkerLapses(heartbeat: int, lease: int)
    requires lease > 0 && 2 * heartbeat >= lease
    ensures !KeepsItsJobs(heartbeat, lease)
  {
    var steps := ClaimSteps(lease) + [Tick(2 * heartbeat)];
    SilenceIsPunctual(lease, 2 * heartbeat);
    ClaimedIs(lease);
    assert !Protected(After(START, steps), 1);
  }

  lemma PunctualCons(c: Config, s: Step, rest: seq<Step>, id: JobId, last: Instant, gap: int)
    requires IsRunning(c.db, id) ==> c.now <= last + gap
    requires Punctual(Exec(c, s), rest, id, if Beats(c, s, id) then c.now else last, gap)
    ensures Punctual(c, [s] + rest, id, last, gap)
  {
    assert ([s] + rest)[1..] == rest;
  }

  /** The check a worker makes when it is built accepts exactly the configurations under
      which no punctual worker ever loses a job to expiry. */
  lemma AcceptedIffSafe(heartbeat: int, lease: int)
    requires lease > 0
    ensures ConfigureWorker(heartbeat, lease).Ok? <==> KeepsItsJobs(heartbeat, lease)
  {
    if ConfigureWorker(heartbeat, lease).Ok? {
      forall steps: seq<Step>, id: JobId |
        (forall i | 0 <= i < |steps| && steps[i].Claim? && steps[i].id == id :: steps[i].lease == lease)
        && Punctual(START, steps, id, 0, 2 * heartbeat)
        ensures Protected(After(START, steps), id)
      {
        ConfiguredWorkerIsSafe(steps, id, heartbeat, lease);
        LastPrefix(steps);
      }
    } else {
      RejectedWorkerLapses(heartbeat, lease);
    }
  }
}
