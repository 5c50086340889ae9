// What holds over whole runs: any sequence of steps, by any number of sessions.

module JobRuns {
  import opened Common
  import opened Contracts
  import opened JobRows
  import opened JobProtocol

  // ------------------------------------------------------------- foundations

  lemma StartIsOk()
    ensures Inv(START)
  {
  }

  lemma {:induction false} RunKeeps(c: Config, steps: seq<Step>)
    requires Inv(c)
    ensures Inv(After(c, steps))
    decreases |steps|
  {
    if steps != [] {
      StepKeeps(c, steps[0]);
      RunKeeps(Exec(c, steps[0]), steps[1..]);
    }
  }

  lemma {:induction false} AfterAppend(c: Config, s: seq<Step>, t: seq<Step>)
    ensures After(c, s + t) == After(After(c, s), t)
    decreases |s|
  {
    if s == [] {
      assert s + t == t;
    } else {
      assert (s + t)[1..] == s[1..] + t;
      AfterAppend(Exec(c, s[0]), s[1..], t);
    }
  }

  /** A step only moves committed rows forward, and never moves the clock back. */
  lemma StepEvolves(c: Config, s: Step)
    requires Inv(c)
    ensures Evolves(c.db, Exec(c, s).db)
    ensures c.now <= Exec(c, s).now
  {
    if ClaimSucceeds(c, s) {
      ClaimSound(c.db, s.id, s.owner, s.lease, c.now);
    } else if s.Renew? {
      RenewEvolves(c, s.id, s.owner, s.lease);
    } else if s.Commit? {
      TxIsOk(c, s.actor);
    } else {
      OtherwiseUnmoved(c, s);
    }
  }

  lemma OtherwiseUnmoved(c: Config, s: Step)
    requires !ClaimSucceeds(c, s) && !s.Renew? && !s.Commit?
    ensures Exec(c, s).db == c.db && c.now <= Exec(c, s).now
  {
  }

  lemma RenewEvolves(c: Config, root: JobId, owner: Owner, lease: int)
    requires Sound(c.db)
    ensures Evolves(c.db, c.db + Renewed(c, root, owner, lease))
  {
    forall id | id in c.db && RenewMatches(id, c.db[id], root, owner)
      ensures Reaches(c.db[id], RenewSet(c.db[id], lease, c.now))
    {
      assert RowOk(c.db, c.db[id]);
      RenewKeepsRow(id, c.db[id], root, owner, lease, c.now);
    }
  }

  lemma {:induction false} RunEvolves(c: Config, steps: seq<Step>)
    requires Inv(c)
    ensures Evolves(c.db, After(c, steps).db) && c.now <= After(c, steps).now
    decreases |steps|
  {
    if steps != [] {
      StepEvolves(c, steps[0]);
      StepKeeps(c, steps[0]);
      RunEvolves(Exec(c, steps[0]), steps[1..]);
      EvolvesTransitive(c.db, Exec(c, steps[0]).db, After(c, steps).db);
    }
  }

  // ----------------------------------------------- at most one terminal write

  predicate IsDone(db: Table, id: JobId) {
    id in db && db[id].state.IsTerminal()
  }

  /** The committed outcome columns of `id` change to a terminal outcome in this step. */
  ghost predicate WritesOutcome(c: Config, s: Step, id: JobId) {
    var db' := Exec(c, s).db;
    IsDone(db', id) && (id in c.db ==> !c.db[id].SameLifecycle(db'[id]))
  }

  ghost function OutcomeWrites(c: Config, steps: seq<Step>, id: JobId): nat
    decreases |steps|
  {
    if steps == [] then 0
    else (if WritesOutcome(c, steps[0], id) then 1 else 0) + OutcomeWrites(Exec(c, steps[0]), steps[1..], id)
  }

  /** In every interleaving a finished job keeps state, completion time, failure
      code and cancellation columns for ever. */
  lemma FinishedForever(c: Config, steps: seq<Step>, id: JobId)
    requires Inv(c) && IsDone(c.db, id)
    ensures id in After(c, steps).db && c.db[id].SameLifecycle(After(c, steps).db[id])
  {
    RunEvolves(c, steps);
    assert Reaches(c.db[id], After(c, steps).db[id]);
  }

  /** Exactly one of succeed, fail, abandon, recover, force-cancel and finalise wins. */
  lemma {:induction false} OneOutcome(c: Config, steps: seq<Step>, id: JobId)
    requires Inv(c)
    ensures OutcomeWrites(c, steps, id) ==
            if IsDone(After(c, steps).db, id) && !IsDone(c.db, id) then 1 else 0
    decreases |steps|
  {
    if steps != [] {
      var c' := Exec(c, steps[0]);
      StepKeeps(c, steps[0]);
      StepEvolves(c, steps[0]);
      OneOutcome(c', steps[1..], id);
      if IsDone(c'.db, id) {
        FinishedForever(c', steps[1..], id);
      }
      if IsDone(c.db, id) {
        assert Reaches(c.db[id], c'.db[id]);
      }
    }
  }

  // ------------------------------------------------------------ never resumed

  function Claims(c: Config, steps: seq<Step>, id: JobId): nat
    decreases |steps|
  {
    if steps == [] then 0
    else (if ClaimSucceeds(c, steps[0]) && steps[0].id == id then 1 else 0)
         + Claims(Exec(c, steps[0]), steps[1..], id)
  }

  predicate Claimable(db: Table, id: JobId) {
    id in db ==> db[id].state.Queued?
  }

  lemma {:induction false} NotClaimedAgain(c: Config, steps: seq<Step>, id: JobId)
    requires Inv(c) && !Claimable(c.db, id)
    ensures Claims(c, steps, id) == 0
    decreases |steps|
  {
    if steps != [] {
      StepKeeps(c, steps[0]);
      StepEvolves(c, steps[0]);
      assert Reaches(c.db[id], Exec(c, steps[0]).db[id]);
      NotClaimedAgain(Exec(c, steps[0]), steps[1..], id);
    }
  }

  lemma ClaimIsCounted(c: Config, s: Step, rest: seq<Step>)
    requires Inv(c) && ClaimSucceeds(c, s)
    ensures Claims(Exec(c, s), rest, s.id) == 0
    ensures s.id in After(Exec(c, s), rest).db && After(Exec(c, s), rest).db[s.id].attempts >= 1
  {
    var c' := Exec(c, s);
    StepKeeps(c, s);
    NotClaimedAgain(c', rest, s.id);
    RunEvolves(c', rest);
    assert c'.db[s.id].attempts == c.db[s.id].attempts + 1;
    assert Reaches(c'.db[s.id], After(c', rest).db[s.id]);
  }

  lemma AttemptsAtMostOne(c: Config, steps: seq<Step>, id: JobId)
    requires Inv(c)
    ensures id in After(c, steps).db ==> After(c, steps).db[id].attempts <= 1
  {
    RunKeeps(c, steps);
    if id in After(c, steps).db { assert RowOk(After(c, steps).db, After(c, steps).db[id]); }
  }

  /** Over any run a job is claimed at most once, and its attempt counter says so. */
  lemma {:induction false} ClaimedAtMostOnce(c: Config, steps: seq<Step>, id: JobId)
    requires Inv(c)
    ensures Claims(c, steps, id) <= 1
    ensures id in After(c, steps).db ==> After(c, steps).db[id].attempts <= 1
    ensures Claims(c, steps, id) == 1 ==> id in After(c, steps).db && After(c, steps).db[id].attempts == 1
    decreases |steps|
  {
    AttemptsAtMostOne(c, steps, id);
    if steps != [] {
      var s := steps[0];
      if ClaimSucceeds(c, s) && s.id == id {
        ClaimIsCounted(c, s, steps[1..]);
      } else {
        StepKeeps(c, s);
        ClaimedAtMostOnce(Exec(c, s), steps[1..], id);
      }
    }
  }

  /** Once one claim has won, every later claim on the row changes no row. */
  lemma LosingClaim(c: Config, winner: Step, between: seq<Step>, loser: Step)
    requires Inv(c) && ClaimSucceeds(c, winner)
    requires loser.Claim? && loser.id == winner.id
    ensures Exec(After(c, [winner] + between), loser).db == After(c, [winner] + between).db
    ensures Exec(After(c, [winner] + between), loser).drivers == After(c, [winner] + between).drivers
  {
    var c' := Exec(c, winner);
    StepKeeps(c, winner);
    assert ([winner] + between)[1..] == between;
    assert After(c, [winner] + between) == After(c', between);
    RunEvolves(c', between);
    assert Reaches(c'.db[winner.id], After(c', between).db[winner.id]);
  }

  /** A running job never passes from one owner to another. */
  lemma OwnerNeverChanges(c: Config, steps: seq<Step>, id: JobId)
    requires Inv(c) && id in c.db && c.db[id].state.Running?
    ensures id in After(c, steps).db
    ensures After(c, steps).db[id].state.Running? ==> After(c, steps).db[id].owner == c.db[id].owner
    ensures !After(c, steps).db[id].state.Running? ==> After(c, steps).db[id].owner.None?
  {
    RunEvolves(c, steps);
    RunKeeps(c, steps);
    assert Reaches(c.db[id], After(c, steps).db[id]);
    assert RowOk(c.db, c.db[id]);
    assert RowOk(After(c, steps).db, After(c, steps).db[id]);
  }

  // ---------------------------------------------------------- row invariants

  /** Lease columns are set together and only while running; a completion time
      exactly when finished; one active job per tenant and target. */
  lemma CommittedRows(steps: seq<Step>)
    ensures var db := After(START, steps).db;
      && (forall id | id in db ::
            && (db[id].state.Running? ==> db[id].Leased())
            && (!db[id].state.Running? ==> db[id].Unleased())
            && (db[id].completedAt.Some? <==> db[id].state.IsTerminal()))
      && (forall i, j | i in db && j in db && db[i].state.IsActive() && db[j].state.IsActive()
                        && db[i].tenant == db[j].tenant && db[i].target == db[j].target :: i == j)
  {
    StartIsOk();
    RunKeeps(START, steps);
    var db := After(START, steps).db;
    forall id | id in db ensures RowInv(db[id]) {
      assert RowOk(db, db[id]);
    }
    forall i, j | i in db && j in db && i != j && db[i].state.IsActive() && db[j].state.IsActive()
      ensures !SameKey(db[i], db[j])
    {
    }
  }

  /** A succeeded job was never asked to stop; a cancelled one carries the code
      CANCELLED and it, or its parent, was asked to stop. */
  lemma CancellationSafety(steps: seq<Step>, id: JobId)
    requires id in After(START, steps).db
    ensures var db := After(START, steps).db;
      && (db[id].state.Succeeded? ==> db[id].cancelRequestedAt.None?)
      && (db[id].state.Cancelled? ==> db[id].failure == Some(CANCELLED) && CancelJustified(db, db[id]))
  {
    StartIsOk();
    RunKeeps(START, steps);
    assert RowOk(After(START, steps).db, After(START, steps).db[id]);
  }

  // --------------------------------------------------------------- job trees

  /** A running child of a running root has the root's owner, and a lease no
      earlier than the root's. */
  lemma ChildFollowsRoot(steps: seq<Step>, child: JobId)
    requires var db := After(START, steps).db;
      && child in db && db[child].state.Running? && db[child].parent.Some?
      && db[child].parent.value in db && db[db[child].parent.value].state.Running?
    ensures var db := After(START, steps).db; var root := db[db[child].parent.value];
      && db[child].owner == root.owner && root.owner.Some?
      && root.leaseExpiresAt.Some? && db[child].leaseExpiresAt.Some?
      && root.leaseExpiresAt.value <= db[child].leaseExpiresAt.value
  {
    StartIsOk();
    RunKeeps(START, steps);
    var c := After(START, steps);
    assert LeaseOk(c.db, c.now, c.drivers, child);
    assert LeaseOk(c.db, c.now, c.drivers, c.db[child].parent.value);
  }

  /** The scan of recover_expired_owned_jobs. */
  predicate ListedForRecovery(id: JobId, r: Row, staleBefore: Instant) {
    && r.state.Running? && r.parent.None? && id != PROTECTED
    && r.owner.Some? && r.leaseExpiresAt.Some? && r.heartbeatAt.Some?
    && r.leaseExpiresAt.value < staleBefore
  }

  predicate ExpiredChild(db: Table, child: JobId, staleBefore: Instant) {
    && child in db && db[child].state.Running? && db[child].parent.Some?
    && db[child].leaseExpiresAt.Some? && db[child].leaseExpiresAt.value < staleBefore
  }

  /** The scan lists roots only. It finds the tree of an expired child exactly while the
      root itself is running and not the protected job. */
  lemma ExpiredChildIsFoundIff(steps: seq<Step>, child: JobId, staleBefore: Instant)
    requires ExpiredChild(After(START, steps).db, child, staleBefore)
    ensures var db := After(START, steps).db; var root := db[child].parent.value;
      && root in db
      && (ListedForRecovery(root, db[root], staleBefore) <==> db[root].state.Running? && root != PROTECTED)
    ensures var db := After(START, steps).db; !ListedForRecovery(child, db[child], staleBefore)
  {
    StartIsOk();
    RunKeeps(START, steps);
    var db := After(START, steps).db;
    assert RowOk(db, db[child]);
    assert RowOk(db, db[db[child].parent.value]);
    if db[db[child].parent.value].state.Running? { ChildFollowsRoot(steps, child); }
  }

  // ------------------------------------------------------------ interference

  predicate ActsFor(s: Step, a: Actor) {
    !s.Tick? && s.actor == a
  }

  predicate Foreign(steps: seq<Step>, a: Actor) {
    forall i | 0 <= i < |steps| :: !ActsFor(steps[i], a)
  }

  /** What one session can rely on while others run: its own writes and memory stay,
      the rows it sees only move forward, and the rows it has locked do not move. */
  ghost predicate Undisturbed(c: Config, c': Config, a: Actor) {
    && TxOf(c', a) == TxOf(c, a)
    && Evolves(View(c, a), View(c', a))
    && c.now <= c'.now
    && DriversKept(c, c')
  }

  /** Who drives a job is settled by its one claim. */
  ghost predicate DriversKept(c: Config, c': Config) {
    forall id | id in c.drivers :: id in c'.drivers && c'.drivers[id] == c.drivers[id]
  }

  lemma StepKeepsDrivers(c: Config, s: Step)
    requires LeasesOk(c.db, c.now, c.drivers)
    ensures DriversKept(c, Exec(c, s))
  {
    if ClaimSucceeds(c, s) { assert s.id !in c.drivers; }
  }

  lemma ForeignKeepsTx(c: Config, s: Step, a: Actor)
    requires !ActsFor(s, a)
    ensures TxOf(Exec(c, s), a) == TxOf(c, a)
  {
  }

  lemma ForeignStep(c: Config, s: Step, a: Actor)
    requires Inv(c) && !ActsFor(s, a)
    ensures Undisturbed(c, Exec(c, s), a)
  {
    StepEvolves(c, s);
    ForeignKeepsTx(c, s, a);
    StepKeepsDrivers(c, s);
    OverlayEvolves(c.db, Exec(c, s).db, TxOf(c, a).writes);
  }

  lemma OverlayEvolves(db: Table, db': Table, w: Table)
    requires Evolves(db, db')
    ensures Evolves(db + w, db' + w)
  {
  }

  lemma {:induction false} ForeignSteps(c: Config, steps: seq<Step>, a: Actor)
    requires Inv(c) && Foreign(steps, a)
    ensures Undisturbed(c, After(c, steps), a)
    decreases |steps|
  {
    if steps != [] {
      ForeignStep(c, steps[0], a);
      StepKeeps(c, steps[0]);
      ForeignSteps(Exec(c, steps[0]), steps[1..], a);
      EvolvesTransitive(View(c, a), View(Exec(c, steps[0]), a), View(After(c, steps), a));
    }
  }

  /** Two moments of one run: rows have only moved forward, drivers are settled. */
  /** A state the run passed between two of its moments. */
  ghost predicate During(earlier: seq<Step>, later: seq<Step>, c: Config) {
    exists t: seq<Step> :: earlier <= t <= later && c == After(START, t)
  }

  lemma RunGrows(earlier: seq<Step>, later: seq<Step>)
    requires earlier <= later
    ensures Evolves(After(START, earlier).db, After(START, later).db)
    ensures DriversKept(After(START, earlier), After(START, later))
  {
    var rest := later[|earlier|..];
    assert earlier + rest == later;
    AfterAppend(START, earlier, rest);
    StartIsOk();
    RunKeeps(START, earlier);
    RunEvolves(After(START, earlier), rest);
    RunKeepsDrivers(After(START, earlier), rest);
  }

  lemma {:induction false} RunKeepsDrivers(c: Config, steps: seq<Step>)
    requires Inv(c)
    ensures DriversKept(c, After(c, steps))
    decreases |steps|
  {
    if steps != [] {
      StepKeeps(c, steps[0]);
      StepKeepsDrivers(c, steps[0]);
      RunKeepsDrivers(Exec(c, steps[0]), steps[1..]);
    }
  }
}
