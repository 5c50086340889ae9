// The two UPDATEs that are guarded by id and tenant only
// (backend/app/persistence/discovery_repositories.py, _reconcile_owned_tree;
// backend/app/discovery/fanout.py, reconcile_parent_job). The protocol takes each as one step
// with the read before it. Here they are steps of their own, landing on whatever row they find.

module UnguardedWrites {
  import opened Common
  import opened Contracts
  import opened JobRows
  import opened JobProtocol
  import opened JobRuns
  import opened RecoveryRaces

  datatype RawStep =
    | Guarded(step: Step)
    | Unguarded(actor: Actor, id: JobId, target: Status, code: FailureCode)
  {
    // The step of the protocol that stands for this one.
    function AsStep(): Step {
      if Guarded? then step else Execute(actor, id, Terminate(target, code))
    }
  }

  /** The write is issued: its row is there, nobody else has it locked, and the call site's
      conditions hold. Whether the row is still active is not asked. */
  predicate Issued(c: Config, r: RawStep) {
    && r.Unguarded? && r.id in View(c, r.actor) && !LockedByOther(c, r.actor, r.id)
    && LicensedIn(View(c, r.actor), TxOf(c, r.actor).seen, r.id, Terminate(r.target, r.code))
  }

  /** The row has finished since it was read. */
  predicate Late(c: Config, r: RawStep) {
    Issued(c, r) && View(c, r.actor)[r.id].state.IsTerminal()
  }

  function ExecRaw(c: Config, r: RawStep): Config {
    if r.Guarded? then Exec(c, r.step)
    else if !Issued(c, r) then c
    else WriteRow(c, r.actor, r.id, Terminate(r.target, r.code).Set(View(c, r.actor)[r.id], c.now))
  }

  function AfterRaw(c: Config, run: seq<RawStep>): Config
    decreases |run|
  {
    if run == [] then c else AfterRaw(ExecRaw(c, run[0]), run[1..])
  }

  predicate NoLateWrite(c: Config, run: seq<RawStep>)
    decreases |run|
  {
    run != [] ==> !Late(c, run[0]) && NoLateWrite(ExecRaw(c, run[0]), run[1..])
  }

  function AsSteps(run: seq<RawStep>): seq<Step> {
    seq(|run|, i requires 0 <= i < |run| => run[i].AsStep())
  }

  lemma TimelyWriteIsGuarded(c: Config, r: RawStep)
    requires !Late(c, r)
    ensures ExecRaw(c, r) == Exec(c, r.AsStep())
  {
  }

  /** As long as no write comes late, a run is a run of the protocol, step by step. */
  lemma {:induction false} TimelyRunIsGuarded(c: Config, run: seq<RawStep>)
    requires NoLateWrite(c, run)
    ensures AfterRaw(c, run) == After(c, AsSteps(run))
    decreases |run|
  {
    if run != [] {
      TimelyWriteIsGuarded(c, run[0]);
      TimelyRunIsGuarded(ExecRaw(c, run[0]), run[1..]);
      assert AsSteps(run)[0] == run[0].AsStep() && AsSteps(run)[1..] == AsSteps(run[1..]);
    }
  }

  ghost predicate WritesOutcomeRaw(c: Config, r: RawStep, id: JobId) {
    var db' := ExecRaw(c, r).db;
    IsDone(db', id) && (id in c.db ==> !c.db[id].SameLifecycle(db'[id]))
  }

  ghost function OutcomeWritesRaw(c: Config, run: seq<RawStep>, id: JobId): nat
    decreases |run|
  {
    if run == [] then 0
    else (if WritesOutcomeRaw(c, run[0], id) then 1 else 0) + OutcomeWritesRaw(ExecRaw(c, run[0]), run[1..], id)
  }

  lemma {:induction false} SameOutcomeWrites(c: Config, run: seq<RawStep>, id: JobId)
    requires NoLateWrite(c, run)
    ensures OutcomeWritesRaw(c, run, id) == OutcomeWrites(c, AsSteps(run), id)
    decreases |run|
  {
    if run != [] {
      TimelyWriteIsGuarded(c, run[0]);
      SameOutcomeWrites(ExecRaw(c, run[0]), run[1..], id);
      assert AsSteps(run)[0] == run[0].AsStep() && AsSteps(run)[1..] == AsSteps(run[1..]);
    }
  }

  /** Without late writes each job still gets at most one terminal write. */
  lemma OneOutcomeWithoutLateWrites(c: Config, run: seq<RawStep>, id: JobId)
    requires Inv(c) && NoLateWrite(c, run)
    ensures Inv(AfterRaw(c, run)) && OutcomeWritesRaw(c, run, id) <= 1
  {
    TimelyRunIsGuarded(c, run);
    RunKeeps(c, AsSteps(run));
    SameOutcomeWrites(c, run, id);
    OneOutcome(c, AsSteps(run), id);
  }

  /** What finished rows look like from one moment to another. */
  ghost predicate OutcomesKept(db: Table, db': Table) {
    forall id | IsDone(db, id) :: id in db' && db[id].SameLifecycle(db'[id])
  }

  lemma EvolvingKeepsOutcomes(db: Table, db': Table)
    requires Evolves(db, db')
    ensures OutcomesKept(db, db')
  {
    forall id | IsDone(db, id) ensures id in db' && db[id].SameLifecycle(db'[id]) {
      assert Reaches(db[id], db'[id]);
    }
  }

  /** The row already has the very outcome the write would give it. */
  predicate AlreadySo(r: Row, w: RawStep, now: Instant)
    requires w.Unguarded?
  {
    r.state == w.target && r.failure == Some(w.code) && r.completedAt == Some(now)
  }

  lemma LateWriteOverwritesIff(c: Config, r: RawStep)
    requires Inv(c) && Late(c, r) && r.id !in TxOf(c, r.actor).writes
    ensures OutcomesKept(c.db, ExecRaw(ExecRaw(c, r), Guarded(Commit(r.actor))).db) <==>
      AlreadySo(c.db[r.id], r, c.now)
  {
    var c1 := ExecRaw(c, r);
    TxIsOk(c, r.actor);
    LateCommit(c.db, TxOf(c, r.actor).writes, r, c.now);
    assert ExecRaw(c1, Guarded(Commit(r.actor))).db == c.db + c1.txs[r.actor].writes;
  }

  lemma LateCommit(db: Table, w: Table, r: RawStep, now: Instant)
    requires Sound(db) && Evolves(db, db + w) && r.Unguarded? && IsDone(db, r.id) && r.id !in w
    ensures OutcomesKept(db, db + w[r.id := Terminate(r.target, r.code).Set(db[r.id], now)]) <==>
      AlreadySo(db[r.id], r, now)
  {
    var db' := db + w[r.id := Terminate(r.target, r.code).Set(db[r.id], now)];
    assert RowOk(db, db[r.id]);
    assert db[r.id].SameLifecycle(db'[r.id]) <==> AlreadySo(db[r.id], r, now);
    forall id | IsDone(db, id) && id != r.id ensures id in db' && db[id].SameLifecycle(db'[id]) {
      assert Reaches(db[id], (db + w)[id]);
    }
  }

  lemma TimelyWriteKeepsOutcomes(c: Config, r: RawStep)
    requires Inv(c) && Issued(c, r) && !Late(c, r)
    ensures OutcomesKept(c.db, ExecRaw(ExecRaw(c, r), Guarded(Commit(r.actor))).db)
  {
    TimelyWriteIsGuarded(c, r);
    StepKeeps(c, r.AsStep());
    StepEvolves(c, r.AsStep());
    var c1 := Exec(c, r.AsStep());
    StepEvolves(c1, Commit(r.actor));
    EvolvesTransitive(c.db, c1.db, Exec(c1, Commit(r.actor)).db);
    EvolvingKeepsOutcomes(c.db, Exec(c1, Commit(r.actor)).db);
  }

  /** In every reachable state: an unguarded write to a row the transaction has not written
      itself, once committed, leaves all recorded outcomes alone exactly if the row had not
      finished before the write landed, or had finished in just that way at that instant. */
  lemma UnguardedWriteIsSafeIffTimely(c: Config, r: RawStep)
    requires Inv(c) && Issued(c, r) && r.id !in TxOf(c, r.actor).writes
    ensures OutcomesKept(c.db, ExecRaw(ExecRaw(c, r), Guarded(Commit(r.actor))).db) <==>
      !Late(c, r) || AlreadySo(c.db[r.id], r, c.now)
  {
    if Late(c, r) { LateWriteOverwritesIff(c, r); } else { TimelyWriteKeepsOutcomes(c, r); }
  }

  // ------------------------------------------------------------ a run with two outcomes

  lemma {:induction false} AfterRawAppend(c: Config, a: seq<RawStep>, b: seq<RawStep>, id: JobId)
    ensures AfterRaw(c, a + b) == AfterRaw(AfterRaw(c, a), b)
    ensures OutcomeWritesRaw(c, a + b, id) == OutcomeWritesRaw(c, a, id) + OutcomeWritesRaw(AfterRaw(c, a), b, id)
    decreases |a|
  {
    if a == [] {
      assert a + b == b;
    } else {
      assert (a + b)[1..] == a[1..] + b;
      AfterRawAppend(ExecRaw(c, a[0]), a[1..], b, id);
    }
  }

  function AllGuarded(steps: seq<Step>): seq<RawStep> {
    seq(|steps|, i requires 0 <= i < |steps| => Guarded(steps[i]))
  }

  lemma {:induction false} GuardedIsTimely(c: Config, steps: seq<Step>)
    ensures NoLateWrite(c, AllGuarded(steps))
    decreases |steps|
  {
    if steps != [] {
      GuardedIsTimely(Exec(c, steps[0]), steps[1..]);
      assert AllGuarded(steps)[1..] == AllGuarded(steps[1..]);
    }
  }

  // A worker starts a child and records its success; then a recovery that had read the child
  // as running ends it with an unguarded write.
  const CREATE: seq<Step> := [Insert(1, 2, CHILD), Commit(1)]
  const FINISH: seq<Step> := [Read(1, 2), Execute(1, 2, SUCCEED)] + [Commit(1), Tick(1)]
  const SUCCEED := Transition(Running, Succeeded, None, true, Some(5))
  const WORK: seq<Step> := CLAIM + CREATE + [Claim(1, 2, 5, 10), Read(8, 2)] + FINISH
  const LATE_END: seq<RawStep> := [Unguarded(8, 2, Failed, DISCOVERY_FAILED), Guarded(Commit(8))]

  const STARTED := ClaimSet(CHILD, 5, 10, 0)

  /** The child runs for owner 5 and nobody is writing. */
  ghost predicate ChildRuns(c: Config) {
    && c.db == map[1 := HELD, 2 := STARTED] && c.now == 0
    && forall a | a in c.txs :: c.txs[a].writes == map[]
  }

  lemma ChildStarted()
    ensures ChildRuns(After(START, CLAIM + CREATE + [Claim(1, 2, 5, 10), Read(8, 2)]))
  {
    ClaimedRoot();
    AfterAppend(START, CLAIM, CREATE);
    ChildCreated(CLAIMED, HELD);
    var created := After(CLAIMED, CREATE);
    AfterAppend(START, CLAIM + CREATE, [Claim(1, 2, 5, 10), Read(8, 2)]);
    ChildClaimed(created, HELD);
    AfterTwo(created, Claim(1, 2, 5, 10), Read(8, 2));
    ReadKeepsQuiet(Exec(created, Claim(1, 2, 5, 10)), 8, 2);
  }

  lemma ReadKeepsQuiet(c: Config, a: Actor, id: JobId)
    requires forall b | b in c.txs :: c.txs[b].writes == map[]
    ensures var c' := Exec(c, Read(a, id));
      c'.db == c.db && c'.now == c.now && forall b | b in c'.txs :: c'.txs[b].writes == map[]
    ensures id in c.db ==> id in TxOf(Exec(c, Read(a, id)), a).seen && TxOf(Exec(c, Read(a, id)), a).seen[id] == c.db[id]
  {
    assert View(c, a) == c.db;
  }

  lemma SuccessWritten(c: Config)
    requires ChildRuns(c)
    ensures var c' := After(c, [Read(1, 2), Execute(1, 2, SUCCEED)]);
      && c'.db == c.db && c'.now == 0
      && 1 in c'.txs && c'.txs[1].writes == map[2 := SUCCEED.Set(STARTED, 0)]
      && forall a | a in c'.txs && a != 1 :: c'.txs[a].writes == map[]
  {
    AfterTwo(c, Read(1, 2), Execute(1, 2, SUCCEED));
    ReadKeepsQuiet(c, 1, 2);
    var read := Exec(c, Read(1, 2));
    assert View(read, 1) == read.db;
    assert !LockedByOther(read, 1, 2);
    assert LicensedIn(read.db, TxOf(read, 1).seen, 2, SUCCEED);
    assert Exec(read, Execute(1, 2, SUCCEED)) == WriteRow(read, 1, 2, SUCCEED.Set(STARTED, 0));
  }

  lemma SuccessCommitted(c: Config)
    requires c.db == map[1 := HELD, 2 := STARTED] && c.now == 0
    requires 1 in c.txs && c.txs[1].writes == map[2 := SUCCEED.Set(STARTED, 0)]
    requires forall a | a in c.txs && a != 1 :: c.txs[a].writes == map[]
    ensures var c' := After(c, [Commit(1), Tick(1)]);
      && 2 in c'.db && c'.db[2] == SUCCEED.Set(STARTED, 0) && c'.now == 1
      && forall a | a in c'.txs :: c'.txs[a].writes == map[]
  {
    AfterTwo(c, Commit(1), Tick(1));
  }

  lemma WorkDone()
    ensures var c := After(START, WORK);
      && 2 in c.db && c.db[2] == SUCCEED.Set(STARTED, 0) && c.now == 1
      && forall a | a in c.txs :: c.txs[a].writes == map[]
  {
    ChildStarted();
    var c := After(START, CLAIM + CREATE + [Claim(1, 2, 5, 10), Read(8, 2)]);
    AfterAppend(START, CLAIM + CREATE + [Claim(1, 2, 5, 10), Read(8, 2)], FINISH);
    AfterAppend(c, [Read(1, 2), Execute(1, 2, SUCCEED)], [Commit(1), Tick(1)]);
    SuccessWritten(c);
    SuccessCommitted(After(c, [Read(1, 2), Execute(1, 2, SUCCEED)]));
  }

  lemma LateEndOverwrites(c: Config)
    requires 2 in c.db && c.db[2] == SUCCEED.Set(STARTED, 0) && c.now == 1
    requires forall a | a in c.txs :: c.txs[a].writes == map[]
    ensures OutcomeWritesRaw(c, LATE_END, 2) == 1
    ensures 2 in AfterRaw(c, LATE_END).db && AfterRaw(c, LATE_END).db[2].state.Failed?
  {
    var r := LATE_END[0];
    assert View(c, 8) == c.db;
    assert !LockedByOther(c, 8, 2);
    assert Issued(c, r);
    var c1 := ExecRaw(c, r);
    assert c1 == WriteRow(c, 8, 2, Terminate(Failed, DISCOVERY_FAILED).Set(c.db[2], 1));
    var c2 := ExecRaw(c1, LATE_END[1]);
    assert LATE_END[1..] == [LATE_END[1]] && [LATE_END[1]][1..] == [];
    assert AfterRaw(c, LATE_END) == AfterRaw(c1, [LATE_END[1]]);
    assert AfterRaw(c1, [LATE_END[1]]) == c2;
    assert OutcomeWritesRaw(c1, [LATE_END[1]], 2) == (if WritesOutcomeRaw(c1, LATE_END[1], 2) then 1 else 0);
  }

  /** A run from the empty table in which a job that had succeeded is failed afterwards: two
      terminal writes. */
  lemma TwoOutcomes()
    ensures
      var worked, ended := AfterRaw(START, AllGuarded(WORK)), AfterRaw(START, AllGuarded(WORK) + LATE_END);
      && IsDone(worked.db, 2) && worked.db[2].state.Succeeded?
      && IsDone(ended.db, 2) && ended.db[2].state.Failed?
      && OutcomeWritesRaw(START, AllGuarded(WORK) + LATE_END, 2) == 2
  {
    StartIsOk();
    GuardedIsTimely(START, WORK);
    TimelyRunIsGuarded(START, AllGuarded(WORK));
    assert AsSteps(AllGuarded(WORK)) == WORK;
    SameOutcomeWrites(START, AllGuarded(WORK), 2);
    WorkDone();
    OneOutcome(START, WORK, 2);
    AfterRawAppend(START, AllGuarded(WORK), LATE_END, 2);
    LateEndOverwrites(After(START, WORK));
  }
}
