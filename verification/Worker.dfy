// The loops of one discovery worker (backend/app/discovery/worker.py). Between two
// statements any other session may run; each job handled is one transaction.

module Worker {
  import opened Common
  import opened Contracts
  import opened JobRows
  import opened JobProtocol
  import opened JobRuns
  import opened FanoutResults
  import opened Sessions
  import opened JobRepository
  import opened Fanout
  import opened JobTrees

  datatype Claimed = Claimed(tenant: string, id: JobId, owner: Owner)

  /** list_queued_roots, in the order the database returned them. */
  ghost predicate QueuedRoots(db: Table, candidates: seq<(string, JobId)>) {
    && (forall i | 0 <= i < |candidates| :: candidates[i].1 in db && db[candidates[i].1].parent.None?)
    && (forall i, j | 0 <= i < j < |candidates| :: candidates[i].1 != candidates[j].1)
  }

  ghost predicate IsClaimed(claimed: seq<Claimed>, id: JobId) {
    exists k :: 0 <= k < |claimed| && claimed[k].id == id
  }

  /** A candidate comes back claimed, or is the protected job, or its claim was refused. */
  ghost predicate Accounted(
    claimed: seq<Claimed>, refused: map<JobId, (JobError, Config)>, a: Actor, tenant: string, id: JobId, lease: int)
  {
    || id == PROTECTED
    || IsClaimed(claimed, id)
    || (id in refused && ClaimRefused(refused[id].0, refused[id].1, a, tenant, id, lease))
  }

  /** Whatever is returned is driven by this worker alone, under the token given to it. */
  ghost predicate Driven(c: Config, x: Claimed, lease: int) {
    && x.id != PROTECTED && x.id in c.drivers && c.drivers[x.id] == Driver(x.owner, lease)
    && x.id in c.db && !c.db[x.id].state.Queued?
  }

  ghost predicate FromCandidates(x: Claimed, candidates: seq<(string, JobId)>, tokens: seq<Owner>, n: nat)
    requires n <= |candidates| == |tokens|
  {
    exists j :: 0 <= j < n && x == Claimed(candidates[j].0, candidates[j].1, tokens[j])
  }

  /** The candidates from `n` on have not changed. */
  ghost predicate StillCandidates(db: Table, db': Table, candidates: seq<(string, JobId)>, n: nat) {
    forall i | n <= i < |candidates| && candidates[i].1 in db ::
      candidates[i].1 in db' && db'[candidates[i].1] == db[candidates[i].1]
  }

  /** Of the first `n` candidates every one that could be claimed is. */
  ghost predicate ClaimableClaimed(db: Table, candidates: seq<(string, JobId)>, n: nat, claimed: seq<Claimed>)
    requires n <= |candidates|
  {
    forall i | 0 <= i < n && QueuedFor(db, candidates[i].0, candidates[i].1) && candidates[i].1 != PROTECTED ::
      IsClaimed(claimed, candidates[i].1)
  }

  lemma StillClaimableClaimed(
    db: Table, candidates: seq<(string, JobId)>, n: nat, was: seq<Claimed>, claimed: seq<Claimed>)
    requires n < |candidates| && was <= claimed && ClaimableClaimed(db, candidates, n, was)
    requires QueuedFor(db, candidates[n].0, candidates[n].1) && candidates[n].1 != PROTECTED ==>
      IsClaimed(claimed, candidates[n].1)
    ensures ClaimableClaimed(db, candidates, n + 1, claimed)
  {
    forall i | 0 <= i < n && IsClaimed(was, candidates[i].1) ensures IsClaimed(claimed, candidates[i].1) {
      IsClaimedLater(was, claimed, candidates[i].1);
    }
  }

  /** Claims each candidate under its own fresh token; candidates lost to another worker are
      skipped. `refused` holds the error of each and the state it met. */
  method ClaimQueuedJobs(s: Session, candidates: seq<(string, JobId)>, tokens: seq<Owner>, lease: int)
    returns (claimed: seq<Claimed>, ghost refused: map<JobId, (JobError, Config)>)
    requires s.Valid() && s.RolledBack() && QueuedRoots(s.world.db, candidates) && |tokens| == |candidates|
    modifies s
    ensures s.Valid() && old(s.trace) <= s.trace && s.Writes() == map[]
    ensures |s.published| == |old(s.published)| + |claimed|
    ensures forall k | 0 <= k < |claimed| ::
      Driven(s.world, claimed[k], lease) && FromCandidates(claimed[k], candidates, tokens, |candidates|)
    ensures forall k, l | 0 <= k < l < |claimed| :: claimed[k].id != claimed[l].id
    ensures forall i | 0 <= i < |candidates| ::
      Accounted(claimed, refused, s.me, candidates[i].0, candidates[i].1, lease)
    ensures forall id | id in refused :: During(old(s.trace), s.trace, refused[id].1)
    ensures old(s.Alone()) && lease > 0 ==> ClaimableClaimed(old(s.world.db), candidates, |candidates|, claimed)
  {
    claimed, refused := [], map[];
    s.RowsBackedByTable(PROTECTED);
    EvolvesReflexive(s.world.db);
    for i := 0 to |candidates|
      invariant s.Valid() && old(s.trace) <= s.trace && s.RolledBack()
      invariant Evolves(old(s.world.db), s.world.db)
      invariant |s.published| == |old(s.published)| + |claimed|
      invariant SoFar(s.world, s.me, candidates, tokens, lease, i, claimed, refused)
      invariant forall id | id in refused :: During(old(s.trace), s.trace, refused[id].1)
      invariant old(s.Alone()) ==> s.Alone() && StillCandidates(old(s.world.db), s.world.db, candidates, i)
      invariant old(s.Alone()) && lease > 0 ==> ClaimableClaimed(old(s.world.db), candidates, i, claimed)
    {
      ghost var before, start, was, known := s.world, s.trace, claimed, refused;
      assert Reaches(old(s.world.db)[candidates[i].1], before.db[candidates[i].1]);
      claimed, refused := ClaimNext(s, candidates, tokens, lease, i, claimed, refused);
      EvolvesTransitive(old(s.world.db), before.db, s.world.db);
      StillDuring(old(s.trace), start, s.trace, known);
      if old(s.Alone()) && lease > 0 { StillClaimableClaimed(old(s.world.db), candidates, i, was, claimed); }
    }
  }

  /** What holds after the first `n` candidates. */
  ghost predicate SoFar(
    c: Config, a: Actor, candidates: seq<(string, JobId)>, tokens: seq<Owner>, lease: int, n: nat,
    claimed: seq<Claimed>, refused: map<JobId, (JobError, Config)>)
    requires n <= |candidates| == |tokens|
  {
    && (forall k | 0 <= k < |claimed| :: Driven(c, claimed[k], lease) && FromCandidates(claimed[k], candidates, tokens, n))
    && (forall k, l | 0 <= k < l < |claimed| :: claimed[k].id != claimed[l].id)
    && (forall j | 0 <= j < n :: Accounted(claimed, refused, a, candidates[j].0, candidates[j].1, lease))
  }

  /** One turn of the loop. */
  method ClaimNext(
    s: Session, candidates: seq<(string, JobId)>, tokens: seq<Owner>, lease: int, i: nat, was: seq<Claimed>,
    ghost known: map<JobId, (JobError, Config)>)
    returns (claimed: seq<Claimed>, ghost refused: map<JobId, (JobError, Config)>)
    requires s.Valid() && s.RolledBack() && i < |candidates| == |tokens|
    requires candidates[i].1 in s.world.db && s.world.db[candidates[i].1].parent.None?
    requires forall j, k | 0 <= j < k < |candidates| :: candidates[j].1 != candidates[k].1
    requires SoFar(s.world, s.me, candidates, tokens, lease, i, was, known)
    modifies s
    ensures s.Valid() && old(s.trace) <= s.trace && s.RolledBack()
    ensures Evolves(old(s.world.db), s.world.db)
    ensures was <= claimed && |s.published| == |old(s.published)| + |claimed| - |was|
    ensures SoFar(s.world, s.me, candidates, tokens, lease, i + 1, claimed, refused)
    ensures forall id | id in refused :: (id in known && refused[id] == known[id]) || refused[id].1 == s.world
    ensures old(s.Alone()) ==>
      && s.Alone() && StillCandidates(old(s.world.db), s.world.db, candidates, i + 1)
      && (old(QueuedFor(s.world.db, candidates[i].0, candidates[i].1)) && candidates[i].1 != PROTECTED && lease > 0
          ==> IsClaimed(claimed, candidates[i].1))
  {
    var (tenant, id) := candidates[i];
    claimed, refused := was, known;
    StillFrom(was, candidates, tokens, i);
    if id == PROTECTED {
      EvolvesReflexive(s.world.db);
    } else {
      ghost var before := s.world;
      var r := ClaimOne(s, tenant, id, tokens[i], lease);
      StillDriven(before, s.world, was, lease);
      if r.Ok? { claimed := claimed + [Claimed(tenant, id, tokens[i])]; }
      else { refused := refused[id := (r.error, s.world)]; }
    }
    if |claimed| > |was| { assert claimed[|was|].id == id; }
    StillAccounted(was, claimed, known, refused, s.me, candidates, lease, i);
  }

  lemma StillDriven(c: Config, c': Config, claimed: seq<Claimed>, lease: int)
    requires Evolves(c.db, c'.db) && DriversKept(c, c')
    requires forall k | 0 <= k < |claimed| :: Driven(c, claimed[k], lease)
    ensures forall k | 0 <= k < |claimed| :: Driven(c', claimed[k], lease)
  {
    forall k | 0 <= k < |claimed| ensures Driven(c', claimed[k], lease) {
      assert Reaches(c.db[claimed[k].id], c'.db[claimed[k].id]);
    }
  }

  lemma StillDuring(earlier: seq<Step>, middle: seq<Step>, later: seq<Step>, refused: map<JobId, (JobError, Config)>)
    requires middle <= later && forall id | id in refused :: During(earlier, middle, refused[id].1)
    ensures forall id | id in refused :: During(earlier, later, refused[id].1)
  {
    forall id | id in refused ensures During(earlier, later, refused[id].1) {
      var t: seq<Step> :| earlier <= t <= middle && refused[id].1 == After(START, t);
      assert earlier <= t <= later;
    }
  }

  lemma StillFrom(claimed: seq<Claimed>, candidates: seq<(string, JobId)>, tokens: seq<Owner>, i: nat)
    requires i < |candidates| == |tokens|
    requires forall k | 0 <= k < |claimed| :: FromCandidates(claimed[k], candidates, tokens, i)
    ensures forall k | 0 <= k < |claimed| :: FromCandidates(claimed[k], candidates, tokens, i + 1)
    ensures FromCandidates(Claimed(candidates[i].0, candidates[i].1, tokens[i]), candidates, tokens, i + 1)
    ensures (forall j, k | 0 <= j < k < |candidates| :: candidates[j].1 != candidates[k].1) ==>
      forall k | 0 <= k < |claimed| :: claimed[k].id != candidates[i].1
  {
    forall k | 0 <= k < |claimed|
      ensures FromCandidates(claimed[k], candidates, tokens, i + 1)
      ensures exists j :: 0 <= j < i && claimed[k].id == candidates[j].1
    {
      var j :| 0 <= j < i && claimed[k] == Claimed(candidates[j].0, candidates[j].1, tokens[j]);
      assert 0 <= j < i + 1 && claimed[k].id == candidates[j].1;
    }
    assert 0 <= i < i + 1;
  }

  lemma StillAccounted(
    was: seq<Claimed>, claimed: seq<Claimed>, known: map<JobId, (JobError, Config)>,
    refused: map<JobId, (JobError, Config)>, a: Actor, candidates: seq<(string, JobId)>, lease: int, i: nat)
    requires i < |candidates| && was <= claimed
    requires forall j, k | 0 <= j < k < |candidates| :: candidates[j].1 != candidates[k].1
    requires forall id | id in known && id != candidates[i].1 :: id in refused && refused[id] == known[id]
    requires forall j | 0 <= j < i :: Accounted(was, known, a, candidates[j].0, candidates[j].1, lease)
    ensures forall j | 0 <= j < i :: Accounted(claimed, refused, a, candidates[j].0, candidates[j].1, lease)
  {
    forall j | 0 <= j < i ensures Accounted(claimed, refused, a, candidates[j].0, candidates[j].1, lease) {
      assert Accounted(was, known, a, candidates[j].0, candidates[j].1, lease);
      IsClaimedLater(was, claimed, candidates[j].1);
    }
  }

  lemma IsClaimedLater(was: seq<Claimed>, claimed: seq<Claimed>, id: JobId)
    requires was <= claimed
    ensures IsClaimed(was, id) ==> IsClaimed(claimed, id)
  {
    if IsClaimed(was, id) {
      var k :| 0 <= k < |was| && was[k].id == id;
      assert claimed[k].id == id;
    }
  }

  /** A claim, and what it leaves of everybody's rows and drivers. */
  method ClaimOne(s: Session, tenant: string, id: JobId, owner: Owner, lease: int) returns (r: Result<Row, JobError>)
    requires s.Valid() && s.RolledBack() && id != PROTECTED && id in s.world.db && s.world.db[id].parent.None?
    modifies s
    ensures s.Valid() && old(s.trace) <= s.trace && s.RolledBack()
    ensures Evolves(old(s.world.db), s.world.db) && DriversKept(old(s.world), s.world)
    ensures r.Ok? ==> Driven(s.world, Claimed(tenant, id, owner), lease) && |s.published| == |old(s.published)| + 1
    ensures r.Err? ==> s.published == old(s.published) && ClaimRefused(r.error, s.world, s.me, tenant, id, lease)
    ensures old(s.Alone()) ==>
      && s.Alone() && (forall k | k in old(s.world.db) && k != id :: k in s.world.db && s.world.db[k] == old(s.world.db)[k])
      && (old(QueuedFor(s.world.db, tenant, id)) && lease > 0 ==> r.Ok?)
  {
    ghost var start := s.trace;
    r := ClaimJob(s, tenant, id, owner, lease);
    RunGrows(start, s.trace);
  }

  /** No row is left to renew, or one of them is locked by somebody else. */
  ghost predicate NothingToRenew(c: Config, a: Actor, root: JobId, owner: Owner) {
    || !SomeToRenew(c.db, root, owner)
    || exists id :: id in c.db && RenewMatches(id, c.db[id], root, owner) && LockedByOther(c, a, id)
  }

  /** One turn of the heartbeat: renew, and stop the tree when the lease is lost. The lease is
      called lost only if there was nothing to renew or a row was locked, in the state
      `atRenewal`. Unless the database refused, a lost job is no longer owned afterwards. */
  method HeartbeatTurn(s: Session, tenant: string, root: JobId, owner: Owner, lease: int, scope: Scope)
    returns (lost: bool, refused: bool, ghost atRenewal: Config)
    requires Ready(s, tenant, root) && root in s.world.db
    requires root in s.world.drivers && s.world.drivers[root] == Driver(owner, lease)
    modifies s
    ensures s.Valid() && old(s.trace) <= s.trace
    ensures During(old(s.trace), s.trace, atRenewal) && (lost ==> NothingToRenew(atRenewal, s.me, root, owner))
    ensures lost && !refused ==> !OwnedBy(s.world.db, tenant, root, owner)
    ensures !lost ==> !refused && SomeToRenew(s.world.db, root, owner)
    ensures !lost ==> forall id | id in s.world.db && RenewMatches(id, s.world.db[id], root, owner) ::
      s.world.db[id].heartbeatAt == Some(s.world.now) && s.world.db[id].leaseExpiresAt == Some(s.world.now + lease)
    ensures old(s.Alone()) ==>
      (lost <==> !SomeToRenew(old(s.world.db), root, owner)) && (refused ==> root == PROTECTED)
  {
    refused := false;
    s.RowsBackedByTable(root);
    var renewed := RenewLease(s, root, owner, lease);
    lost, atRenewal := !renewed, s.world;
    ghost var middle := s.trace;
    if lost {
      RunGrows(old(s.trace), s.trace);
      assert Reaches(old(s.world.db)[root], s.world.db[root]);
      s.RowsBackedByTable(root);
      StillLinked(old(s.world.db), old(s.results), s.world.db, s.results, tenant, root);
      if !SomeToRenew(s.world.db, root, owner) { NotOwned(s.world.db, tenant, root, owner); }
      var abandoned := AbandonOwnedJob(s, tenant, root, owner, scope);
      refused := abandoned.Err? || root == PROTECTED;
    }
    assert old(s.trace) <= middle <= s.trace;
  }

  lemma NotOwned(db: Table, tenant: string, root: JobId, owner: Owner)
    requires !SomeToRenew(db, root, owner)
    ensures !OwnedBy(db, tenant, root, owner)
  {
  }

  /** How a fanned-out root ends: cancelled exactly if it was asked to stop. */
  predicate RootEnded(db: Table, root: JobId, row: Row, anySucceeded: bool) {
    && root in db && db[root] == row
    && row.state.IsTerminal() && row.completedAt.Some? && row.Unleased()
    && (row.state.Cancelled? <==> row.cancelRequestedAt.Some?)
    && (row.state.Cancelled? ==> row.failure == Some(CANCELLED))
    && (row.cancelRequestedAt.None? ==> row.state == if anySucceeded then Succeeded else Failed)
  }

  lemma CancelledRootEnded(s: Session, root: JobId, row: Row, anySucceeded: bool)
    requires s.Valid() && s.Writes() == map[] && root in s.world.db && s.world.db[root] == row
    requires row.state.Cancelled? && row.parent.None?
    ensures RootEnded(s.world.db, root, row, anySucceeded)
  {
    s.RowsBackedByTable(root);
    RootWasAsked(s, root);
    ViewIsOk(s.trace, s.me);
    assert RowInv(s.View()[root]);
  }

  /** Cancels a root that was asked to stop. */
  method CancelRoot(s: Session, tenant: string, root: JobId, owner: Owner, ghost anySucceeded: bool)
    returns (r: Result<Row, JobError>)
    requires s.Valid() && s.Writes() == map[] && root in s.world.db && s.world.db[root].parent.None?
    modifies s
    ensures s.Valid() && old(s.trace) <= s.trace
    ensures r.Ok? ==>
      s.Writes() == map[] && RootEnded(s.world.db, root, r.value, anySucceeded) && r.value.state.Cancelled?
    ensures r.Err? ==> s.RolledBack() && s.published == old(s.published)
    ensures old(s.Alone() && Cancellable(s.View(), tenant, root, Some(owner))) ==> r.Ok?
  {
    r := FinaliseCancellation(s, tenant, root, Some(owner));
    if r.Ok? {
      RunGrows(old(s.trace), s.trace);
      assert Reaches(old(s.world.db)[root], s.world.db[root]);
      CancelledRootEnded(s, root, r.value, anySucceeded);
    }
  }

  /** The first try: cancel a root that was asked to stop, else record its outcome. */
  method TryFinish(s: Session, tenant: string, root: JobId, owner: Owner, anySucceeded: bool)
    returns (r: Result<Row, JobError>)
    requires s.Valid() && s.Writes() == map[] && root in s.world.db && s.world.db[root].parent.None?
    modifies s
    ensures s.Valid() && old(s.trace) <= s.trace
    ensures r.Ok? ==> s.Writes() == map[] && RootEnded(s.world.db, root, r.value, anySucceeded)
    ensures r.Err? ==> s.RolledBack() && s.published == old(s.published)
    ensures old(s.Alone() && OwnedBy(s.View(), tenant, root, owner)) ==> r.Ok?
  {
    s.RowsBackedByTable(root);
    var requested := CancellationRequested(s, tenant, root);
    assert Reaches(old(s.View())[root], s.View()[root]);
    if requested {
      s.RowsBackedByTable(root);
      r := CancelRoot(s, tenant, root, owner, anySucceeded);
    } else {
      r := ApplyTransition(s, tenant, root, if anySucceeded then Succeeded else Failed, None, true, Some(owner));
      if r.Ok? { s.Commit(); }
    }
  }

  /** The end of a fanned-out root. A request that arrives between the check and the
      transition makes the transition miss, and the root is cancelled after all. */
  method FinishRoot(s: Session, tenant: string, root: JobId, owner: Owner, anySucceeded: bool)
    returns (r: Result<Row, JobError>)
    requires s.Valid() && s.Writes() == map[] && root in s.View() && s.View()[root].parent.None?
    modifies s
    ensures s.Valid() && old(s.trace) <= s.trace
    ensures r.Ok? ==> s.Writes() == map[] && RootEnded(s.world.db, root, r.value, anySucceeded)
    ensures r.Err? ==> s.RolledBack() && s.published == old(s.published)
    ensures old(s.Alone() && OwnedBy(s.View(), tenant, root, owner)) ==> r.Ok?
  {
    s.RowsBackedByTable(root);
    r := TryFinish(s, tenant, root, owner, anySucceeded);
    if r != Err(InvalidTransition) { return; }
    RunGrows(old(s.trace), s.trace);
    s.RowsBackedByTable(root);
    assert Reaches(old(s.world.db)[root], s.world.db[root]);
    r := AfterLostRace(s, tenant, root, owner, anySucceeded);
  }

  /** The handler of a lost race. */
  method AfterLostRace(s: Session, tenant: string, root: JobId, owner: Owner, ghost anySucceeded: bool)
    returns (r: Result<Row, JobError>)
    requires s.Valid() && s.RolledBack() && root in s.world.db && s.world.db[root].parent.None?
    modifies s
    ensures s.Valid() && old(s.trace) <= s.trace
    ensures r.Ok? ==> s.Writes() == map[] && RootEnded(s.world.db, root, r.value, anySucceeded)
    ensures r.Ok? ==> r.value.state.Cancelled?
    ensures r.Err? ==> s.RolledBack() && s.published == old(s.published)
  {
    var current := ReadRow(s, tenant, root);
    if current.Some? && current.value.state.Cancelled? {
      s.RowsBackedByTable(root);
      RunGrows(old(s.trace), s.trace);
      assert Reaches(old(s.world.db)[root], s.world.db[root]);
      CancelledRootEnded(s, root, current.value, anySucceeded);
      return Ok(current.value);
    }
    var requested := ReadCancellation(s, tenant, root);
    if !requested {
      s.Rollback();
      return Err(InvalidTransition);
    }
    RunGrows(old(s.trace), s.trace);
    assert Reaches(old(s.world.db)[root], s.world.db[root]);
    r := CancelRoot(s, tenant, root, owner, anySucceeded);
  }
}
