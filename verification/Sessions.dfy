// A database session: the statements it can issue, each one a step of the job
// protocol, with other sessions running at every point where the code waits on
// the database.

module Sessions {
  import opened Common
  import opened Contracts
  import opened JobRows
  import opened JobProtocol
  import opened JobRuns
  import opened FanoutResults

  // A statement that would wait for a lock that is not released ends in DatabaseError.
  datatype JobError =
    | NotFound | InvalidTransition | CancellationConflict | DuplicateActive | DatabaseError

  datatype Outcome = Hit | Miss | Blocked

  function OthersOnly(steps: seq<Step>, a: Actor): (r: seq<Step>)
    ensures Foreign(r, a)
  {
    if steps == [] then []
    else (if ActsFor(steps[0], a) then [] else [steps[0]]) + OthersOnly(steps[1..], a)
  }

  class Session {
    const me: Actor
    // Rows of all sessions, and what the others do at each waiting point to come.
    var world: Config
    var schedule: seq<seq<Step>>
    // Device results and run summary of the job tree this session works on.
    var results: seq<DeviceResult>
    var summary: Option<Summary>
    var savedResults: seq<DeviceResult>
    var savedSummary: Option<Summary>
    // The run so far, and the row sets this session has committed.
    ghost var trace: seq<Step>
    ghost var published: seq<Table>

    ghost predicate Valid()
      reads this
    {
      world == After(START, trace)
    }

    function View(): Table
      reads this
    {
      JobProtocol.View(world, me)
    }

    function Writes(): Table
      reads this
    {
      TxOf(world, me).writes
    }

    function Seen(): Table
      reads this
    {
      TxOf(world, me).seen
    }

    ghost predicate RolledBack()
      reads this
    {
      Writes() == map[] && results == savedResults && summary == savedSummary
    }

    /** Nobody else is at work: no other session will run, and none has pending rows. */
    ghost predicate Alone()
      reads this
    {
      schedule == [] && NoOthers(world, me)
    }

    constructor (me: Actor, world: Config, schedule: seq<seq<Step>>, results: seq<DeviceResult>, ghost trace: seq<Step>)
      requires world == After(START, trace)
      ensures Valid() && this.me == me && this.world == world && this.schedule == schedule && this.trace == trace
      ensures this.results == this.savedResults == results && summary == savedSummary == None && published == []
    {
      this.me, this.world, this.schedule, this.trace := me, world, schedule, trace;
      this.results, this.savedResults, this.summary, this.savedSummary := results, results, None, None;
      this.published := [];
    }

    lemma RowsBackedByTable(id: JobId)
      requires Writes() == map[]
      ensures View() == world.db
    {
      assert world.db + map[] == world.db;
    }

    /** Other sessions run: any number of statements, commits and rollbacks. */
    method Interleave()
      requires Valid()
      modifies `world, `schedule, `trace
      ensures Valid() && old(trace) <= trace
      ensures Writes() == old(Writes()) && Seen() == old(Seen()) && Evolves(old(View()), View())
      ensures old(world.now) <= world.now && DriversKept(old(world), world)
      ensures old(Alone()) ==> Alone() && world == old(world)
    {
      if schedule != [] {
        var others := OthersOnly(schedule[0], me);
        StartIsOk();
        RunKeeps(START, trace);
        ForeignSteps(world, others, me);
        AfterAppend(START, trace, others);
        world, schedule, trace := After(world, others), schedule[1..], trace + others;
      } else {
        EvolvesReflexive(View());
      }
    }

    /** One statement of this session. */
    method Issue(step: Step)
      requires Valid()
      modifies `world, `trace
      ensures Valid() && old(trace) <= trace
      ensures world == Exec(old(world), step)
      ensures ViewOk(old(world), me)
      ensures old(Alone()) && ActsFor(step, me) ==> Alone()
    {
      if ActsFor(step, me) { OwnStepLeavesOthers(world, step, me); }
      ViewIsOk(trace, me);
      AfterAppend(START, trace, [step]);
      assert After(world, [step]) == Exec(world, step);
      world, trace := Exec(world, step), trace + [step];
    }

    /** SELECT ... WHERE id and tenant match. */
    method Get(tenant: string, id: JobId) returns (row: Option<Row>)
      requires Valid()
      modifies `world, `trace
      ensures Valid() && old(trace) <= trace
      ensures View() == old(View()) && Writes() == old(Writes()) && world.now == old(world.now)
      ensures world.db == old(world.db) && world.drivers == old(world.drivers)
      ensures row == if id in View() && View()[id].tenant == tenant then Some(View()[id]) else None
      ensures id in View() ==> id in Seen() && Seen()[id] == View()[id] && RowInv(View()[id])
      ensures Evolves(old(Seen()), Seen())
      ensures old(Alone()) ==> Alone()
    {
      Issue(Read(me, id));
      ReadFacts(old(world), me, id);
      row := if id in View() && View()[id].tenant == tenant then Some(View()[id]) else None;
    }

    /** UPDATE ... WHERE ... RETURNING id, on one row. */
    method Update(id: JobId, u: Update) returns (outcome: Outcome)
      requires Valid() && id in View() && LicensedIn(View(), Seen(), id, u)
      modifies `world, `trace, `results, `summary
      ensures Valid() && old(trace) <= trace && world.now == old(world.now) && world.db == old(world.db)
      ensures outcome.Hit? ==>
        && u.Matches(old(View())[id], world.now)
        && View() == old(View())[id := u.Set(old(View())[id], world.now)]
        && Writes() == old(Writes())[id := u.Set(old(View())[id], world.now)]
        && Seen() == old(Seen()) && results == old(results) && summary == old(summary)
        && Evolves(old(View()), View()) && RowInv(View()[id]) && Reaches(old(View())[id], View()[id])
      ensures outcome.Miss? ==>
        && !u.Matches(old(View())[id], world.now)
        && if u.MissRaises() then RolledBack()
           else View() == old(View()) && Writes() == old(Writes()) && Seen() == old(Seen())
                && results == old(results) && summary == old(summary)
      ensures outcome.Blocked? ==> RolledBack() && LockedByOther(world, me, id)
      ensures old(Alone()) ==> Alone() && !outcome.Blocked?
    {
      if LockedByOther(world, me, id) {
        Rollback();
        return Blocked;
      }
      if u.Matches(View()[id], world.now) {
        Hits(id, u);
        return Hit;
      }
      Misses(id, u);
      outcome := Miss;
    }

    /** An UPDATE that finds its row. */
    method Hits(id: JobId, u: Update)
      requires Valid() && id in View() && LicensedIn(View(), Seen(), id, u)
      requires !LockedByOther(world, me, id) && u.Matches(View()[id], world.now)
      modifies `world, `trace
      ensures Valid() && old(trace) <= trace && world.now == old(world.now) && world.db == old(world.db)
      ensures View() == old(View())[id := u.Set(old(View())[id], world.now)]
      ensures Writes() == old(Writes())[id := u.Set(old(View())[id], world.now)] && Seen() == old(Seen())
      ensures Evolves(old(View()), View()) && RowInv(View()[id]) && Reaches(old(View())[id], View()[id])
      ensures old(Alone()) ==> Alone()
    {
      Issue(Execute(me, id, u));
      ExecuteFacts(old(world), me, id, u);
    }

    /** An UPDATE that finds no row: some roll back, some go on. */
    method Misses(id: JobId, u: Update)
      requires Valid() && id in View() && LicensedIn(View(), Seen(), id, u)
      requires !LockedByOther(world, me, id) && !u.Matches(View()[id], world.now)
      modifies `world, `trace, `results, `summary
      ensures Valid() && old(trace) <= trace && world.now == old(world.now) && world.db == old(world.db)
      ensures
        if u.MissRaises() then RolledBack()
        else View() == old(View()) && Writes() == old(Writes()) && Seen() == old(Seen())
             && results == old(results) && summary == old(summary)
      ensures old(Alone()) ==> Alone()
    {
      Issue(Execute(me, id, u));
      ExecuteFacts(old(world), me, id, u);
      if u.MissRaises() {
        results, summary := savedResults, savedSummary;
      }
    }

    /** INSERT of a new queued job; the active-target check and the unique index. */
    method Insert(id: JobId, row: Row) returns (r: Result<JobId, JobError>)
      requires Valid() && id !in View() && row == NewRow(row.tenant, row.target, row.parent)
      requires row.parent.Some? ==> row.parent.value in View() && View()[row.parent.value].parent.None?
      modifies `world, `trace, `results, `summary
      ensures Valid() && old(trace) <= trace && world.now == old(world.now)
      ensures r.Ok? ==>
        && View() == old(View())[id := row] && Writes() == old(Writes())[id := row] && Seen() == old(Seen())
        && results == old(results) && summary == old(summary) && Evolves(old(View()), View())
        && !KeyIsActive(old(View()), row)
      ensures r.Err? ==> RolledBack()
      ensures r == Err(DuplicateActive) ==> KeyIsActive(old(View()), row)
      ensures old(Alone()) ==> Alone() && (r.Err? ==> KeyIsActive(old(View()), row))
    {
      if KeyIsActive(View(), row) {
        Rollback();
        return Err(DuplicateActive);
      }
      if LockedByOther(world, me, id) || InsertConflict(world, me, row) {
        Rollback();
        return Err(DatabaseError);
      }
      Issue(JobProtocol.Insert(me, id, row));
      InsertFacts(old(world), me, id, row);
      r := Ok(id);
    }

    /** The claiming UPDATE, committed at once. */
    method ClaimRow(id: JobId, owner: Owner, lease: int) returns (outcome: Outcome)
      requires Valid() && Writes() == map[] && id in world.db && id != PROTECTED && lease > 0
      requires world.db[id].parent.Some? ==>
        world.db[id].parent.value in world.drivers && world.drivers[world.db[id].parent.value] == Driver(owner, lease)
      modifies `world, `trace, `results, `summary, `published
      ensures Valid() && old(trace) <= trace && world.now == old(world.now)
      ensures outcome.Hit? ==>
        && ClaimMatches(old(world).db[id])
        && world.db == old(world).db[id := ClaimSet(old(world).db[id], owner, lease, world.now)]
        && world.drivers == old(world).drivers[id := Driver(owner, lease)]
        && RowInv(world.db[id]) && Writes() == map[] && published == old(published) + [map[id := world.db[id]]]
        && results == old(results) && summary == old(summary)
      ensures outcome.Miss? ==> !ClaimMatches(old(world).db[id])
      ensures outcome.Blocked? ==> LockedByOther(world, me, id)
      ensures !outcome.Hit? ==> RolledBack() && world.db == old(world).db && published == old(published)
      ensures old(Alone()) ==> Alone() && !outcome.Blocked?
    {
      if LockedByOther(world, me, id) {
        Rollback();
        return Blocked;
      }
      outcome := if ClaimMatches(world.db[id]) then Hit else Miss;
      Issue(JobProtocol.Claim(me, id, owner, lease));
      if outcome.Hit? {
        ClaimKeepsRow(old(world).db[id], owner, lease, world.now) by { assert RowInv(old(View())[id]); }
        published := published + [map[id := world.db[id]]];
      } else {
        results, summary := savedResults, savedSummary;
      }
    }

    /** The joint renewal of a root and its running children, committed at once. */
    method RenewRows(root: JobId, owner: Owner, lease: int) returns (outcome: Outcome)
      requires Valid() && Writes() == map[] && root in world.db && world.db[root].parent.None?
      requires root in world.drivers && world.drivers[root] == Driver(owner, lease)
      modifies `world, `trace, `results, `summary, `published
      ensures Valid() && old(trace) <= trace && world.now == old(world.now)
      ensures outcome.Hit? ==>
        && world.db == old(world).db + Renewed(old(world), root, owner, lease)
        && published == old(published) + [Renewed(old(world), root, owner, lease)]
        && Renewed(old(world), root, owner, lease) != map[]
      ensures outcome.Miss? ==> Renewed(old(world), root, owner, lease) == map[]
      ensures outcome.Blocked? ==>
        exists id :: id in world.db && RenewMatches(id, world.db[id], root, owner) && LockedByOther(world, me, id)
      ensures !outcome.Hit? ==> RolledBack() && world.db == old(world).db && published == old(published)
      ensures old(Alone()) ==> Alone() && !outcome.Blocked?
    {
      if exists id | id in world.db ::
        RenewMatches(id, world.db[id], root, owner) && LockedByOther(world, me, id) {
        Rollback();
        return Blocked;
      }
      ghost var rows := Renewed(world, root, owner, lease);
      outcome := if Renewed(world, root, owner, lease) == map[] then Miss else Hit;
      Issue(Renew(me, root, owner, lease));
      if outcome.Hit? { published := published + [rows]; }
      else { results, summary := savedResults, savedSummary; }
    }

    method Commit()
      requires Valid()
      modifies `world, `trace, `savedResults, `savedSummary, `published
      ensures Valid() && old(trace) <= trace && world.now == old(world.now)
      ensures world.db == old(View()) && View() == old(View()) && Writes() == map[] && Seen() == old(Seen())
      ensures savedResults == results && savedSummary == summary
      ensures published == old(published) + [old(Writes())]
      ensures old(Alone()) ==> Alone()
    {
      ghost var w := Writes();
      Issue(JobProtocol.Commit(me));
      assert world.db + map[] == world.db;
      savedResults, savedSummary, published := results, summary, published + [w];
    }

    method Rollback()
      requires Valid()
      modifies `world, `trace, `results, `summary
      ensures Valid() && old(trace) <= trace && world.now == old(world.now)
      ensures RolledBack() && world.db == old(world.db)
      ensures forall id :: LockedByOther(world, me, id) <==> LockedByOther(old(world), me, id)
      ensures old(Alone()) ==> Alone()
    {
      AbortKeepsLocks(world, me);
      Issue(JobProtocol.Rollback(me));
      results, summary := savedResults, savedSummary;
    }

    /** A fresh identifier (uuid4): one that no session uses. */
    method FreshId() returns (id: JobId)
      ensures id !in View() && !LockedByOther(world, me, id) && id != PROTECTED
    {
      var used := world.db.Keys + set b, k | b in world.txs && k in world.txs[b].writes :: k;
      ghost var all := used;
      id := 1;
      while used != {}
        invariant id != 0
        invariant forall k | k in all :: k in used || k < id
        decreases used
      {
        var k :| k in used;
        used := used - {k};
        if id <= k { id := k + 1; }
      }
      assert id !in all;
    }
  }

  /** No session but `a` has pending rows. */
  ghost predicate NoOthers(c: Config, a: Actor) {
    forall b | b in c.txs && b != a :: c.txs[b].writes == map[]
  }

  lemma OwnStepLeavesOthers(c: Config, s: Step, a: Actor)
    requires ActsFor(s, a)
    ensures NoOthers(c, a) ==> NoOthers(Exec(c, s), a)
  {
  }

  lemma AbortKeepsLocks(c: Config, a: Actor)
    ensures forall id :: LockedByOther(Abort(c, a), a, id) <==> LockedByOther(c, a, id)
  {
    forall id ensures LockedByOther(Abort(c, a), a, id) <==> LockedByOther(c, a, id) {
      if b :| b in c.txs && b != a && id in c.txs[b].writes {
        assert id in Abort(c, a).txs[b].writes;
      }
      if b :| b in Abort(c, a).txs && b != a && id in Abort(c, a).txs[b].writes {
        assert id in c.txs[b].writes;
      }
    }
  }

  /** What a session can count on about the rows it sees. */
  ghost predicate ViewOk(c: Config, a: Actor) {
    (forall id | id in View(c, a) :: RowInv(View(c, a)[id])) && Evolves(TxOf(c, a).seen, View(c, a))
  }

  lemma ViewIsOk(trace: seq<Step>, a: Actor)
    ensures ViewOk(After(START, trace), a)
  {
    StartIsOk();
    RunKeeps(START, trace);
    var c := After(START, trace);
    TxIsOk(c, a);
    forall id | id in View(c, a) ensures RowInv(View(c, a)[id]) {
      assert RowOk(View(c, a), View(c, a)[id]);
    }
  }

  lemma ReadFacts(c: Config, a: Actor, id: JobId)
    requires ViewOk(c, a)
    ensures var c' := Exec(c, Read(a, id));
      && View(c', a) == View(c, a) && TxOf(c', a).writes == TxOf(c, a).writes && c'.now == c.now
      && (id in View(c, a) ==> id in TxOf(c', a).seen && TxOf(c', a).seen[id] == View(c, a)[id] && RowInv(View(c, a)[id]))
      && Evolves(TxOf(c, a).seen, TxOf(c', a).seen)
  {
  }

  lemma ExecuteFacts(c: Config, a: Actor, id: JobId, u: Update)
    requires ViewOk(c, a) && Enabled(c, Execute(a, id, u))
    ensures var c', r := Exec(c, Execute(a, id, u)), View(c, a)[id];
      && c'.now == c.now
      && (u.Matches(r, c.now) ==>
            && View(c', a) == View(c, a)[id := u.Set(r, c.now)]
            && TxOf(c', a) == TxOf(c, a).(writes := TxOf(c, a).writes[id := u.Set(r, c.now)])
            && Reaches(r, u.Set(r, c.now)) && RowInv(u.Set(r, c.now)))
      && (!u.Matches(r, c.now) ==> TxOf(c', a) == (if u.MissRaises() then EMPTY_TX else TxOf(c, a)) && c'.db == c.db)
  {
    var r := View(c, a)[id];
    if u.Matches(r, c.now) {
      UpdateKeepsRow(u, r, c.now);
      assert c.db + TxOf(c, a).writes[id := u.Set(r, c.now)] == View(c, a)[id := u.Set(r, c.now)];
    }
  }

  lemma InsertFacts(c: Config, a: Actor, id: JobId, row: Row)
    requires Enabled(c, JobProtocol.Insert(a, id, row))
    ensures var c' := Exec(c, JobProtocol.Insert(a, id, row));
      && c'.now == c.now && View(c', a) == View(c, a)[id := row]
      && TxOf(c', a) == TxOf(c, a).(writes := TxOf(c, a).writes[id := row])
      && Evolves(View(c, a), View(c', a))
  {
    assert c.db + TxOf(c, a).writes[id := row] == View(c, a)[id := row];
  }
}
