// The job table shared by workers, recoverers and operators: committed rows, a
// clock, and the open transactions of any number of sessions. Sessions interleave
// statement by statement; a row written by an open transaction is locked until
// that transaction commits or rolls back, and nobody else sees the write before.

module JobProtocol {
  import opened Common
  import opened Contracts
  import opened JobRows

  type Actor = nat
  type Table = map<JobId, Row>

  // `seen` is what the session remembers from its SELECTs, `writes` its uncommitted rows.
  datatype Tx = Tx(seen: Table, writes: Table)

  // Who claimed a job, and with which lease length.
  datatype Driver = Driver(owner: Owner, lease: int)

  datatype Config = Config(db: Table, now: Instant, txs: map<Actor, Tx>, drivers: map<JobId, Driver>)

  const EMPTY_TX := Tx(map[], map[])

  const START := Config(map[], 0, map[], map[])

  // PROTECTED_DISCOVERY_JOB_ID: never claimed, recovered or abandoned.
  const PROTECTED: JobId := 0

  function TxOf(c: Config, a: Actor): Tx {
    if a in c.txs then c.txs[a] else EMPTY_TX
  }

  /** What a session's statements see: committed rows overlaid with its own writes. */
  function View(c: Config, a: Actor): Table {
    c.db + TxOf(c, a).writes
  }

  predicate LockedByOther(c: Config, a: Actor, id: JobId) {
    exists b | b in c.txs :: b != a && id in c.txs[b].writes
  }

  // ------------------------------------------------------------- table facts

  ghost predicate Evolves(m: Table, m': Table) {
    forall id | id in m :: id in m' && Reaches(m[id], m'[id])
  }

  ghost predicate CancelJustified(m: Table, r: Row) {
    || r.cancelRequestedAt.Some?
    || (r.parent.Some? && r.parent.value in m && m[r.parent.value].cancelRequestedAt.Some?)
  }

  predicate SameKey(r: Row, q: Row) {
    r.tenant == q.tenant && r.target == q.target
  }

  ghost predicate UniqueActive(m: Table) {
    forall i, j | i in m && j in m && i != j && m[i].state.IsActive() && m[j].state.IsActive() ::
      !SameKey(m[i], m[j])
  }

  ghost predicate RowOk(m: Table, r: Row) {
    && RowInv(r)
    && (r.parent.Some? ==> r.parent.value in m && m[r.parent.value].parent.None?)
    && (r.state.Cancelled? ==> CancelJustified(m, r))
  }

  /** Rows are well formed, trees have depth one, every cancelled row was asked to
      stop, and no two active rows share a tenant and target. */
  ghost predicate Sound(m: Table) {
    && (forall id | id in m :: RowOk(m, m[id]))
    && UniqueActive(m)
  }

  // --------------------------------------------------------------- invariant

  /** An open transaction never renews or claims: those commit at once. */
  ghost predicate KeepsLeases(db: Table, writes: Table) {
    forall id | id in writes && writes[id].state.Running? ::
      && id in db && db[id].state.Running?
      && writes[id].owner == db[id].owner
      && writes[id].leaseExpiresAt == db[id].leaseExpiresAt
      && writes[id].heartbeatAt == db[id].heartbeatAt
  }

  ghost predicate TxOk(db: Table, tx: Tx) {
    && Evolves(db, db + tx.writes)
    && Sound(db + tx.writes)
    && Evolves(tx.seen, db + tx.writes)
    && KeepsLeases(db, tx.writes)
  }

  ghost predicate LocksDisjoint(c: Config) {
    forall a, b, id | a in c.txs && b in c.txs && id in c.txs[a].writes && id in c.txs[b].writes :: a == b
  }

  ghost predicate CrossUnique(w: Table, w': Table) {
    forall i, j | i in w && j in w' && w[i].state.IsActive() && w'[j].state.IsActive() :: !SameKey(w[i], w'[j])
  }

  /** A running row carries its driver's token and an unexpired-from-heartbeat lease;
      a running child of a running root shares both with the root. */
  ghost predicate LeaseOk(db: Table, now: Instant, drivers: map<JobId, Driver>, id: JobId)
    requires id in db
  {
    var r := db[id];
    r.state.Running? ==>
      && id in drivers
      && r.owner == Some(drivers[id].owner)
      && r.heartbeatAt.Some? && r.heartbeatAt.value <= now
      && r.leaseExpiresAt == Some(r.heartbeatAt.value + drivers[id].lease)
      && (r.parent.Some? ==>
            && r.parent.value in drivers && drivers[r.parent.value] == drivers[id]
            && (r.parent.value in db && db[r.parent.value].state.Running? && db[r.parent.value].heartbeatAt.Some?
                ==> db[r.parent.value].heartbeatAt.value <= r.heartbeatAt.value))
  }

  ghost predicate LeasesOk(db: Table, now: Instant, drivers: map<JobId, Driver>) {
    && (forall id | id in drivers :: id in db && !db[id].state.Queued?)
    && (forall id | id in db :: LeaseOk(db, now, drivers, id))
  }

  ghost predicate Inv(c: Config) {
    && LocksDisjoint(c)
    && Sound(c.db)
    && (forall a | a in c.txs :: TxOk(c.db, c.txs[a]))
    && (forall a, b | a in c.txs && b in c.txs && a != b :: CrossUnique(c.txs[a].writes, c.txs[b].writes))
    && LeasesOk(c.db, c.now, c.drivers)
  }

  // ------------------------------------------------------------------- steps

  datatype Step =
    | Tick(elapsed: nat)
    | Read(actor: Actor, id: JobId)
    | Claim(actor: Actor, id: JobId, owner: Owner, lease: int)
    | Renew(actor: Actor, id: JobId, owner: Owner, lease: int)
    | Execute(actor: Actor, id: JobId, update: Update)
    | Insert(actor: Actor, id: JobId, row: Row)
    | Commit(actor: Actor)
    | Rollback(actor: Actor)

  predicate KnownCancelled(seen: Table, id: JobId) {
    id in seen && (seen[id].cancelRequestedAt.Some? || seen[id].state.Cancelled?)
  }

  /** What the code has checked, from rows it read earlier, before it issues `u` on `id`. */
  predicate LicensedIn(view: Table, seen: Table, id: JobId, u: Update)
    requires id in view
  {
    && u.WellFormed()
    && (u.Transition? || u.RequestCancellation? ==> id in seen && seen[id].state == u.read)
    && (u.Cancels(view[id]) && !u.ResolveStale? && !u.RequestCancellation? ==>
          || (id in seen && seen[id].cancelRequestedAt.Some?)
          || (view[id].parent.Some? && KnownCancelled(seen, view[id].parent.value)))
  }

  predicate InsertConflict(c: Config, a: Actor, row: Row) {
    exists b | b in c.txs :: b != a && exists j | j in c.txs[b].writes ::
      SameKey(c.txs[b].writes[j], row) &&
      (c.txs[b].writes[j].state.IsActive() || (j in c.db && c.db[j].state.IsActive()))
  }

  predicate KeyIsActive(m: Table, row: Row) {
    exists j | j in m :: SameKey(m[j], row) && m[j].state.IsActive()
  }

  /** Whether the step can be taken now; a statement on a locked row waits. */
  predicate Enabled(c: Config, s: Step) {
    match s
    case Tick(_) => true
    case Read(_, _) => true
    case Claim(a, id, owner, lease) =>
      && TxOf(c, a).writes == map[] && id in c.db && !LockedByOther(c, a, id)
      && id != PROTECTED && lease > 0
      // Children are claimed with the token and lease of the worker that drives the root.
      && (c.db[id].parent.Some? ==>
            c.db[id].parent.value in c.drivers && c.drivers[c.db[id].parent.value] == Driver(owner, lease))
    case Renew(a, root, owner, lease) =>
      && TxOf(c, a).writes == map[]
      && root in c.db && c.db[root].parent.None?
      && root in c.drivers && c.drivers[root] == Driver(owner, lease)
      && (forall id | id in c.db && RenewMatches(id, c.db[id], root, owner) :: !LockedByOther(c, a, id))
    case Execute(a, id, u) =>
      id in View(c, a) && !LockedByOther(c, a, id) && LicensedIn(View(c, a), TxOf(c, a).seen, id, u)
    case Insert(a, id, row) =>
      && id !in View(c, a) && !LockedByOther(c, a, id)
      && row == NewRow(row.tenant, row.target, row.parent)
      && (row.parent.Some? ==> row.parent.value in View(c, a) && View(c, a)[row.parent.value].parent.None?)
      && !InsertConflict(c, a, row)
      && !KeyIsActive(View(c, a), row)
    case Commit(_) => true
    case Rollback(_) => true
  }

  function WithTx(c: Config, a: Actor, tx: Tx): Config {
    c.(txs := c.txs[a := tx])
  }

  function WriteRow(c: Config, a: Actor, id: JobId, r: Row): Config {
    WithTx(c, a, TxOf(c, a).(writes := TxOf(c, a).writes[id := r]))
  }

  function Abort(c: Config, a: Actor): Config {
    WithTx(c, a, EMPTY_TX)
  }

  /** Publishes rows and ends the transaction; the session keeps its memory. */
  function Publish(c: Config, a: Actor, w: Table): Config {
    WithTx(c, a, TxOf(c, a).(writes := map[])).(db := c.db + w)
  }

  predicate ClaimSucceeds(c: Config, s: Step) {
    s.Claim? && Enabled(c, s) && ClaimMatches(c.db[s.id])
  }

  function Renewed(c: Config, root: JobId, owner: Owner, lease: int): Table {
    map id | id in c.db && RenewMatches(id, c.db[id], root, owner) :: RenewSet(c.db[id], lease, c.now)
  }

  function Exec(c: Config, s: Step): Config {
    if !Enabled(c, s) then c else
    match s
    case Tick(elapsed) => c.(now := c.now + elapsed)
    case Read(a, id) =>
      if id in View(c, a)
      then WithTx(c, a, TxOf(c, a).(seen := TxOf(c, a).seen[id := View(c, a)[id]]))
      else c
    case Claim(a, id, owner, lease) =>
      if ClaimMatches(c.db[id])
      then Publish(c, a, map[id := ClaimSet(c.db[id], owner, lease, c.now)])
             .(drivers := c.drivers[id := Driver(owner, lease)])
      else Abort(c, a)
    case Renew(a, root, owner, lease) =>
      if Renewed(c, root, owner, lease) == map[] then Abort(c, a)
      else Publish(c, a, Renewed(c, root, owner, lease))
    case Execute(a, id, u) =>
      if u.Matches(View(c, a)[id], c.now) then WriteRow(c, a, id, u.Set(View(c, a)[id], c.now))
      else if u.MissRaises() then Abort(c, a)
      else c
    case Insert(a, id, row) => WriteRow(c, a, id, row)
    case Commit(a) => Publish(c, a, TxOf(c, a).writes)
    case Rollback(a) => Abort(c, a)
  }

  function After(c: Config, steps: seq<Step>): Config
    decreases |steps|
  {
    if steps == [] then c else After(Exec(c, steps[0]), steps[1..])
  }

  // --------------------------------------------------- preservation: tables

  lemma EvolvesReflexive(m: Table)
    ensures Evolves(m, m)
  {
  }

  lemma EvolvesTransitive(m: Table, m': Table, m'': Table)
    requires Evolves(m, m') && Evolves(m', m'')
    ensures Evolves(m, m'')
  {
    forall id | id in m ensures id in m'' && Reaches(m[id], m''[id]) {
      ReachesTransitive(m[id], m'[id], m''[id]);
    }
  }

  lemma SoundUpdates(m: Table, w: Table)
    requires Sound(m) && w.Keys <= m.Keys
    requires forall id | id in w :: RowInv(w[id]) && Reaches(m[id], w[id])
    requires forall id | id in w && w[id].state.Cancelled? :: CancelJustified(m, w[id])
    ensures Sound(m + w) && Evolves(m, m + w)
  {
    var m' := m + w;
    assert Evolves(m, m');
    forall k | k in m' ensures RowOk(m', m'[k]) {
      assert RowOk(m, m[k]);
      assert RowOk(m, m'[k]);
      RowOkLater(m, m', m'[k]);
    }
  }

  lemma SoundInsert(m: Table, id: JobId, r: Row)
    requires Sound(m) && id !in m && r == NewRow(r.tenant, r.target, r.parent)
    requires r.parent.Some? ==> r.parent.value in m && m[r.parent.value].parent.None?
    requires !KeyIsActive(m, r)
    ensures Sound(m[id := r]) && Evolves(m, m[id := r])
  {
    var m' := m[id := r];
    assert Evolves(m, m');
    forall k | k in m' ensures RowOk(m', m'[k]) {
      RowOkLater(m, m', m'[k]);
    }
  }

  lemma MergeEvolves(db: Table, w: Table, w': Table)
    requires Evolves(db, db + w) && Evolves(db, db + w')
    requires w.Keys !! w'.Keys
    ensures Evolves(db + w, db + w + w') && Evolves(db + w', db + w + w')
  {
    var v, v', m := db + w, db + w', db + w + w';
    forall id | id in v ensures id in m && Reaches(v[id], m[id]) {
      if id in w' && id in db { assert id !in w; assert v[id] == db[id]; assert m[id] == v'[id]; }
    }
    forall id | id in v' ensures id in m && Reaches(v'[id], m[id]) {
      if id in w && id in db { assert id !in w'; assert v'[id] == db[id]; assert m[id] == v[id]; }
    }
  }

  lemma RowOkLater(m: Table, m': Table, r: Row)
    requires RowOk(m, r) && Evolves(m, m')
    ensures RowOk(m', r)
  {
  }

  /** Two transactions that hold different locks, each sound on its own view,
      are sound together. */
  lemma MergeSound(db: Table, w: Table, w': Table)
    requires Sound(db + w) && Sound(db + w')
    requires Evolves(db, db + w) && Evolves(db, db + w')
    requires w.Keys !! w'.Keys
    requires CrossUnique(w, w')
    ensures Sound(db + w + w') && Evolves(db + w, db + w + w') && Evolves(db + w', db + w + w')
  {
    MergeEvolves(db, w, w');
    MergeRows(db + w, db + w', db + w + w');
    assert UniqueActive(db + w + w') by {
      var m := db + w + w';
      forall i, j | i in m && j in m && i != j && m[i].state.IsActive() && m[j].state.IsActive()
        ensures !SameKey(m[i], m[j])
      {
        MergeKeyPair(db, w, w', i, j);
      }
    }
  }

  lemma MergeRows(v: Table, v': Table, m: Table)
    requires forall id | id in v :: RowOk(v, v[id])
    requires forall id | id in v' :: RowOk(v', v'[id])
    requires Evolves(v, m) && Evolves(v', m)
    requires forall id | id in m :: (id in v && m[id] == v[id]) || (id in v' && m[id] == v'[id])
    ensures forall id | id in m :: RowOk(m, m[id])
  {
    forall id | id in m ensures RowOk(m, m[id]) {
      if id in v && m[id] == v[id] { RowOkLater(v, m, m[id]); } else { RowOkLater(v', m, m[id]); }
    }
  }

  lemma MergeKeyPair(db: Table, w: Table, w': Table, i: JobId, j: JobId)
    requires UniqueActive(db + w) && UniqueActive(db + w') && w.Keys !! w'.Keys && CrossUnique(w, w')
    requires i in db + w + w' && j in db + w + w' && i != j
    requires (db + w + w')[i].state.IsActive() && (db + w + w')[j].state.IsActive()
    ensures !SameKey((db + w + w')[i], (db + w + w')[j])
  {
    var v, v', m := db + w, db + w', db + w + w';
    if i in w && j in w' {
      assert m[i] == w[i] && m[j] == w'[j];
    } else if i in w' && j in w {
      assert m[j] == w[j] && m[i] == w'[i];
    } else if i in w' || j in w' {
      assert m[i] == v'[i] && m[j] == v'[j];
    } else {
      assert m[i] == v[i] && m[j] == v[j];
    }
  }

  // -------------------------------------------------- preservation: configs

  /** Replacing one session's transaction by a sound one. */
  lemma WithTxKeeps(c: Config, a: Actor, tx: Tx)
    requires Inv(c) && TxOk(c.db, tx)
    requires forall id | id in tx.writes :: !LockedByOther(c, a, id)
    requires forall b | b in c.txs && b != a ::
      CrossUnique(tx.writes, c.txs[b].writes) && CrossUnique(c.txs[b].writes, tx.writes)
    ensures Inv(WithTx(c, a, tx))
  {
    var c' := WithTx(c, a, tx);
    assert LocksDisjoint(c') by {
      forall x, y, id | x in c'.txs && y in c'.txs && id in c'.txs[x].writes && id in c'.txs[y].writes
        ensures x == y
      {
        if x == a { assert id in tx.writes; } else { assert x in c.txs && id in c.txs[x].writes; }
      }
    }
  }

  lemma TxIsOk(c: Config, a: Actor)
    requires Inv(c)
    ensures TxOk(c.db, TxOf(c, a))
    ensures forall id | id in TxOf(c, a).writes :: !LockedByOther(c, a, id)
  {
    if a !in c.txs { EmptyTxOk(c.db, map[]); }
  }

  lemma EmptyTxOk(db: Table, seen: Table)
    requires Sound(db) && Evolves(seen, db)
    ensures TxOk(db, Tx(seen, map[]))
  {
    assert db + map[] == db;
  }

  lemma PublishKeeps(c: Config, a: Actor, w: Table, drivers: map<JobId, Driver>)
    requires Inv(c)
    requires forall id | id in w :: !LockedByOther(c, a, id)
    requires Sound(c.db + w) && Evolves(c.db, c.db + w) && Evolves(View(c, a), c.db + w)
    requires forall b | b in c.txs && b != a :: CrossUnique(w, c.txs[b].writes)
    requires LeasesOk(c.db + w, c.now, drivers)
    ensures Inv(Publish(c, a, w).(drivers := drivers))
  {
    var c' := Publish(c, a, w).(drivers := drivers);
    forall b | b in c'.txs ensures TxOk(c'.db, c'.txs[b]) {
      if b == a { OwnUnmoved(c, a, w); } else { OthersUnmoved(c, a, w, b); }
    }
    PublishAssemble(c, c', a);
  }

  lemma PublishAssemble(c: Config, c': Config, a: Actor)
    requires LocksDisjoint(c)
    requires forall x, y | x in c.txs && y in c.txs && x != y :: CrossUnique(c.txs[x].writes, c.txs[y].writes)
    requires a in c'.txs && c'.txs[a].writes == map[]
    requires forall b | b in c'.txs && b != a :: b in c.txs && c'.txs[b] == c.txs[b]
    requires Sound(c'.db) && LeasesOk(c'.db, c'.now, c'.drivers)
    requires forall b | b in c'.txs :: TxOk(c'.db, c'.txs[b])
    ensures Inv(c')
  {
  }

  lemma OwnUnmoved(c: Config, a: Actor, w: Table)
    requires Inv(c) && Sound(c.db + w) && Evolves(View(c, a), c.db + w)
    ensures TxOk(c.db + w, TxOf(c, a).(writes := map[]))
  {
    TxIsOk(c, a);
    EvolvesTransitive(TxOf(c, a).seen, View(c, a), c.db + w);
    EmptyTxOk(c.db + w, TxOf(c, a).seen);
  }

  /** A commit leaves every other open transaction sound. */
  lemma OthersUnmoved(c: Config, a: Actor, w: Table, b: Actor)
    requires Inv(c) && b in c.txs && b != a
    requires forall id | id in w :: !LockedByOther(c, a, id)
    requires Sound(c.db + w) && Evolves(c.db, c.db + w) && CrossUnique(w, c.txs[b].writes)
    ensures TxOk(c.db + w, c.txs[b])
  {
    var tx := c.txs[b];
    assert TxOk(c.db, tx);
    assert w.Keys !! tx.writes.Keys by {
      forall id | id in w ensures id !in tx.writes { assert !LockedByOther(c, a, id); }
    }
    MergeSound(c.db, w, tx.writes);
    EvolvesTransitive(tx.seen, c.db + tx.writes, c.db + w + tx.writes);
  }

  lemma OwnWritesUnlocked(c: Config, a: Actor)
    requires LocksDisjoint(c)
    ensures forall id | id in TxOf(c, a).writes :: !LockedByOther(c, a, id)
  {
  }

  lemma OwnWritesCross(c: Config, a: Actor)
    requires forall x, y | x in c.txs && y in c.txs && x != y :: CrossUnique(c.txs[x].writes, c.txs[y].writes)
    ensures forall b | b in c.txs && b != a :: CrossUnique(TxOf(c, a).writes, c.txs[b].writes)
  {
  }

  lemma CommitKeeps(c: Config, a: Actor)
    requires Inv(c)
    ensures Inv(Exec(c, Commit(a)))
  {
    var w := TxOf(c, a).writes;
    TxIsOk(c, a);
    OwnWritesUnlocked(c, a);
    OwnWritesCross(c, a);
    EvolvesReflexive(c.db + w);
    CommitKeepsLeases(c.db, w, c.now, c.drivers);
    PublishKeeps(c, a, w, c.drivers);
  }

  lemma CommitKeepsLeases(db: Table, w: Table, now: Instant, drivers: map<JobId, Driver>)
    requires LeasesOk(db, now, drivers) && KeepsLeases(db, w) && Evolves(db, db + w)
    ensures LeasesOk(db + w, now, drivers)
  {
    forall id | id in db + w ensures LeaseOk(db + w, now, drivers, id) {
      if (db + w)[id].state.Running? {
        assert LeaseOk(db, now, drivers, id);
        var parent := (db + w)[id].parent;
        if parent.Some? && parent.value in db + w && (db + w)[parent.value].state.Running? {
          assert parent.value in db && db[parent.value].state.Running?;
        }
      }
    }
  }

  lemma ClaimCrosses(c: Config, s: Step, b: Actor)
    requires Inv(c) && ClaimSucceeds(c, s) && b in c.txs && b != s.actor
    ensures CrossUnique(map[s.id := ClaimSet(c.db[s.id], s.owner, s.lease, c.now)], c.txs[b].writes)
  {
    WriteCrosses(c, s.actor, b, s.id, ClaimSet(c.db[s.id], s.owner, s.lease, c.now));
  }

  lemma ClaimKeeps(c: Config, s: Step)
    requires Inv(c) && ClaimSucceeds(c, s)
    ensures Inv(Exec(c, s))
  {
    ClaimSound(c.db, s.id, s.owner, s.lease, c.now);
    ClaimKeepsLeases(c, s);
    ClaimCrossesAll(c, s);
    RowPublished(c, s.actor, s.id, ClaimSet(c.db[s.id], s.owner, s.lease, c.now),
      c.drivers[s.id := Driver(s.owner, s.lease)]);
  }

  lemma ClaimCrossesAll(c: Config, s: Step)
    requires Inv(c) && ClaimSucceeds(c, s)
    ensures forall b | b in c.txs && b != s.actor ::
      CrossUnique(map[s.id := ClaimSet(c.db[s.id], s.owner, s.lease, c.now)], c.txs[b].writes)
  {
    forall b | b in c.txs && b != s.actor
      ensures CrossUnique(map[s.id := ClaimSet(c.db[s.id], s.owner, s.lease, c.now)], c.txs[b].writes)
    {
      ClaimCrosses(c, s, b);
    }
  }

  /** One row published by a session without pending writes. */
  lemma RowPublished(c: Config, a: Actor, id: JobId, r: Row, drivers: map<JobId, Driver>)
    requires Inv(c) && TxOf(c, a).writes == map[] && !LockedByOther(c, a, id)
    requires Sound(c.db + map[id := r]) && Evolves(c.db, c.db + map[id := r])
    requires forall b | b in c.txs && b != a :: CrossUnique(map[id := r], c.txs[b].writes)
    requires LeasesOk(c.db + map[id := r], c.now, drivers)
    ensures Inv(Publish(c, a, map[id := r]).(drivers := drivers))
  {
    assert View(c, a) == c.db;
    PublishKeeps(c, a, map[id := r], drivers);
  }

  lemma ClaimSound(db: Table, id: JobId, owner: Owner, lease: int, now: Instant)
    requires Sound(db) && id in db && ClaimMatches(db[id])
    ensures Sound(db + map[id := ClaimSet(db[id], owner, lease, now)])
    ensures Evolves(db, db + map[id := ClaimSet(db[id], owner, lease, now)])
  {
    assert RowOk(db, db[id]);
    ClaimKeepsRow(db[id], owner, lease, now);
    SoundUpdates(db, map[id := ClaimSet(db[id], owner, lease, now)]);
  }

  lemma ClaimKeepsLeases(c: Config, s: Step)
    requires LeasesOk(c.db, c.now, c.drivers) && ClaimSucceeds(c, s)
    ensures LeasesOk(c.db + map[s.id := ClaimSet(c.db[s.id], s.owner, s.lease, c.now)], c.now,
                     c.drivers[s.id := Driver(s.owner, s.lease)])
  {
    var db' := c.db + map[s.id := ClaimSet(c.db[s.id], s.owner, s.lease, c.now)];
    var drivers := c.drivers[s.id := Driver(s.owner, s.lease)];
    forall id | id in db' ensures LeaseOk(db', c.now, drivers, id) {
      assert LeaseOk(c.db, c.now, c.drivers, id);
      if id == s.id && db'[id].parent.Some? && db'[id].parent.value in c.db {
        assert LeaseOk(c.db, c.now, c.drivers, db'[id].parent.value);
      }
    }
  }

  lemma OwnRowCrosses(w: Table, other: Table, id: JobId)
    requires CrossUnique(w, other) && id in w
    ensures CrossUnique(map[id := w[id]], other)
  {
  }

  lemma CommittedRowCrosses(db: Table, other: Table, id: JobId)
    requires UniqueActive(db + other) && id in db && id !in other
    ensures CrossUnique(map[id := db[id]], other)
  {
    forall j | j in other && other[j].state.IsActive() && db[id].state.IsActive() ensures !SameKey(db[id], other[j]) {
      assert (db + other)[id] == db[id] && (db + other)[j] == other[j];
    }
  }

  lemma RewriteCrosses(id: JobId, before: Row, r: Row, other: Table)
    requires CrossUnique(map[id := before], other) && SameKey(before, r)
    requires r.state.IsActive() ==> before.state.IsActive()
    ensures CrossUnique(map[id := r], other) && CrossUnique(other, map[id := r])
  {
    assert id in map[id := before];
  }

  /** Rewriting an unlocked row cannot clash with another transaction's active rows. */
  lemma WriteCrosses(c: Config, a: Actor, b: Actor, id: JobId, r: Row)
    requires Inv(c) && b in c.txs && b != a && !LockedByOther(c, a, id)
    requires id in View(c, a) && SameKey(View(c, a)[id], r) && (r.state.IsActive() ==> View(c, a)[id].state.IsActive())
    ensures CrossUnique(map[id := r], c.txs[b].writes)
    ensures CrossUnique(c.txs[b].writes, map[id := r])
  {
    if a in c.txs && id in c.txs[a].writes {
      OwnRowCrosses(c.txs[a].writes, c.txs[b].writes, id);
    } else {
      assert TxOk(c.db, c.txs[b]);
      CommittedRowCrosses(c.db, c.txs[b].writes, id);
    }
    RewriteCrosses(id, View(c, a)[id], r, c.txs[b].writes);
  }

  lemma RenewSound(db: Table, now: Instant, root: JobId, owner: Owner, lease: int, w: Table)
    requires Sound(db) && w == map id | id in db && RenewMatches(id, db[id], root, owner) :: RenewSet(db[id], lease, now)
    ensures Sound(db + w) && Evolves(db, db + w)
  {
    forall id | id in w ensures RowInv(w[id]) && Reaches(db[id], w[id]) {
      assert RowOk(db, db[id]);
      RenewKeepsRow(id, db[id], root, owner, lease, now);
    }
    SoundUpdates(db, w);
  }

  lemma RenewCrosses(c: Config, s: Step, b: Actor)
    requires Inv(c) && s.Renew? && Enabled(c, s) && b in c.txs && b != s.actor
    ensures CrossUnique(Renewed(c, s.id, s.owner, s.lease), c.txs[b].writes)
  {
    var w := Renewed(c, s.id, s.owner, s.lease);
    forall i, j | i in w && j in c.txs[b].writes && w[i].state.IsActive() && c.txs[b].writes[j].state.IsActive()
      ensures !SameKey(w[i], c.txs[b].writes[j])
    {
      WriteCrosses(c, s.actor, b, i, w[i]);
      assert i in map[i := w[i]];
    }
  }

  lemma RenewKeeps(c: Config, s: Step)
    requires Inv(c) && s.Renew? && Enabled(c, s)
    ensures Inv(Exec(c, s))
  {
    var w := Renewed(c, s.id, s.owner, s.lease);
    if w == map[] { AbortKeeps(c, s.actor); return; }
    RenewSound(c.db, c.now, s.id, s.owner, s.lease, w);
    assert View(c, s.actor) == c.db;
    forall b | b in c.txs && b != s.actor ensures CrossUnique(w, c.txs[b].writes) {
      RenewCrosses(c, s, b);
    }
    RenewKeepsLeases(c, s);
    PublishKeeps(c, s.actor, w, c.drivers);
  }

  lemma RenewKeepsLeases(c: Config, s: Step)
    requires Sound(c.db) && LeasesOk(c.db, c.now, c.drivers) && s.Renew? && Enabled(c, s)
    ensures LeasesOk(c.db + Renewed(c, s.id, s.owner, s.lease), c.now, c.drivers)
  {
    var w := Renewed(c, s.id, s.owner, s.lease);
    forall id | id in c.db + w ensures LeaseOk(c.db + w, c.now, c.drivers, id) {
      RenewedLeaseOk(c, s, id);
    }
  }

  lemma RenewedLeaseOk(c: Config, s: Step, id: JobId)
    requires Sound(c.db) && LeasesOk(c.db, c.now, c.drivers) && s.Renew? && Enabled(c, s) && id in c.db
    ensures LeaseOk(c.db + Renewed(c, s.id, s.owner, s.lease), c.now, c.drivers, id)
  {
    assert LeaseOk(c.db, c.now, c.drivers, id);
    assert RowOk(c.db, c.db[id]);
    var parent := c.db[id].parent;
    if parent.Some? {
      assert RowOk(c.db, c.db[parent.value]);
      assert LeaseOk(c.db, c.now, c.drivers, parent.value);
    }
  }

  lemma AbortKeeps(c: Config, a: Actor)
    requires Inv(c)
    ensures Inv(Abort(c, a))
  {
    EmptyTxOk(c.db, map[]);
    WithTxKeeps(c, a, EMPTY_TX);
  }

  lemma WriteTxOk(db: Table, tx: Tx, id: JobId, r: Row)
    requires TxOk(db, tx) && KeepsLeases(db, map[id := r])
    requires Sound((db + tx.writes)[id := r]) && Evolves(db + tx.writes, (db + tx.writes)[id := r])
    ensures TxOk(db, tx.(writes := tx.writes[id := r]))
  {
    var v' := (db + tx.writes)[id := r];
    assert db + tx.writes[id := r] == v';
    EvolvesTransitive(db, db + tx.writes, v');
    EvolvesTransitive(tx.seen, db + tx.writes, v');
    WriteKeepsLeases(db, tx.writes, id, r);
  }

  lemma WriteKeepsLeases(db: Table, w: Table, id: JobId, r: Row)
    requires KeepsLeases(db, w) && KeepsLeases(db, map[id := r])
    ensures KeepsLeases(db, w[id := r])
  {
    assert id in map[id := r];
  }

  lemma CrossAdd(w: Table, id: JobId, r: Row, other: Table)
    requires CrossUnique(w, other) && CrossUnique(other, w)
    requires CrossUnique(map[id := r], other) && CrossUnique(other, map[id := r])
    ensures CrossUnique(w[id := r], other) && CrossUnique(other, w[id := r])
  {
    assert id in map[id := r];
  }

  lemma WriteKeeps(c: Config, a: Actor, id: JobId, r: Row)
    requires Inv(c) && !LockedByOther(c, a, id)
    requires Sound(View(c, a)[id := r]) && Evolves(View(c, a), View(c, a)[id := r])
    requires KeepsLeases(c.db, map[id := r])
    requires forall b | b in c.txs && b != a ::
      CrossUnique(map[id := r], c.txs[b].writes) && CrossUnique(c.txs[b].writes, map[id := r])
    ensures Inv(WriteRow(c, a, id, r))
  {
    var tx := TxOf(c, a);
    var tx' := tx.(writes := tx.writes[id := r]);
    TxIsOk(c, a);
    WriteTxOk(c.db, tx, id, r);
    forall b | b in c.txs && b != a
      ensures CrossUnique(tx'.writes, c.txs[b].writes) && CrossUnique(c.txs[b].writes, tx'.writes)
    {
      if a !in c.txs { assert CrossUnique(map[], c.txs[b].writes) && CrossUnique(c.txs[b].writes, map[]); }
      CrossAdd(tx.writes, id, r, c.txs[b].writes);
    }
    WithTxKeeps(c, a, tx');
  }

  lemma ExecuteKeeps(c: Config, s: Step)
    requires Inv(c) && s.Execute? && Enabled(c, s) && s.update.Matches(View(c, s.actor)[s.id], c.now)
    ensures Inv(Exec(c, s))
  {
    var a, id, u := s.actor, s.id, s.update;
    var v := View(c, a);
    var r' := u.Set(v[id], c.now);
    TxIsOk(c, a);
    ExecuteSound(c.db, TxOf(c, a), c.now, id, u);
    ExecuteKeepsLeases(c.db, TxOf(c, a), c.now, id, u);
    forall b | b in c.txs && b != a ensures
      CrossUnique(map[id := r'], c.txs[b].writes) && CrossUnique(c.txs[b].writes, map[id := r'])
    {
      WriteCrosses(c, a, b, id, r');
    }
    WriteKeeps(c, a, id, r');
  }

  lemma OneRowSound(v: Table, id: JobId, r: Row)
    requires Sound(v) && id in v && RowInv(r) && Reaches(v[id], r) && (r.state.Cancelled? ==> CancelJustified(v, r))
    ensures Sound(v[id := r]) && Evolves(v, v[id := r])
  {
    SoundUpdates(v, map[id := r]);
    assert v + map[id := r] == v[id := r];
  }

  lemma UpdateActive(u: Update, r: Row, now: Instant)
    requires u.WellFormed() && u.Matches(r, now) && RowInv(r)
    ensures SameKey(r, u.Set(r, now)) && (u.Set(r, now).state.IsActive() ==> r.state.IsActive())
  {
  }

  lemma ExecuteSound(db: Table, tx: Tx, now: Instant, id: JobId, u: Update)
    requires Sound(db + tx.writes) && Evolves(tx.seen, db + tx.writes) && id in db + tx.writes
    requires LicensedIn(db + tx.writes, tx.seen, id, u) && u.Matches((db + tx.writes)[id], now)
    ensures Sound((db + tx.writes)[id := u.Set((db + tx.writes)[id], now)])
    ensures Evolves(db + tx.writes, (db + tx.writes)[id := u.Set((db + tx.writes)[id], now)])
    ensures SameKey((db + tx.writes)[id], u.Set((db + tx.writes)[id], now))
    ensures u.Set((db + tx.writes)[id], now).state.IsActive() ==> (db + tx.writes)[id].state.IsActive()
  {
    var v := db + tx.writes;
    assert RowOk(v, v[id]);
    UpdateKeepsRow(u, v[id], now);
    UpdateActive(u, v[id], now);
    if u.Set(v[id], now).state.Cancelled? { CancelIsJustified(v, tx.seen, now, id, u); }
    OneRowSound(v, id, u.Set(v[id], now));
  }

  lemma ExecuteKeepsLeases(db: Table, tx: Tx, now: Instant, id: JobId, u: Update)
    requires KeepsLeases(db, tx.writes) && id in db + tx.writes && u.WellFormed() && u.Matches((db + tx.writes)[id], now)
    ensures KeepsLeases(db, map[id := u.Set((db + tx.writes)[id], now)])
  {
    if id in tx.writes && (db + tx.writes)[id].state.Running? { assert tx.writes[id].state.Running?; }
  }

  /** The read that licensed a cancellation is still true when it is written. */
  lemma CancelIsJustified(v: Table, seen: Table, now: Instant, id: JobId, u: Update)
    requires Sound(v) && Evolves(seen, v) && id in v && LicensedIn(v, seen, id, u) && u.Matches(v[id], now)
    requires u.Set(v[id], now).state.Cancelled?
    ensures CancelJustified(v, u.Set(v[id], now))
  {
    assert RowOk(v, v[id]);
    if u.Cancels(v[id]) && !u.ResolveStale? && !u.RequestCancellation? && !(id in seen && seen[id].cancelRequestedAt.Some?) {
      var p := v[id].parent.value;
      assert KnownCancelled(seen, p) && Reaches(seen[p], v[p]);
      assert RowOk(v, v[p]);
    }
  }

  lemma InsertKeeps(c: Config, s: Step)
    requires Inv(c) && s.Insert? && Enabled(c, s)
    ensures Inv(Exec(c, s))
  {
    var v := View(c, s.actor);
    TxIsOk(c, s.actor);
    SoundInsert(v, s.id, s.row);
    forall b | b in c.txs && b != s.actor
      ensures CrossUnique(map[s.id := s.row], c.txs[b].writes) && CrossUnique(c.txs[b].writes, map[s.id := s.row])
    {
      forall j | j in c.txs[b].writes && c.txs[b].writes[j].state.IsActive()
        ensures !SameKey(c.txs[b].writes[j], s.row) && !SameKey(s.row, c.txs[b].writes[j])
      {
        assert !InsertConflict(c, s.actor, s.row);
      }
    }
    WriteKeeps(c, s.actor, s.id, s.row);
  }

  lemma ReadKeeps(c: Config, s: Step)
    requires Inv(c) && s.Read?
    ensures Inv(Exec(c, s))
  {
    if s.id in View(c, s.actor) {
      TxIsOk(c, s.actor);
      WithTxKeeps(c, s.actor, TxOf(c, s.actor).(seen := TxOf(c, s.actor).seen[s.id := View(c, s.actor)[s.id]]));
    }
  }

  /** Every step of every session keeps the invariant. */
  lemma StepKeeps(c: Config, s: Step)
    requires Inv(c)
    ensures Inv(Exec(c, s))
  {
    if !Enabled(c, s) { return; }
    match s
    case Tick(_) =>
      forall id | id in c.db ensures LeaseOk(c.db, c.now + s.elapsed, c.drivers, id) {
        assert LeaseOk(c.db, c.now, c.drivers, id);
      }
    case Read(_, _) => ReadKeeps(c, s);
    case Claim(a, id, _, _) =>
      if ClaimMatches(c.db[id]) { ClaimKeeps(c, s); } else { AbortKeeps(c, a); }
    case Renew(_, _, _, _) => RenewKeeps(c, s);
    case Execute(a, id, u) =>
      if u.Matches(View(c, a)[id], c.now) { ExecuteKeeps(c, s); }
      else if u.MissRaises() { AbortKeeps(c, a); }
    case Insert(_, _, _) => InsertKeeps(c, s);
    case Commit(a) => CommitKeeps(c, a);
    case Rollback(a) => AbortKeeps(c, a);
  }
}
