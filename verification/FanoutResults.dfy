// The per-address results of a fanned-out job and what reconciliation makes of
// them (backend/app/discovery/fanout.py, reconcile_parent_job and _finalize_parent_run).

module FanoutResults {
  import opened Common
  import opened Contracts
  import opened JobRows
  import opened ResultStates
  import opened Texts

  datatype DeviceState = JobState(status: Status) | Discovering

  datatype DeviceResult = DeviceResult(
    address: Address, child: JobId, state: DeviceState, outcome: Option<ResultState>, failure: Option<FailureCode>)

  function QueuedResult(address: Address, child: JobId): DeviceResult {
    DeviceResult(address, child, JobState(Queued), None, None)
  }

  predicate Unfinished(r: DeviceResult) {
    r.outcome.None? || r.state in {JobState(Queued), JobState(Running), Discovering}
  }

  /** What reconciliation writes into a result that did not finish. */
  function Settle(r: DeviceResult, interrupted: bool): DeviceResult {
    if !Unfinished(r) then r
    else if interrupted then
      r.(state := JobState(Failed), outcome := Some(Interrupted), failure := Some(DISCOVERY_FAILED))
    else
      r.(state := JobState(Cancelled), outcome := Some(Stopped), failure := Some(CANCELLED))
  }

  predicate HasAddress(rs: seq<DeviceResult>, address: Address) {
    exists i | 0 <= i < |rs| :: rs[i].address == address
  }

  /** The result a dictionary built from the list, last one winning, holds for an expected address. */
  predicate Represents(rs: seq<DeviceResult>, expected: seq<Address>, i: nat)
    requires i < |rs|
  {
    rs[i].address in expected && !HasAddress(rs[i + 1..], rs[i].address)
  }

  /** Expected addresses without a result, in order. */
  function Missing(rs: seq<DeviceResult>, expected: seq<Address>): seq<Address> {
    if expected == [] then []
    else (if HasAddress(rs, expected[0]) then [] else [expected[0]]) + Missing(rs, expected[1..])
  }

  /** Reconciliation, seen from outside: representatives are settled in place, other
      results are untouched, and each missing address gets a settled new result. */
  ghost predicate IsReconciled(
    before: seq<DeviceResult>, after: seq<DeviceResult>, expected: seq<Address>, interrupted: bool)
  {
    var missing := Missing(before, expected);
    && |after| == |before| + |missing|
    && (forall i: nat | i < |before| ::
          after[i] == if Represents(before, expected, i) then Settle(before[i], interrupted) else before[i])
    && (forall k: nat | k < |missing| ::
          after[|before| + k] == Settle(QueuedResult(missing[k], after[|before| + k].child), interrupted))
  }

  lemma RepresentsMeansLast(rs: seq<DeviceResult>, expected: seq<Address>, i: nat)
    requires i < |rs|
    ensures Represents(rs, expected, i) <==>
      rs[i].address in expected && forall k | i < k < |rs| :: rs[k].address != rs[i].address
  {
    if Represents(rs, expected, i) {
      forall k | i < k < |rs| ensures rs[k].address != rs[i].address {
        assert rs[i + 1..][k - (i + 1)] == rs[k];
      }
    }
  }

  lemma {:induction false} MissingAppend(rs: seq<DeviceResult>, expected: seq<Address>, a: Address)
    ensures Missing(rs, expected + [a]) == Missing(rs, expected) + if HasAddress(rs, a) then [] else [a]
  {
    if expected == [] {
      assert [a][1..] == [];
      assert expected + [a] == [a];
    } else {
      assert (expected + [a])[1..] == expected[1..] + [a];
      MissingAppend(rs, expected[1..], a);
    }
  }

  /** One more expected address that already has a result. */
  lemma ReconcileExisting(
    before: seq<DeviceResult>, now: seq<DeviceResult>, expected: seq<Address>, interrupted: bool, a: Address, at: nat)
    requires IsReconciled(before, now, expected, interrupted)
    requires at < |before| && before[at].address == a && forall k | at < k < |before| :: before[k].address != a
    ensures IsReconciled(before, now[at := Settle(now[at], interrupted)], expected + [a], interrupted)
  {
    var after := now[at := Settle(now[at], interrupted)];
    assert HasAddress(before, a);
    MissingAppend(before, expected, a);
    forall i: nat | i < |before| ensures
      after[i] == if Represents(before, expected + [a], i) then Settle(before[i], interrupted) else before[i]
    {
      assert now[i] == if Represents(before, expected, i) then Settle(before[i], interrupted) else before[i];
      RepresentsMeansLast(before, expected, i);
      RepresentsMeansLast(before, expected + [a], i);
    }
    forall k: nat | k < |Missing(before, expected)| ensures
      after[|before| + k] == Settle(QueuedResult(Missing(before, expected)[k], after[|before| + k].child), interrupted)
    {
      assert now[|before| + k] == after[|before| + k];
    }
  }

  /** One more expected address without a result: a new one is appended. */
  lemma ReconcileMissing(
    before: seq<DeviceResult>, now: seq<DeviceResult>, expected: seq<Address>, interrupted: bool, a: Address, child: JobId)
    requires IsReconciled(before, now, expected, interrupted) && !HasAddress(before, a)
    ensures IsReconciled(before, now + [Settle(QueuedResult(a, child), interrupted)], expected + [a], interrupted)
  {
    var after := now + [Settle(QueuedResult(a, child), interrupted)];
    MissingAppend(before, expected, a);
    forall i: nat | i < |before| ensures
      after[i] == if Represents(before, expected + [a], i) then Settle(before[i], interrupted) else before[i]
    {
      assert now[i] == if Represents(before, expected, i) then Settle(before[i], interrupted) else before[i];
    }
    var missing := Missing(before, expected + [a]);
    forall k: nat | k < |missing| ensures
      after[|before| + k] == Settle(QueuedResult(missing[k], after[|before| + k].child), interrupted)
    {
      if k < |missing| - 1 { assert now[|before| + k] == after[|before| + k]; }
    }
  }

  // ----------------------------------------------------------------- summary

  function Bucket(rs: seq<DeviceResult>, state: ResultState): nat {
    if rs == [] then 0
    else (if rs[0].outcome == Some(state) then 1 else 0) + Bucket(rs[1..], state)
  }

  datatype Summary = Summary(
    totalScanned: nat, discovered: nat, unreachable: nat, reachableNoManagement: nat,
    authenticationFailed: nat, partialDiscovery: nat, unverified: nat, cancelled: nat, interrupted: nat,
    succeeded: bool)
  {
    function BucketSum(): nat {
      discovered + unreachable + reachableNoManagement + authenticationFailed
      + partialDiscovery + unverified + cancelled + interrupted
    }
  }

  function Summarize(expectedCount: nat, rs: seq<DeviceResult>): Summary {
    Summary(
      expectedCount, Bucket(rs, Discovered), Bucket(rs, Unreachable), Bucket(rs, ReachableNoManagement),
      Bucket(rs, AuthenticationFailed), Bucket(rs, PartialDiscovery), Bucket(rs, Unverified),
      Bucket(rs, Stopped), Bucket(rs, Interrupted),
      Bucket(rs, Discovered) > 0 && Bucket(rs, Stopped) == 0 && Bucket(rs, Interrupted) == 0)
  }

  ghost function WithOutcome(rs: seq<DeviceResult>, state: ResultState): (r: set<nat>) {
    set i: nat | i < |rs| && rs[i].outcome == Some(state)
  }

  lemma {:induction false} BucketSnoc(front: seq<DeviceResult>, last: DeviceResult, state: ResultState)
    ensures Bucket(front + [last], state) == Bucket(front, state) + if last.outcome == Some(state) then 1 else 0
  {
    if front == [] {
      assert front + [last] == [last];
    } else {
      assert (front + [last])[1..] == front[1..] + [last];
      BucketSnoc(front[1..], last, state);
    }
  }

  lemma {:induction false} BucketCounts(rs: seq<DeviceResult>, state: ResultState)
    ensures Bucket(rs, state) == |WithOutcome(rs, state)|
  {
    if rs == [] {
      assert WithOutcome(rs, state) == {};
    } else {
      var front, last := rs[..|rs| - 1], rs[|rs| - 1];
      assert rs == front + [last];
      BucketCounts(front, state);
      BucketSnoc(front, last, state);
      if last.outcome == Some(state) {
        assert WithOutcome(rs, state) == WithOutcome(front, state) + {|rs| - 1};
      } else {
        assert WithOutcome(rs, state) == WithOutcome(front, state);
      }
    }
  }

  /** Each total counts the results with its own outcome, and the run has succeeded exactly if
      some device was discovered and none was cancelled or interrupted. */
  lemma SummaryCounts(n: nat, rs: seq<DeviceResult>)
    ensures var s := Summarize(n, rs);
      && s.totalScanned == n && s.discovered == |WithOutcome(rs, Discovered)|
      && s.unreachable == |WithOutcome(rs, Unreachable)| && s.unverified == |WithOutcome(rs, Unverified)|
      && s.reachableNoManagement == |WithOutcome(rs, ReachableNoManagement)|
      && s.authenticationFailed == |WithOutcome(rs, AuthenticationFailed)|
      && s.partialDiscovery == |WithOutcome(rs, PartialDiscovery)|
      && s.cancelled == |WithOutcome(rs, Stopped)| && s.interrupted == |WithOutcome(rs, Interrupted)|
      && (s.succeeded <==>
            && (exists i :: 0 <= i < |rs| && rs[i].outcome == Some(Discovered))
            && forall i | 0 <= i < |rs| :: rs[i].outcome !in {Some(Stopped), Some(Interrupted)})
  {
    BucketCounts(rs, Discovered);
    BucketCounts(rs, Unreachable);
    BucketCounts(rs, ReachableNoManagement);
    BucketCounts(rs, AuthenticationFailed);
    BucketCounts(rs, PartialDiscovery);
    BucketCounts(rs, Unverified);
    BucketCounts(rs, Stopped);
    BucketCounts(rs, Interrupted);
    SomeWithOutcome(rs, Discovered);
    SomeWithOutcome(rs, Stopped);
    SomeWithOutcome(rs, Interrupted);
  }

  lemma SomeWithOutcome(rs: seq<DeviceResult>, state: ResultState)
    ensures |WithOutcome(rs, state)| > 0 <==> exists i :: 0 <= i < |rs| && rs[i].outcome == Some(state)
  {
    if WithOutcome(rs, state) != {} { var i :| i in WithOutcome(rs, state); }
    if i :| 0 <= i < |rs| && rs[i].outcome == Some(state) { assert i in WithOutcome(rs, state); }
  }

  /** A result written off: failed as interrupted by a failure, or cancelled by a cancellation. */
  ghost predicate WrittenOff(r: DeviceResult, address: Address, child: JobId, interrupted: bool) {
    && r.address == address && r.child == child
    && (interrupted ==>
          r.state == JobState(Failed) && r.outcome == Some(Interrupted) && r.failure == Some(DISCOVERY_FAILED))
    && (!interrupted ==>
          r.state == JobState(Cancelled) && r.outcome == Some(Stopped) && r.failure == Some(CANCELLED))
  }

  /** Whether the result looked up for an expected address is still to be finished. */
  ghost predicate OpenResult(rs: seq<DeviceResult>, expected: seq<Address>, i: nat)
    requires i < |rs|
  {
    && Represents(rs, expected, i)
    && (rs[i].outcome.None? || rs[i].state in {JobState(Queued), JobState(Running), Discovering})
  }

  /** The result is among those one total counts: interrupted ones or cancelled ones. */
  ghost predicate CountedOff(rs: seq<DeviceResult>, i: nat, interrupted: bool) {
    i in WithOutcome(rs, if interrupted then Interrupted else Stopped)
  }

  /** What reconciliation leaves of each result: the open ones and the new ones are written off
      and counted under interrupted or cancelled, as the flag says; the others stay. */
  lemma ReconciledResultsAre(
    before: seq<DeviceResult>, after: seq<DeviceResult>, expected: seq<Address>, interrupted: bool)
    requires IsReconciled(before, after, expected, interrupted)
    ensures |after| == |before| + |Missing(before, expected)|
    ensures forall i: nat | i < |before| ::
      if OpenResult(before, expected, i) then WrittenOff(after[i], before[i].address, before[i].child, interrupted)
      else after[i] == before[i]
    ensures forall k: nat | k < |Missing(before, expected)| ::
      WrittenOff(after[|before| + k], Missing(before, expected)[k], after[|before| + k].child, interrupted)
    ensures forall i: nat | i < |after| && (i >= |before| || OpenResult(before, expected, i)) ::
      CountedOff(after, i, interrupted)
  {
    var missing := Missing(before, expected);
    forall i: nat | i < |before|
      ensures if OpenResult(before, expected, i) then WrittenOff(after[i], before[i].address, before[i].child, interrupted)
              else after[i] == before[i]
    {
      assert after[i] == if Represents(before, expected, i) then Settle(before[i], interrupted) else before[i];
    }
    forall k: nat | k < |missing|
      ensures WrittenOff(after[|before| + k], missing[k], after[|before| + k].child, interrupted)
    {
      assert after[|before| + k] == Settle(QueuedResult(missing[k], after[|before| + k].child), interrupted);
    }
    forall i: nat | i < |after| && (i >= |before| || OpenResult(before, expected, i))
      ensures CountedOff(after, i, interrupted)
    {
      if i >= |before| {
        var k: nat := i - |before|;
        assert WrittenOff(after[|before| + k], missing[k], after[|before| + k].child, interrupted);
      } else {
        assert WrittenOff(after[i], before[i].address, before[i].child, interrupted);
      }
    }
  }

  // ------------------------------------------------------------ conservation

  function Classified(rs: seq<DeviceResult>): nat {
    if rs == [] then 0 else (if rs[0].outcome.Some? then 1 else 0) + Classified(rs[1..])
  }

  /** Classified results that no expected address is looked up to. */
  function Strays(rs: seq<DeviceResult>, expected: seq<Address>): nat {
    if rs == [] then 0
    else (if !Represents(rs, expected, 0) && rs[0].outcome.Some? then 1 else 0) + Strays(rs[1..], expected)
  }

  function Representatives(rs: seq<DeviceResult>, expected: seq<Address>): nat {
    if rs == [] then 0
    else (if Represents(rs, expected, 0) then 1 else 0) + Representatives(rs[1..], expected)
  }

  lemma {:induction false} BucketsCoverClassified(rs: seq<DeviceResult>, n: nat)
    ensures Summarize(n, rs).BucketSum() == Classified(rs)
  {
    if rs != [] {
      BucketsCoverClassified(rs[1..], n);
      var s, t := Summarize(n, rs), Summarize(n, rs[1..]);
      assert s.discovered == (if rs[0].outcome == Some(Discovered) then 1 else 0) + t.discovered;
      assert s.unreachable == (if rs[0].outcome == Some(Unreachable) then 1 else 0) + t.unreachable;
      match rs[0].outcome
      case None =>
      case Some(state) =>
        assert forall other | other != state :: Bucket(rs, other) == Bucket(rs[1..], other);
        assert Bucket(rs, state) == 1 + Bucket(rs[1..], state);
        assert s.BucketSum() == 1 + t.BucketSum() by {
          match state
          case Unreachable => case ReachableNoManagement => case AuthenticationFailed => case PartialDiscovery =>
          case Discovered => case Unverified => case Stopped => case Interrupted =>
        }
    }
  }

  lemma {:induction false} ClassifiedAppend(rs: seq<DeviceResult>, qs: seq<DeviceResult>)
    ensures Classified(rs + qs) == Classified(rs) + Classified(qs)
  {
    if rs == [] {
      assert rs + qs == qs;
    } else {
      assert (rs + qs)[1..] == rs[1..] + qs;
      ClassifiedAppend(rs[1..], qs);
    }
  }

  lemma {:induction false} AllClassified(rs: seq<DeviceResult>)
    requires forall i | 0 <= i < |rs| :: rs[i].outcome.Some?
    ensures Classified(rs) == |rs|
  {
    if rs != [] { AllClassified(rs[1..]); }
  }

  lemma {:induction false} SettledInPlace(
    before: seq<DeviceResult>, after: seq<DeviceResult>, expected: seq<Address>, interrupted: bool)
    requires |after| == |before|
    requires forall i: nat | i < |before| ::
      after[i] == if Represents(before, expected, i) then Settle(before[i], interrupted) else before[i]
    ensures Classified(after) == Representatives(before, expected) + Strays(before, expected)
  {
    if before != [] {
      forall i: nat | i < |before| - 1
        ensures after[1..][i] == if Represents(before[1..], expected, i) then Settle(before[1..][i], interrupted) else before[1..][i]
      {
        assert before[1..][i + 1..] == before[i + 2..];
        assert after[i + 1] == if Represents(before, expected, i + 1) then Settle(before[i + 1], interrupted) else before[i + 1];
      }
      SettledInPlace(before[1..], after[1..], expected, interrupted);
      assert after[0] == if Represents(before, expected, 0) then Settle(before[0], interrupted) else before[0];
    }
  }

  function Present(rs: seq<DeviceResult>, expected: seq<Address>): set<Address> {
    set a | a in expected && HasAddress(rs, a)
  }

  lemma {:induction false} RepresentativesCount(rs: seq<DeviceResult>, expected: seq<Address>)
    ensures Representatives(rs, expected) == |Present(rs, expected)|
  {
    if rs == [] {
      assert Present(rs, expected) == {};
    } else {
      RepresentativesCount(rs[1..], expected);
      assert rs[0 + 1..] == rs[1..];
      forall a ensures HasAddress(rs, a) <==> a == rs[0].address || HasAddress(rs[1..], a) {
        if HasAddress(rs, a) && a != rs[0].address {
          var i :| 0 <= i < |rs| && rs[i].address == a;
          assert rs[1..][i - 1].address == a;
        }
        if HasAddress(rs[1..], a) {
          var i :| 0 <= i < |rs[1..]| && rs[1..][i].address == a;
          assert rs[i + 1].address == a;
        }
      }
      if Represents(rs, expected, 0) {
        assert Present(rs, expected) == Present(rs[1..], expected) + {rs[0].address};
      } else {
        assert Present(rs, expected) == Present(rs[1..], expected);
      }
    }
  }

  lemma {:induction false} MissingCount(rs: seq<DeviceResult>, expected: seq<Address>)
    requires Distinct(expected)
    ensures |Present(rs, expected)| + |Missing(rs, expected)| == |expected|
  {
    if expected == [] {
      assert Present(rs, expected) == {};
    } else {
      MissingCount(rs, expected[1..]);
      PresentStep(rs, expected);
    }
  }

  lemma PresentStep(rs: seq<DeviceResult>, expected: seq<Address>)
    requires Distinct(expected) && expected != []
    ensures |Present(rs, expected)| == |Present(rs, expected[1..])| + if HasAddress(rs, expected[0]) then 1 else 0
  {
    var here, rest := Present(rs, expected), Present(rs, expected[1..]);
    assert expected[0] !in rest;
    assert expected == [expected[0]] + expected[1..];
    if HasAddress(rs, expected[0]) {
      assert here == rest + {expected[0]};
    } else {
      assert here == rest;
    }
  }

  /** What reconciliation reports: one count per expected address, plus one for
      every stray result that was already classified. */
  lemma ReconciledTotals(
    before: seq<DeviceResult>, after: seq<DeviceResult>, expected: seq<Address>, interrupted: bool)
    requires IsReconciled(before, after, expected, interrupted) && Distinct(expected)
    ensures Summarize(|expected|, after).BucketSum() == |expected| + Strays(before, expected)
  {
    var n := |before|;
    BucketsCoverClassified(after, |expected|);
    assert after == after[..n] + after[n..];
    ClassifiedAppend(after[..n], after[n..]);
    SettledInPlace(before, after[..n], expected, interrupted);
    forall k | 0 <= k < |after[n..]| ensures after[n..][k].outcome.Some? {
      assert after[n + k] == Settle(QueuedResult(Missing(before, expected)[k], after[n + k].child), interrupted);
    }
    AllClassified(after[n..]);
    RepresentativesCount(before, expected);
    MissingCount(before, expected);
  }

  /** The totals balance exactly when no stray result was classified before. */
  lemma ConservationIffNoStrays(
    before: seq<DeviceResult>, after: seq<DeviceResult>, expected: seq<Address>, interrupted: bool)
    requires IsReconciled(before, after, expected, interrupted) && Distinct(expected)
    ensures var s := Summarize(|expected|, after);
      s.totalScanned == s.BucketSum() <==> Strays(before, expected) == 0
  {
    ReconciledTotals(before, after, expected, interrupted);
  }

  predicate AtDistinctExpected(rs: seq<DeviceResult>, expected: seq<Address>) {
    && (forall i | 0 <= i < |rs| :: rs[i].address in expected)
    && (forall i, j | 0 <= i < j < |rs| :: rs[i].address != rs[j].address)
  }

  lemma {:induction false} NoStrays(rs: seq<DeviceResult>, expected: seq<Address>)
    requires AtDistinctExpected(rs, expected)
    ensures Strays(rs, expected) == 0
  {
    if rs != [] { NoStrays(rs[1..], expected); }
  }

  /** Results at pairwise distinct expected addresses: outcomes are conserved, and
      afterwards every expected address has exactly one result. */
  lemma Conservation(
    before: seq<DeviceResult>, after: seq<DeviceResult>, expected: seq<Address>, interrupted: bool)
    requires IsReconciled(before, after, expected, interrupted) && Distinct(expected)
    requires AtDistinctExpected(before, expected)
    ensures Summarize(|expected|, after).totalScanned == Summarize(|expected|, after).BucketSum()
    ensures AtDistinctExpected(after, expected)
    ensures forall a | a in expected :: HasAddress(after, a)
  {
    NoStrays(before, expected);
    ReconciledTotals(before, after, expected, interrupted);
    AddressesAfter(before, after, expected, interrupted);
    OnePerAddress(before, after, expected, interrupted);
  }

  lemma OnePerAddress(
    before: seq<DeviceResult>, after: seq<DeviceResult>, expected: seq<Address>, interrupted: bool)
    requires IsReconciled(before, after, expected, interrupted) && Distinct(expected)
    requires AtDistinctExpected(before, expected)
    ensures AtDistinctExpected(after, expected)
  {
    var n, missing := |before|, Missing(before, expected);
    AddressesAfter(before, after, expected, interrupted);
    MissingFacts(before, expected);
    forall i | 0 <= i < |after|
      ensures i < n ==> after[i].address == before[i].address && HasAddress(before, after[i].address)
      ensures i >= n ==> after[i].address == missing[i - n] && !HasAddress(before, after[i].address)
      ensures after[i].address in expected
    {
      if i >= n { assert after[n + (i - n)].address == missing[i - n] && missing[i - n] in missing; }
    }
  }

  lemma {:induction false} MissingFacts(rs: seq<DeviceResult>, expected: seq<Address>)
    ensures forall a :: a in Missing(rs, expected) <==> a in expected && !HasAddress(rs, a)
    ensures Distinct(expected) ==> Distinct(Missing(rs, expected))
  {
    if expected != [] { MissingFacts(rs, expected[1..]); }
  }

  lemma AddressesAfter(
    before: seq<DeviceResult>, after: seq<DeviceResult>, expected: seq<Address>, interrupted: bool)
    requires IsReconciled(before, after, expected, interrupted)
    ensures forall i: nat | i < |before| :: after[i].address == before[i].address
    ensures forall k: nat | k < |Missing(before, expected)| :: after[|before| + k].address == Missing(before, expected)[k]
    ensures forall a | a in expected :: HasAddress(after, a)
  {
    var missing := Missing(before, expected);
    forall i: nat | i < |before| ensures after[i].address == before[i].address {
      assert after[i] == if Represents(before, expected, i) then Settle(before[i], interrupted) else before[i];
    }
    forall k: nat | k < |missing| ensures after[|before| + k].address == missing[k] {
      assert after[|before| + k] == Settle(QueuedResult(missing[k], after[|before| + k].child), interrupted);
    }
    MissingFacts(before, expected);
    forall a | a in expected ensures HasAddress(after, a) {
      if HasAddress(before, a) {
        var i :| 0 <= i < |before| && before[i].address == a;
        assert after[i].address == a;
      } else {
        var k :| 0 <= k < |missing| && missing[k] == a;
        assert after[|before| + k].address == a;
      }
    }
  }

  /** A result whose address was rewritten breaks the balance: the expected address
      gets a second, interrupted result and both are counted. */
  lemma StrayExample(child: JobId, extra: JobId)
    ensures var before := [DeviceResult("10.0.0.9", child, JobState(Succeeded), Some(Discovered), None)];
      var after := before + [Settle(QueuedResult("10.0.0.1", extra), true)];
      && IsReconciled(before, after, ["10.0.0.1"], true)
      && Summarize(1, after).totalScanned == 1 && Summarize(1, after).BucketSum() == 2
  {
    var before := [DeviceResult("10.0.0.9", child, JobState(Succeeded), Some(Discovered), None)];
    var after := before + [Settle(QueuedResult("10.0.0.1", extra), true)];
    assert Missing(before, ["10.0.0.1"]) == ["10.0.0.1"] by {
      assert Missing(before, ["10.0.0.1"][1..]) == [];
    }
    ReconciledTotals(before, after, ["10.0.0.1"], true);
    assert Strays(before[1..], ["10.0.0.1"]) == 0;
  }

  // ------------------------------------------------------------- idempotence

  lemma LaterAddressKept(
    before: seq<DeviceResult>, after: seq<DeviceResult>, expected: seq<Address>, interrupted: bool, i: nat)
    requires IsReconciled(before, after, expected, interrupted) && i < |before|
    ensures HasAddress(before[i + 1..], before[i].address) ==> HasAddress(after[i + 1..], after[i].address)
  {
    AddressesAfter(before, after, expected, interrupted);
    if HasAddress(before[i + 1..], before[i].address) {
      var j :| 0 <= j < |before[i + 1..]| && before[i + 1..][j].address == before[i].address;
      assert after[i + 1..][j].address == after[i].address;
    }
  }

  /** A representative, once settled, stays as it is whatever the second call says. */
  lemma RepresentativesSettled(
    before: seq<DeviceResult>, after: seq<DeviceResult>, expected: seq<Address>, interrupted: bool, i: nat)
    requires IsReconciled(before, after, expected, interrupted)
    requires i < |after| && Represents(after, expected, i)
    ensures !Unfinished(after[i])
  {
    AddressesAfter(before, after, expected, interrupted);
    if i < |before| {
      LaterAddressKept(before, after, expected, interrupted, i);
      assert Represents(before, expected, i);
    } else {
      var k := i - |before|;
      assert after[|before| + k] == Settle(QueuedResult(Missing(before, expected)[k], after[|before| + k].child), interrupted);
    }
  }

  /** Reconciling twice changes nothing more, even with the opposite flag: no result
      is created or altered, so every total stays. */
  lemma Idempotence(
    before: seq<DeviceResult>, once: seq<DeviceResult>, twice: seq<DeviceResult>,
    expected: seq<Address>, first: bool, second: bool)
    requires IsReconciled(before, once, expected, first) && IsReconciled(once, twice, expected, second)
    ensures twice == once && Missing(once, expected) == []
    ensures Summarize(|expected|, twice) == Summarize(|expected|, once)
  {
    AddressesAfter(before, once, expected, first);
    MissingFacts(once, expected);
    if Missing(once, expected) != [] { assert Missing(once, expected)[0] in Missing(once, expected); }
    forall i: nat | i < |once| ensures twice[i] == once[i] {
      assert twice[i] == if Represents(once, expected, i) then Settle(once[i], second) else once[i];
      if Represents(once, expected, i) { RepresentativesSettled(before, once, expected, first, i); }
    }
  }

  /** A result that had finished is never altered. */
  lemma FinishedResultsKept(
    before: seq<DeviceResult>, after: seq<DeviceResult>, expected: seq<Address>, interrupted: bool, i: nat)
    requires IsReconciled(before, after, expected, interrupted)
    requires i < |before| && !Unfinished(before[i])
    ensures after[i] == before[i]
  {
    assert after[i] == if Represents(before, expected, i) then Settle(before[i], interrupted) else before[i];
  }
}
