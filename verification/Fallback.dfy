// Transport fallback and its verdict (backend/app/discovery/multi_transport.py).

module Fallback {
  import opened Common
  import opened Contracts
  import opened ResultStates

  // How a collector attempt ends: the collector itself is not part of this model.
  datatype Attempt = Success | Failure(code: Option<FailureCode>)

  datatype AttemptConfig = AttemptConfig(name: string, service: Option<string>, attempt: Attempt)

  datatype AttemptResult = AttemptResult(name: string, order: nat, attempt: Attempt)

  datatype FallbackResult = FallbackResult(
    state: ResultState, selected: Option<string>, attempts: seq<AttemptResult>)

  // ---------------------------------------------------------- the specification

  predicate AnySuccess(configs: seq<AttemptConfig>) {
    exists i | 0 <= i < |configs| :: configs[i].attempt.Success?
  }

  /** UNREACHABLE < REACHABLE_NO_MANAGEMENT < UNVERIFIED < AUTHENTICATION_FAILED. */
  function Rank(s: ResultState): nat {
    match s
    case Unreachable => 0
    case ReachableNoManagement => 1
    case Unverified => 2
    case AuthenticationFailed => 3
    case _ => 4
  }

  function Join(a: ResultState, b: ResultState): ResultState {
    if Rank(a) < Rank(b) then b else a
  }

  /** What one failed attempt alone would be reported as. */
  function VerdictOf(attempt: Attempt): ResultState {
    if attempt.Success? then Unreachable
    else
      var i := ClassifyTransportFailure(attempt.code);
      FromFailureAndSuccess(i.reachable, i.serviceAvailable, i.authFailed, false, false, i.unavailable)
  }

  /** The least upper bound of the verdicts. */
  function JoinAll(configs: seq<AttemptConfig>): ResultState {
    if configs == [] then Unreachable
    else Join(JoinAll(configs[..|configs| - 1]), VerdictOf(configs[|configs| - 1].attempt))
  }

  predicate NumberedFrom(attempts: seq<AttemptResult>, configs: seq<AttemptConfig>) {
    && |attempts| <= |configs|
    && (forall i | 0 <= i < |attempts| ::
          attempts[i] == AttemptResult(configs[i].name, i + 1, configs[i].attempt))
  }

  // ------------------------------------------------------------------- the code

  /** Tries the transports in order until one succeeds; flags collect what was seen. */
  method DiscoverWithFallback(configs: seq<AttemptConfig>) returns (r: FallbackResult)
    ensures NumberedFrom(r.attempts, configs)
    ensures forall i | 0 <= i < |r.attempts| - 1 :: !configs[i].attempt.Success?
    ensures r.state.Discovered? <==> AnySuccess(configs)
    ensures r.state.Discovered? ==>
      && r.attempts != [] && configs[|r.attempts| - 1].attempt.Success?
      && r.selected == Some(configs[|r.attempts| - 1].name)
    ensures !AnySuccess(configs) ==>
      |r.attempts| == |configs| && r.selected == None && r.state == JoinAll(configs)
  {
    var attempts: seq<AttemptResult> := [];
    var selected: Option<string> := None;
    var reachable, authFailed, service, unavailable, discovered := false, false, false, false, false;
    var i := 0;
    while i < |configs|
      invariant 0 <= i <= |configs| && !discovered && selected.None?
      invariant |attempts| == i && NumberedFrom(attempts, configs)
      invariant forall k | 0 <= k < i :: !configs[k].attempt.Success?
      invariant FromFailureAndSuccess(reachable, service, authFailed, false, false, unavailable) == JoinAll(configs[..i])
      invariant authFailed ==> reachable
    {
      var config := configs[i];
      attempts := attempts + [AttemptResult(config.name, i + 1, config.attempt)];
      i := i + 1;
      if config.attempt.Success? {
        reachable, service, discovered := true, true, true;
        selected := Some(config.name);
        break;
      }
      FlagsJoin(configs, i - 1, reachable, authFailed, service, unavailable);
      var seen := ClassifyTransportFailure(config.attempt.code);
      if seen.reachable { reachable := true; }
      if seen.authFailed { authFailed := true; }
      if seen.serviceAvailable { service := true; }
      if seen.unavailable { unavailable := true; }
    }
    assert configs[..|configs|] == configs;
    r := FallbackResult(
      FromFailureAndSuccess(reachable, service, authFailed, false, discovered, unavailable), selected, attempts);
  }

  /** Raising the flags of one more failure joins its verdict. */
  lemma FlagsJoin(
    configs: seq<AttemptConfig>, i: nat, reachable: bool, authFailed: bool, service: bool, unavailable: bool)
    requires i < |configs| && configs[i].attempt.Failure? && (authFailed ==> reachable)
    requires FromFailureAndSuccess(reachable, service, authFailed, false, false, unavailable) == JoinAll(configs[..i])
    ensures var seen := ClassifyTransportFailure(configs[i].attempt.code);
      && FromFailureAndSuccess(reachable || seen.reachable, service || seen.serviceAvailable,
           authFailed || seen.authFailed, false, false, unavailable || seen.unavailable) == JoinAll(configs[..i + 1])
      && (seen.authFailed ==> seen.reachable)
  {
    assert configs[..i + 1][..i] == configs[..i];
  }

  /** Two lists filled in one pass: available transports first, order kept in both. */
  method ReorderByAvailability(configs: seq<AttemptConfig>, available: set<string>) returns (r: seq<AttemptConfig>)
    ensures r == Select(configs, available, true) + Select(configs, available, false)
  {
    var first: seq<AttemptConfig> := [];
    var second: seq<AttemptConfig> := [];
    for i := 0 to |configs|
      invariant first == Select(configs[..i], available, true)
      invariant second == Select(configs[..i], available, false)
    {
      assert configs[..i + 1][..i] == configs[..i];
      if IsAvailable(configs[i], available) { first := first + [configs[i]]; }
      else { second := second + [configs[i]]; }
    }
    assert configs[..|configs|] == configs;
    r := first + second;
  }

  predicate IsAvailable(config: AttemptConfig, available: set<string>) {
    config.service.Some? && config.service.value in available
  }

  /** The sub-list of the transports that are available, or of those that are not. */
  function Select(configs: seq<AttemptConfig>, available: set<string>, wanted: bool): seq<AttemptConfig> {
    if configs == [] then []
    else
      var last := configs[|configs| - 1];
      Select(configs[..|configs| - 1], available, wanted) + if IsAvailable(last, available) == wanted then [last] else []
  }

  // ------------------------------------------------------------------- the laws

  lemma VerdictsAreFailing(attempt: Attempt)
    ensures Rank(VerdictOf(attempt)) <= 3
  {
  }

  lemma {:induction false} JoinAllIsFailing(configs: seq<AttemptConfig>)
    ensures Rank(JoinAll(configs)) <= 3
  {
    if configs != [] { JoinAllIsFailing(configs[..|configs| - 1]); VerdictsAreFailing(configs[|configs| - 1].attempt); }
  }

  lemma JoinLaws(a: ResultState, b: ResultState, c: ResultState)
    requires Rank(a) <= 3 && Rank(b) <= 3 && Rank(c) <= 3
    ensures Join(a, b) == Join(b, a) && Join(a, a) == a && Join(Unreachable, a) == a
    ensures Join(Join(a, b), c) == Join(a, Join(b, c))
  {
  }

  /** The failing verdict of two chains in a row is the join of their verdicts. */
  lemma {:induction false} JoinAllAppend(a: seq<AttemptConfig>, b: seq<AttemptConfig>)
    ensures JoinAll(a + b) == Join(JoinAll(a), JoinAll(b))
  {
    JoinAllIsFailing(a);
    if b == [] {
      assert a + b == a;
    } else {
      var front, last := b[..|b| - 1], b[|b| - 1];
      assert (a + b)[..|a + b| - 1] == a + front && (a + b)[|a + b| - 1] == last;
      JoinAllAppend(a, front);
      JoinAllIsFailing(front);
      VerdictsAreFailing(last.attempt);
      JoinLaws(JoinAll(a), JoinAll(front), VerdictOf(last.attempt));
    }
  }

  /** The verdict is an upper bound of every attempt, and one of them attains it. */
  lemma {:induction false} JoinAllIsLeastUpperBound(configs: seq<AttemptConfig>)
    ensures forall i | 0 <= i < |configs| :: Rank(VerdictOf(configs[i].attempt)) <= Rank(JoinAll(configs))
    ensures JoinAll(configs) == Unreachable || exists i :: 0 <= i < |configs| && VerdictOf(configs[i].attempt) == JoinAll(configs)
  {
    if configs != [] {
      var front := configs[..|configs| - 1];
      JoinAllIsLeastUpperBound(front);
      forall i | 0 <= i < |configs| ensures Rank(VerdictOf(configs[i].attempt)) <= Rank(JoinAll(configs)) {
        if i < |front| { assert configs[i] == front[i]; }
      }
      if JoinAll(front) != Unreachable && JoinAll(configs) == JoinAll(front) {
        var i :| 0 <= i < |front| && VerdictOf(front[i].attempt) == JoinAll(front);
        assert configs[i] == front[i];
      } else {
        assert JoinAll(configs) == VerdictOf(configs[|configs| - 1].attempt) || JoinAll(configs) == Unreachable;
      }
    }
  }

  ghost predicate SomeFailed(configs: seq<AttemptConfig>, codes: set<FailureCode>) {
    exists i :: 0 <= i < |configs| && configs[i].attempt.Failure?
      && configs[i].attempt.code.Some? && configs[i].attempt.code.value in codes
  }

  /** Failures that say nothing but that the host did not answer. */
  const NO_ANSWER := {CONNECTION_FAILED, CONNECTION_TIMEOUT, HOST_UNREACHABLE, TIMEOUT, DISCOVERY_TIMEOUT}

  /** Which failure code gives which verdict, if no other attempt was made. */
  lemma VerdictsOfCodes(code: FailureCode)
    ensures var verdict := VerdictOf(Failure(Some(code)));
      && (verdict == AuthenticationFailed <==> code == AUTHENTICATION_FAILED)
      && (verdict == Unverified <==> code == TRANSPORT_UNAVAILABLE)
      && (verdict == Unreachable <==> code in NO_ANSWER)
      && (verdict == ReachableNoManagement <==> code !in NO_ANSWER + {AUTHENTICATION_FAILED, TRANSPORT_UNAVAILABLE})
    ensures VerdictOf(Failure(None)) == ReachableNoManagement
  {
  }

  /** The verdict of a chain in which every attempt failed, from the failure codes alone: a refused
      login decides first, then a transport that was never tried, then any sign of life. */
  lemma {:induction false} ChainVerdict(configs: seq<AttemptConfig>)
    requires forall i | 0 <= i < |configs| :: configs[i].attempt.Failure?
    ensures JoinAll(configs) == AuthenticationFailed <==> SomeFailed(configs, {AUTHENTICATION_FAILED})
    ensures JoinAll(configs) == Unverified <==>
      SomeFailed(configs, {TRANSPORT_UNAVAILABLE}) && !SomeFailed(configs, {AUTHENTICATION_FAILED})
    ensures JoinAll(configs) == Unreachable <==>
      forall i | 0 <= i < |configs| :: configs[i].attempt.code.Some? && configs[i].attempt.code.value in NO_ANSWER
    ensures JoinAll(configs) in {AuthenticationFailed, Unverified, Unreachable, ReachableNoManagement}
  {
    JoinAllIsFailing(configs);
    if configs != [] {
      var front, last := configs[..|configs| - 1], configs[|configs| - 1];
      assert configs == front + [last];
      assert forall i | 0 <= i < |front| :: front[i] == configs[i];
      ChainVerdict(front);
      if last.attempt.code.Some? { VerdictsOfCodes(last.attempt.code.value); }
      SomeFailedSnoc(front, last, {AUTHENTICATION_FAILED});
      SomeFailedSnoc(front, last, {TRANSPORT_UNAVAILABLE});
    }
  }

  lemma SomeFailedSnoc(front: seq<AttemptConfig>, last: AttemptConfig, codes: set<FailureCode>)
    ensures SomeFailed(front + [last], codes) <==>
      SomeFailed(front, codes) || (last.attempt.Failure? && last.attempt.code.Some? && last.attempt.code.value in codes)
  {
    var configs := front + [last];
    assert configs[|front|] == last;
    if SomeFailed(front, codes) {
      var i :| 0 <= i < |front| && front[i].attempt.Failure? && front[i].attempt.code.Some?
        && front[i].attempt.code.value in codes;
      assert configs[i] == front[i];
    }
  }

  /** No transport whose service was not found open stands before one whose service was. */
  lemma AvailableComeFirst(configs: seq<AttemptConfig>, available: set<string>, i: nat, j: nat)
    requires var r := Select(configs, available, true) + Select(configs, available, false);
      i < j < |r| && r[j].service.Some? && r[j].service.value in available
    ensures var r := Select(configs, available, true) + Select(configs, available, false);
      r[i].service.Some? && r[i].service.value in available
  {
    SelectsWanted(configs, available, true);
    SelectsWanted(configs, available, false);
  }

  lemma {:induction false} SelectsWanted(configs: seq<AttemptConfig>, available: set<string>, wanted: bool)
    ensures forall c | c in Select(configs, available, wanted) ::
      wanted == (c.service.Some? && c.service.value in available)
  {
    if configs != [] { SelectsWanted(configs[..|configs| - 1], available, wanted); }
  }

  /** Splitting by availability and putting the parts together loses and gains nothing. */
  lemma {:induction false} ReorderIsPermutation(configs: seq<AttemptConfig>, available: set<string>)
    ensures multiset(Select(configs, available, true) + Select(configs, available, false)) == multiset(configs)
  {
    if configs != [] {
      var front, last := configs[..|configs| - 1], configs[|configs| - 1];
      ReorderIsPermutation(front, available);
      assert configs == front + [last];
    }
  }

  /** Availability decides only the group: within a group the configured order stays. */
  lemma {:induction false} ReorderIsStable(configs: seq<AttemptConfig>, available: set<string>, wanted: bool)
    returns (index: seq<nat>)
    ensures |index| == |Select(configs, available, wanted)|
    ensures forall k | 0 <= k < |index| ::
      index[k] < |configs| && Select(configs, available, wanted)[k] == configs[index[k]]
      && IsAvailable(configs[index[k]], available) == wanted
    ensures forall k, l | 0 <= k < l < |index| :: index[k] < index[l]
  {
    if configs == [] {
      index := [];
    } else {
      var front, last := configs[..|configs| - 1], configs[|configs| - 1];
      index := ReorderIsStable(front, available, wanted);
      if IsAvailable(last, available) == wanted { index := index + [|configs| - 1]; }
    }
  }

  /** Reordering changes neither whether the device is discovered nor the failing verdict. */
  lemma ReorderKeepsOutcome(configs: seq<AttemptConfig>, available: set<string>)
    ensures var r := Select(configs, available, true) + Select(configs, available, false);
      AnySuccess(r) == AnySuccess(configs) && JoinAll(r) == JoinAll(configs)
  {
    var first, second := Select(configs, available, true), Select(configs, available, false);
    var r := first + second;
    ReorderIsPermutation(configs, available);
    SameMembers(r, configs);
    JoinAllAppend(first, second);
    SplitKeepsJoin(configs, available);
  }

  lemma SameMembers(a: seq<AttemptConfig>, b: seq<AttemptConfig>)
    requires multiset(a) == multiset(b)
    ensures AnySuccess(a) == AnySuccess(b)
  {
    if AnySuccess(a) {
      var i :| 0 <= i < |a| && a[i].attempt.Success?;
      assert a[i] in multiset(b);
      var j :| 0 <= j < |b| && b[j] == a[i];
    }
    if AnySuccess(b) {
      var i :| 0 <= i < |b| && b[i].attempt.Success?;
      assert b[i] in multiset(a);
      var j :| 0 <= j < |a| && a[j] == b[i];
    }
  }

  lemma JoinSnoc(a: seq<AttemptConfig>, last: AttemptConfig)
    ensures JoinAll(a + [last]) == Join(JoinAll(a), VerdictOf(last.attempt))
  {
    assert (a + [last])[..|a|] == a;
  }

  lemma {:induction false} SplitKeepsJoin(configs: seq<AttemptConfig>, available: set<string>)
    ensures Join(JoinAll(Select(configs, available, true)), JoinAll(Select(configs, available, false))) == JoinAll(configs)
  {
    if configs != [] {
      var front, last := configs[..|configs| - 1], configs[|configs| - 1];
      SplitKeepsJoin(front, available);
      SplitStep(Select(front, available, true), Select(front, available, false), last, IsAvailable(last, available));
    }
  }

  lemma SplitStep(a: seq<AttemptConfig>, b: seq<AttemptConfig>, last: AttemptConfig, available: bool)
    ensures Join(JoinAll(a + if available then [last] else []), JoinAll(b + if !available then [last] else []))
         == Join(Join(JoinAll(a), JoinAll(b)), VerdictOf(last.attempt))
  {
    var x, y, z := JoinAll(a), JoinAll(b), VerdictOf(last.attempt);
    JoinAllIsFailing(a);
    JoinAllIsFailing(b);
    VerdictsAreFailing(last.attempt);
    JoinSnoc(a, last);
    JoinSnoc(b, last);
    JoinLaws(x, y, z);
    JoinLaws(x, z, y);
    JoinLaws(y, z, x);
    assert a + [] == a && b + [] == b;
  }
}
