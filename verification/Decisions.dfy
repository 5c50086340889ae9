// The decision of an evaluation and its split by policy (backend/app/evaluation/engine.py).

module Decisions {
  import opened Common
  import opened Differences
  import opened Scoring
  import opened Evaluation

  datatype PolicyResult = PolicyResult(
    policy: Policy, status: Status, risk: nat, compliance: nat, results: seq<RuleResult>)

  datatype EvaluationMetrics = EvaluationMetrics(
    totalRules: nat, evaluated: nat, compliant: nat, nonCompliant: nat, waived: nat, notApplicable: nat)

  datatype Decision = Decision(
    status: Status, risk: nat, compliance: nat, results: seq<RuleResult>, policies: seq<PolicyResult>,
    metrics: EvaluationMetrics)

  type Owners = map<Key, Policy>

  predicate Any(results: seq<RuleResult>, status: Status) {
    exists i | 0 <= i < |results| :: results[i].status == status
  }

  predicate All(results: seq<RuleResult>, status: Status) {
    forall i | 0 <= i < |results| :: results[i].status == status
  }

  function StatusOf(results: seq<RuleResult>): Status {
    if results == [] then NotApplicable
    else if Any(results, NonCompliant) then NonCompliant
    else if All(results, Waived) then Waived
    else Compliant
  }

  function Count(results: seq<RuleResult>, status: Status): nat {
    if results == [] then 0
    else Count(results[1..], status) + if results[0].status == status then 1 else 0
  }

  // ------------------------------------------------------------------ grouping

  /** The id of the policy a result belongs to. */
  function IdOf(owners: Owners, result: RuleResult): Option<PolicyId> {
    if result.ruleKey in owners then Some(owners[result.ruleKey].id) else None
  }

  /** The results of one policy, in order. */
  function OfPolicy(owners: Owners, results: seq<RuleResult>, id: PolicyId): (r: seq<RuleResult>)
    ensures forall i | 0 <= i < |r| :: IdOf(owners, r[i]) == Some(id)
  {
    if results == [] then []
    else
      var last := results[|results| - 1];
      OfPolicy(owners, results[..|results| - 1], id) + if IdOf(owners, last) == Some(id) then [last] else []
  }

  /** The ids of the policies with results, in the order of their first result. */
  function Ids(owners: Owners, results: seq<RuleResult>): seq<PolicyId> {
    if results == [] then []
    else
      var rest, id := Ids(owners, results[..|results| - 1]), IdOf(owners, results[|results| - 1]);
      if id.Some? && id.value !in rest then rest + [id.value] else rest
  }

  /** What an id on the list means. */
  lemma {:induction false} IdsListPolicies(owners: Owners, results: seq<RuleResult>)
    ensures forall i, j | 0 <= i < j < |Ids(owners, results)| :: Ids(owners, results)[i] != Ids(owners, results)[j]
    ensures forall id :: id in Ids(owners, results) <==> OfPolicy(owners, results, id) != []
    ensures forall i | 0 <= i < |results| && IdOf(owners, results[i]).Some? ::
      IdOf(owners, results[i]).value in Ids(owners, results)
  {
    if results != [] {
      IdsListPolicies(owners, results[..|results| - 1]);
      forall id ensures id in Ids(owners, results) <==> OfPolicy(owners, results, id) != [] {
      }
    }
  }

  function Grouped(owners: Owners, results: seq<RuleResult>, id: PolicyId): PolicyResult
    requires OfPolicy(owners, results, id) != []
  {
    var group := OfPolicy(owners, results, id);
    PolicyResult(
      owners[group[|group| - 1].ruleKey], StatusOf(group), Max(Risks(group)), ComplianceScore(Risks(group)), group)
  }

  /** One entry per policy with results, in the order of first results. */
  ghost predicate Groups(owners: Owners, results: seq<RuleResult>, groups: seq<PolicyResult>) {
    var ids := Ids(owners, results);
    && |groups| == |ids|
    && (forall i | 0 <= i < |ids| ::
      OfPolicy(owners, results, ids[i]) != [] && groups[i] == Grouped(owners, results, ids[i]))
  }

  /** What the two dictionaries hold under an id after some results. */
  ghost predicate Holds(
    owners: Owners, results: seq<RuleResult>, id: PolicyId, byId: map<PolicyId, seq<RuleResult>>,
    policyById: map<PolicyId, Policy>)
  {
    var group := OfPolicy(owners, results, id);
    if group == [] then id !in byId && id !in policyById
    else id in byId && id in policyById && byId[id] == group && policyById[id] == owners[group[|group| - 1].ruleKey]
  }

  ghost predicate Collected(
    owners: Owners, results: seq<RuleResult>, ids: seq<PolicyId>, byId: map<PolicyId, seq<RuleResult>>,
    policyById: map<PolicyId, Policy>)
  {
    && ids == Ids(owners, results)
    && (forall id: PolicyId :: Holds(owners, results, id, byId, policyById))
  }

  lemma OneMoreId(owners: Owners, front: seq<RuleResult>, result: RuleResult)
    ensures Ids(owners, front + [result]) ==
      var rest, id := Ids(owners, front), IdOf(owners, result);
      if id.Some? && id.value !in rest then rest + [id.value] else rest
  {
    assert (front + [result])[..|front|] == front;
  }

  lemma OneMoreResult(owners: Owners, front: seq<RuleResult>, result: RuleResult, id: PolicyId)
    ensures OfPolicy(owners, front + [result], id) ==
      if IdOf(owners, result) == Some(id) then OfPolicy(owners, front, id) + [result] else OfPolicy(owners, front, id)
  {
    assert (front + [result])[..|front|] == front;
  }

  /** One turn of the loop over the results. */
  method CollectOne(
    owners: Owners, ghost front: seq<RuleResult>, result: RuleResult, ids: seq<PolicyId>,
    byId: map<PolicyId, seq<RuleResult>>, policyById: map<PolicyId, Policy>)
    returns (ids': seq<PolicyId>, byId': map<PolicyId, seq<RuleResult>>, policyById': map<PolicyId, Policy>)
    requires Collected(owners, front, ids, byId, policyById)
    ensures Collected(owners, front + [result], ids', byId', policyById')
  {
    ids', byId', policyById' := ids, byId, policyById;
    OneMoreId(owners, front, result);
    IdsListPolicies(owners, front);
    if result.ruleKey in owners {
      var policy := owners[result.ruleKey];
      assert Holds(owners, front, policy.id, byId, policyById);
      policyById' := policyById'[policy.id := policy];
      if policy.id !in byId' {
        ids' := ids' + [policy.id];
        byId' := byId'[policy.id := []];
      }
      byId' := byId'[policy.id := byId'[policy.id] + [result]];
    }
    forall id: PolicyId ensures Holds(owners, front + [result], id, byId', policyById') {
      assert Holds(owners, front, id, byId, policyById);
      OneMoreResult(owners, front, result, id);
    }
  }

  method Collect(owners: Owners, results: seq<RuleResult>)
    returns (ids: seq<PolicyId>, byId: map<PolicyId, seq<RuleResult>>, policyById: map<PolicyId, Policy>)
    ensures Collected(owners, results, ids, byId, policyById)
  {
    ids, byId, policyById := [], map[], map[];
    for i := 0 to |results|
      invariant Collected(owners, results[..i], ids, byId, policyById)
    {
      assert results[..i + 1] == results[..i] + [results[i]];
      ids, byId, policyById := CollectOne(owners, results[..i], results[i], ids, byId, policyById);
    }
    assert results[..|results|] == results;
  }

  /** One result per policy; a result of a rule nobody offered belongs to none. */
  method PolicyResults(owners: Owners, results: seq<RuleResult>) returns (groups: seq<PolicyResult>)
    ensures Groups(owners, results, groups)
  {
    var ids, byId, policyById := Collect(owners, results);
    IdsListPolicies(owners, results);
    groups := [];
    for i := 0 to |ids|
      invariant |groups| == i
      invariant forall k | 0 <= k < i :: groups[k] == Grouped(owners, results, ids[k])
    {
      assert Holds(owners, results, ids[i], byId, policyById);
      var group := byId[ids[i]];
      groups := groups
        + [PolicyResult(policyById[ids[i]], StatusOf(group), Max(Risks(group)), ComplianceScore(Risks(group)), group)];
    }
  }

  // ------------------------------------------------------------------ deciding

  function RulesOf(entries: seq<Entry>): seq<Rule> {
    seq(|entries|, i requires 0 <= i < |entries| => entries[i].rule)
  }

  /** The policy each rule key came from; of equal keys the last counts. */
  function OwnersOf(entries: seq<Entry>): Owners {
    if entries == [] then map[]
    else
      var last := entries[|entries| - 1];
      OwnersOf(entries[..|entries| - 1])[last.rule.key := last.policy]
  }

  lemma {:induction false} OwnersAreSources(entries: seq<Entry>)
    ensures forall i | 0 <= i < |entries| :: entries[i].rule.key in OwnersOf(entries)
    ensures DistinctKeys(entries) ==>
      forall i | 0 <= i < |entries| :: OwnersOf(entries)[entries[i].rule.key] == entries[i].policy
  {
    if entries != [] { OwnersAreSources(entries[..|entries| - 1]); }
  }

  function MetricsOf(totalRules: nat, results: seq<RuleResult>): EvaluationMetrics {
    EvaluationMetrics(totalRules, |results|, Count(results, Compliant), Count(results, NonCompliant), Count(results, Waived),
      Count(results, NotApplicable))
  }

  ghost predicate Decides(entries: seq<Entry>, c: Context, verdict: (Rule, Difference) -> Verdict, d: Decision) {
    && ResultsFor(d.results, Pairs(RulesOf(entries), c.differences), c, verdict)
    && d.status == StatusOf(d.results)
    && d.risk == Max(Risks(d.results))
    && d.compliance == ComplianceScore(Risks(d.results))
    && d.metrics == MetricsOf(|entries|, d.results)
    && Groups(OwnersOf(entries), d.results, d.policies)
  }

  /** EvaluationEngine.evaluate on policies; None when some rule raises. */
  method Evaluate(policies: seq<Policy>, c: Context, verdict: (Rule, Difference) -> Verdict)
    returns (r: Option<Decision>)
    ensures r.Some? ==> Decides(FirstByKey(Candidates(policies, c.scope)), c, verdict, r.value)
    ensures r.None? <==> SomeRaises(Pairs(RulesOf(FirstByKey(Candidates(policies, c.scope))), c.differences), c, verdict)
  {
    var entries := ApplicableRules(policies, c.scope);
    var evaluated := EvaluateRules(RulesOf(entries), c, verdict);
    if evaluated.None? { return None; }
    var results := evaluated.value;
    var groups := PolicyResults(OwnersOf(entries), results);
    r := Some(Decision(StatusOf(results), Max(Risks(results)), ComplianceScore(Risks(results)), results, groups,
      MetricsOf(|entries|, results)));
  }

  /** What the status of a list of results means. */
  lemma StatusMeans(results: seq<RuleResult>)
    ensures StatusOf(results) == NotApplicable <==> results == []
    ensures StatusOf(results) == NonCompliant <==> exists r :: r in results && r.status == NonCompliant
    ensures StatusOf(results) == Waived <==> results != [] && forall r | r in results :: r.status == Waived
    ensures StatusOf(results) == Compliant <==>
      && results != [] && (forall r | r in results :: r.status != NonCompliant)
      && exists r :: r in results && r.status != Waived
  {
    if results != [] { assert results[0] in results; }
    if i :| 0 <= i < |results| && results[i].status == NonCompliant { assert results[i] in results; }
    if i :| 0 <= i < |results| && results[i].status != Waived { assert results[i] in results; }
  }

  /** Where results of one status stand. */
  function Places(results: seq<RuleResult>, status: Status): set<nat> {
    set i: nat | i < |results| && results[i].status == status
  }

  lemma {:induction false} CountIs(results: seq<RuleResult>, status: Status)
    ensures Count(results, status) == |Places(results, status)|
  {
    if results != [] {
      var front, last := results[..|results| - 1], results[|results| - 1];
      assert results == front + [last];
      CountIs(front, status);
      CountSnoc(front, last, status);
      PlacesSnoc(front, last, status);
    }
  }

  lemma PlacesSnoc(front: seq<RuleResult>, last: RuleResult, status: Status)
    ensures |Places(front + [last], status)| == |Places(front, status)| + if last.status == status then 1 else 0
  {
    var results := front + [last];
    assert Places(results, status) == Places(front, status) + if last.status == status then {|front|} else {};
  }

  lemma {:induction false} CountSnoc(front: seq<RuleResult>, last: RuleResult, status: Status)
    ensures Count(front + [last], status) == Count(front, status) + if last.status == status then 1 else 0
  {
    if front == [] {
      assert front + [last] == [last];
    } else {
      assert (front + [last])[1..] == front[1..] + [last];
      CountSnoc(front[1..], last, status);
    }
  }

  /** What a status, a risk and a compliance score say of the results they sum up. */
  ghost predicate SumsUp(results: seq<RuleResult>, status: Status, risk: nat, compliance: nat) {
    && (status == NotApplicable <==> results == [])
    && (status == NonCompliant <==> exists r :: r in results && r.status == NonCompliant)
    && (status == Waived <==> results != [] && forall r | r in results :: r.status == Waived)
    && (risk == 0 || exists r :: r in results && r.risk == risk)
    && (forall r | r in results :: r.risk <= risk)
    && (results == [] ==> compliance == 100)
    && (results != [] ==> Rounds(100 * |results| - Sum(Risks(results)), |results|, compliance))
  }

  lemma ScoresSumUp(results: seq<RuleResult>)
    requires forall r | r in results :: r.risk <= 100
    ensures SumsUp(results, StatusOf(results), Max(Risks(results)), ComplianceScore(Risks(results)))
  {
    StatusMeans(results);
    HighestRisk(results);
    forall i | 0 <= i < |results| ensures Risks(results)[i] <= 100 { assert results[i] in results; }
    ComplianceIsAverage(Risks(results));
  }

  /** The results of a decision, one for each matching rule and difference, and what each says;
      what the decision and each policy on it make of their results; the counts. */
  lemma DecisionMeans(entries: seq<Entry>, c: Context, verdict: (Rule, Difference) -> Verdict, d: Decision)
    requires Decides(entries, c, verdict, d)
    ensures var pairs := Pairs(RulesOf(entries), c.differences);
      |d.results| == |pairs| && forall i | 0 <= i < |pairs| :: Judges(d.results[i], pairs[i], c, verdict)
    ensures SumsUp(d.results, d.status, d.risk, d.compliance)
    ensures forall p | p in d.policies :: SumsUp(p.results, p.status, p.risk, p.compliance)
    ensures forall p | p in d.policies :: exists e :: e in entries && e.policy == p.policy
    ensures d.metrics.totalRules == |entries|
    ensures d.metrics.compliant == |Places(d.results, Compliant)|
    ensures d.metrics.nonCompliant == |Places(d.results, NonCompliant)|
    ensures d.metrics.waived == |Places(d.results, Waived)|
  {
    ResultsJudge(d.results, Pairs(RulesOf(entries), c.differences), c, verdict);
    ResultRisks(d.results, Pairs(RulesOf(entries), c.differences), c, verdict);
    ScoresSumUp(d.results);
    CountIs(d.results, Compliant);
    CountIs(d.results, NonCompliant);
    CountIs(d.results, Waived);
    forall p | p in d.policies
      ensures SumsUp(p.results, p.status, p.risk, p.compliance) && exists e :: e in entries && e.policy == p.policy
    {
      GroupSumsUp(entries, d.results, d.policies, p);
    }
  }

  lemma GroupSumsUp(entries: seq<Entry>, results: seq<RuleResult>, groups: seq<PolicyResult>, p: PolicyResult)
    requires Groups(OwnersOf(entries), results, groups) && p in groups && forall r | r in results :: r.risk <= 100
    ensures SumsUp(p.results, p.status, p.risk, p.compliance)
    ensures exists e :: e in entries && e.policy == p.policy
  {
    var owners := OwnersOf(entries);
    var i :| 0 <= i < |groups| && groups[i] == p;
    var id := Ids(owners, results)[i];
    assert p == Grouped(owners, results, id);
    GroupIsPart(owners, results, id);
    ScoresSumUp(p.results);
    var last := p.results[|p.results| - 1];
    assert IdOf(owners, last) == Some(id);
    OwnerOffered(entries, last.ruleKey);
  }

  lemma {:induction false} GroupIsPart(owners: Owners, results: seq<RuleResult>, id: PolicyId)
    ensures forall r | r in OfPolicy(owners, results, id) :: r in results
  {
    if results != [] { GroupIsPart(owners, results[..|results| - 1], id); }
  }

  lemma {:induction false} OwnerOffered(entries: seq<Entry>, key: Key)
    requires key in OwnersOf(entries)
    ensures exists e :: e in entries && e.policy == OwnersOf(entries)[key]
  {
    var front, last := entries[..|entries| - 1], entries[|entries| - 1];
    if key == last.rule.key {
      assert last in entries;
    } else {
      OwnerOffered(front, key);
      var e :| e in front && e.policy == OwnersOf(front)[key];
      assert e in entries;
    }
  }

  lemma HighestRisk(results: seq<RuleResult>)
    ensures Max(Risks(results)) == 0 || exists r :: r in results && r.risk == Max(Risks(results))
    ensures forall r | r in results :: r.risk <= Max(Risks(results))
  {
    MaxIsGreatest(Risks(results));
    if results != [] {
      var i :| 0 <= i < |results| && Risks(results)[i] == Max(Risks(results));
      assert results[i] in results;
    }
    forall r | r in results ensures r.risk <= Max(Risks(results)) {
      RiskInGroup(results, r);
    }
  }

  // ---------------------------------------------------- laws of the whole decision

  /** The results of all groups together. */
  function Gather(groups: seq<PolicyResult>): multiset<RuleResult> {
    if groups == [] then multiset{}
    else Gather(groups[..|groups| - 1]) + multiset(groups[|groups| - 1].results)
  }

  /** The results of the policies listed. */
  function Among(owners: Owners, results: seq<RuleResult>, ids: seq<PolicyId>): multiset<RuleResult> {
    if ids == [] then multiset{}
    else Among(owners, results, ids[..|ids| - 1]) + multiset(OfPolicy(owners, results, ids[|ids| - 1]))
  }

  predicate Known(id: Option<PolicyId>, ids: seq<PolicyId>) {
    id.Some? && id.value in ids
  }

  lemma KnownSnoc(id: Option<PolicyId>, rest: seq<PolicyId>, last: PolicyId)
    requires last !in rest
    ensures Known(id, rest + [last]) <==> Known(id, rest) || id == Some(last)
    ensures !(Known(id, rest) && id == Some(last))
  {
  }

  lemma AmongSnoc(owners: Owners, results: seq<RuleResult>, rest: seq<PolicyId>, last: PolicyId)
    ensures Among(owners, results, rest + [last]) == Among(owners, results, rest) + multiset(OfPolicy(owners, results, last))
  {
    assert (rest + [last])[..|rest|] == rest;
  }

  // A result more, or not.
  function Plus(results: multiset<RuleResult>, result: RuleResult, more: bool): multiset<RuleResult> {
    if more then results + multiset{result} else results
  }

  lemma {:induction false} OneMoreAmong(owners: Owners, front: seq<RuleResult>, result: RuleResult, ids: seq<PolicyId>)
    requires forall i, j | 0 <= i < j < |ids| :: ids[i] != ids[j]
    ensures Among(owners, front + [result], ids) == Plus(Among(owners, front, ids), result, Known(IdOf(owners, result), ids))
  {
    if ids != [] {
      var rest, last := ids[..|ids| - 1], ids[|ids| - 1];
      assert ids == rest + [last];
      OneMoreAmong(owners, front, result, rest);
      OneMoreStep(owners, front, result, rest, last);
    }
  }

  lemma OneMoreStep(owners: Owners, front: seq<RuleResult>, result: RuleResult, rest: seq<PolicyId>, last: PolicyId)
    requires last !in rest
    requires Among(owners, front + [result], rest) ==
      Plus(Among(owners, front, rest), result, Known(IdOf(owners, result), rest))
    ensures Among(owners, front + [result], rest + [last]) ==
      Plus(Among(owners, front, rest + [last]), result, Known(IdOf(owners, result), rest + [last]))
  {
    OneMoreResult(owners, front, result, last);
    AmongSnoc(owners, front + [result], rest, last);
    AmongSnoc(owners, front, rest, last);
    KnownSnoc(IdOf(owners, result), rest, last);
    OneMoreOnce(Among(owners, front, rest), OfPolicy(owners, front, last), result,
      Known(IdOf(owners, result), rest), IdOf(owners, result) == Some(last));
  }

  lemma OneMoreOnce(others: multiset<RuleResult>, group: seq<RuleResult>, result: RuleResult, elsewhere: bool, here: bool)
    requires !(elsewhere && here)
    ensures Plus(others, result, elsewhere) + multiset(if here then group + [result] else group) ==
      Plus(others + multiset(group), result, elsewhere || here)
  {
  }

  lemma {:induction false} NothingLost(owners: Owners, results: seq<RuleResult>, ids: seq<PolicyId>)
    requires forall i, j | 0 <= i < j < |ids| :: ids[i] != ids[j]
    requires forall i | 0 <= i < |results| :: IdOf(owners, results[i]).Some? && IdOf(owners, results[i]).value in ids
    ensures Among(owners, results, ids) == multiset(results)
  {
    if results == [] {
      NoneAmongNone(owners, ids);
    } else {
      var front, last := results[..|results| - 1], results[|results| - 1];
      assert forall i | 0 <= i < |front| :: front[i] == results[i];
      NothingLost(owners, front, ids);
      assert results == front + [last];
      OneMoreAmong(owners, front, last, ids);
    }
  }

  lemma {:induction false} NoneAmongNone(owners: Owners, ids: seq<PolicyId>)
    ensures Among(owners, [], ids) == multiset{}
  {
    if ids != [] { NoneAmongNone(owners, ids[..|ids| - 1]); }
  }

  lemma {:induction false} GatherIsAmong(owners: Owners, results: seq<RuleResult>, ids: seq<PolicyId>, groups: seq<PolicyResult>)
    requires |groups| == |ids| && forall i | 0 <= i < |ids| :: groups[i].results == OfPolicy(owners, results, ids[i])
    ensures Gather(groups) == Among(owners, results, ids)
  {
    if ids != [] { GatherIsAmong(owners, results, ids[..|ids| - 1], groups[..|groups| - 1]); }
  }

  lemma ResultsHaveOwners(entries: seq<Entry>, c: Context, verdict: (Rule, Difference) -> Verdict, results: seq<RuleResult>)
    requires ResultsFor(results, Pairs(RulesOf(entries), c.differences), c, verdict)
    ensures forall i | 0 <= i < |results| :: results[i].ruleKey in OwnersOf(entries)
  {
    var pairs := Pairs(RulesOf(entries), c.differences);
    OwnersAreSources(entries);
    forall i | 0 <= i < |results| ensures results[i].ruleKey in OwnersOf(entries) {
      assert Run(pairs[i], c, verdict) == Some(results[i]);
      EvaluatedPairs(RulesOf(entries), c.differences, pairs[i]);
    }
  }

  /** Every rule result is in exactly one policy's results, in its place in the order, and
      each policy is listed once. */
  lemma PoliciesPartitionResults(entries: seq<Entry>, c: Context, verdict: (Rule, Difference) -> Verdict, d: Decision)
    requires Decides(entries, c, verdict, d)
    ensures Gather(d.policies) == multiset(d.results)
    ensures forall i, j | 0 <= i < j < |d.policies| :: d.policies[i].policy.id != d.policies[j].policy.id
    ensures forall i | 0 <= i < |d.policies| ::
      d.policies[i].results == OfPolicy(OwnersOf(entries), d.results, d.policies[i].policy.id) != []
  {
    ResultsHaveOwners(entries, c, verdict, d.results);
    GroupsKeepIds(OwnersOf(entries), d.results, d.policies);
    GroupsGatherAll(OwnersOf(entries), d.results, d.policies);
    IdsListPolicies(OwnersOf(entries), d.results);
  }

  lemma GroupsGatherAll(owners: Owners, results: seq<RuleResult>, groups: seq<PolicyResult>)
    requires Groups(owners, results, groups) && forall i | 0 <= i < |results| :: results[i].ruleKey in owners
    ensures Gather(groups) == multiset(results)
  {
    IdsListPolicies(owners, results);
    GroupsKeepIds(owners, results, groups);
    GatherIsAmong(owners, results, Ids(owners, results), groups);
    NothingLost(owners, results, Ids(owners, results));
  }

  lemma GroupsKeepIds(owners: Owners, results: seq<RuleResult>, groups: seq<PolicyResult>)
    requires Groups(owners, results, groups)
    ensures forall i | 0 <= i < |groups| ::
      && groups[i].policy.id == Ids(owners, results)[i]
      && groups[i].results == OfPolicy(owners, results, Ids(owners, results)[i]) != []
  {
    var ids := Ids(owners, results);
    forall i | 0 <= i < |ids| ensures groups[i].policy.id == ids[i] {
      var group := OfPolicy(owners, results, ids[i]);
      assert IdOf(owners, group[|group| - 1]) == Some(ids[i]);
    }
  }

  function PolicyRisks(policies: seq<PolicyResult>): seq<nat> {
    seq(|policies|, i requires 0 <= i < |policies| => policies[i].risk)
  }

  lemma {:induction false} GatheredSomewhere(groups: seq<PolicyResult>, result: RuleResult)
    ensures result in Gather(groups) <==> exists i | 0 <= i < |groups| :: result in groups[i].results
  {
    if groups != [] {
      var front := groups[..|groups| - 1];
      GatheredSomewhere(front, result);
      if i :| 0 <= i < |front| && result in front[i].results {
        assert result in groups[i].results;
      }
      if i :| 0 <= i < |groups| && result in groups[i].results {
        assert i < |front| ==> result in front[i].results;
      }
    }
  }

  /** The overall risk is the worst policy's. */
  lemma WorstPolicyDecides(entries: seq<Entry>, c: Context, verdict: (Rule, Difference) -> Verdict, d: Decision)
    requires Decides(entries, c, verdict, d)
    ensures d.risk == Max(PolicyRisks(d.policies))
  {
    PoliciesPartitionResults(entries, c, verdict, d);
    MaxIsGreatest(Risks(d.results));
    MaxIsGreatest(PolicyRisks(d.policies));
    ResultsBelowPolicies(d.policies, d.results);
    PoliciesBelowResults(d.policies, d.results);
  }

  // Every group carries the highest risk of its results.
  ghost predicate Topped(groups: seq<PolicyResult>) {
    forall k | 0 <= k < |groups| :: groups[k].results != [] && groups[k].risk == Max(Risks(groups[k].results))
  }

  lemma ResultsBelowPolicies(groups: seq<PolicyResult>, results: seq<RuleResult>)
    requires Topped(groups) && Gather(groups) == multiset(results)
    ensures forall i | 0 <= i < |results| :: Risks(results)[i] <= Max(PolicyRisks(groups))
  {
    var tops := PolicyRisks(groups);
    MaxIsGreatest(tops);
    forall i | 0 <= i < |results| ensures Risks(results)[i] <= Max(tops) {
      assert results[i] in multiset(results);
      GatheredSomewhere(groups, results[i]);
      var k :| 0 <= k < |groups| && results[i] in groups[k].results;
      RiskInGroup(groups[k].results, results[i]);
      assert tops[k] == groups[k].risk;
    }
  }

  lemma PoliciesBelowResults(groups: seq<PolicyResult>, results: seq<RuleResult>)
    requires Topped(groups) && Gather(groups) == multiset(results)
    ensures forall k | 0 <= k < |groups| :: PolicyRisks(groups)[k] <= Max(Risks(results))
  {
    forall k | 0 <= k < |groups| ensures PolicyRisks(groups)[k] <= Max(Risks(results)) {
      var group := groups[k].results;
      MaxIsGreatest(Risks(group));
      var j :| 0 <= j < |group| && Risks(group)[j] == groups[k].risk;
      GatheredSomewhere(groups, group[j]);
      assert group[j] in multiset(results);
      RiskInGroup(results, group[j]);
    }
  }

  lemma RiskInGroup(results: seq<RuleResult>, result: RuleResult)
    requires result in results
    ensures result.risk <= Max(Risks(results))
  {
    MaxIsGreatest(Risks(results));
    var i :| 0 <= i < |results| && results[i] == result;
    assert Risks(results)[i] == result.risk;
  }

  ghost predicate Listed(policies: seq<PolicyResult>, status: Status) {
    exists i | 0 <= i < |policies| :: policies[i].status == status
  }

  ghost predicate InSome(groups: seq<PolicyResult>, result: RuleResult) {
    exists k :: 0 <= k < |groups| && result in groups[k].results
  }

  // What the results say, their groups say.
  ghost predicate Spread(groups: seq<PolicyResult>, results: seq<RuleResult>) {
    forall i | 0 <= i < |results| :: InSome(groups, results[i])
  }

  // What the groups say, the results say.
  ghost predicate Drawn(groups: seq<PolicyResult>, results: seq<RuleResult>) {
    forall k, j | 0 <= k < |groups| && 0 <= j < |groups[k].results| :: groups[k].results[j] in results
  }

  // Groups are not empty and carry their own status.
  ghost predicate Judged(groups: seq<PolicyResult>) {
    forall k | 0 <= k < |groups| :: groups[k].results != [] && groups[k].status == StatusOf(groups[k].results)
  }

  lemma ViolationShowsInGroup(groups: seq<PolicyResult>, results: seq<RuleResult>)
    requires Spread(groups, results) && Judged(groups) && Any(results, NonCompliant)
    ensures Listed(groups, NonCompliant)
  {
    var i :| 0 <= i < |results| && results[i].status == NonCompliant;
    assert InSome(groups, results[i]);
    var k :| 0 <= k < |groups| && results[i] in groups[k].results;
    var j :| 0 <= j < |groups[k].results| && groups[k].results[j] == results[i];
    assert groups[k].results[j].status == NonCompliant;
  }

  lemma GroupViolationShows(groups: seq<PolicyResult>, results: seq<RuleResult>)
    requires Drawn(groups, results) && Judged(groups) && Listed(groups, NonCompliant)
    ensures Any(results, NonCompliant)
  {
    var k :| 0 <= k < |groups| && groups[k].status == NonCompliant;
    var j :| 0 <= j < |groups[k].results| && groups[k].results[j].status == NonCompliant;
    assert groups[k].results[j] in results;
  }

  lemma WaivedResultsMakeWaivedGroups(groups: seq<PolicyResult>, results: seq<RuleResult>)
    requires Drawn(groups, results) && Judged(groups) && All(results, Waived)
    ensures forall k | 0 <= k < |groups| :: groups[k].status == Waived
  {
    forall k | 0 <= k < |groups| ensures groups[k].status == Waived {
      forall j | 0 <= j < |groups[k].results| ensures groups[k].results[j].status == Waived {
        assert groups[k].results[j] in results;
      }
    }
  }

  lemma WaivedGroupsMakeWaivedResults(groups: seq<PolicyResult>, results: seq<RuleResult>)
    requires Spread(groups, results) && Judged(groups)
    requires forall k | 0 <= k < |groups| :: groups[k].status == Waived
    ensures All(results, Waived)
  {
    forall i | 0 <= i < |results| ensures results[i].status == Waived {
      assert InSome(groups, results[i]);
      var k :| 0 <= k < |groups| && results[i] in groups[k].results;
      assert All(groups[k].results, Waived);
    }
  }

  lemma PoliciesSplitResults(groups: seq<PolicyResult>, results: seq<RuleResult>)
    requires Gather(groups) == multiset(results)
    ensures Spread(groups, results) && Drawn(groups, results)
  {
    forall i | 0 <= i < |results| ensures InSome(groups, results[i]) {
      assert results[i] in multiset(results);
      GatheredSomewhere(groups, results[i]);
    }
    forall k, j | 0 <= k < |groups| && 0 <= j < |groups[k].results| ensures groups[k].results[j] in results {
      GatheredSomewhere(groups, groups[k].results[j]);
      assert groups[k].results[j] in multiset(results);
    }
  }

  /** No results, no groups, and the other way round. */
  lemma EmptyTogether(groups: seq<PolicyResult>, results: seq<RuleResult>)
    requires Gather(groups) == multiset(results) && Judged(groups)
    ensures results == [] <==> groups == []
  {
    PoliciesSplitResults(groups, results);
    if groups != [] { assert groups[0].results[0] in results; }
    if results != [] { assert InSome(groups, results[0]); }
  }

  /** The decision is non-compliant exactly when some policy is, waived exactly when there
      are policies and all are waived, and not applicable exactly when there are none. */
  lemma StatusFollowsPolicies(entries: seq<Entry>, c: Context, verdict: (Rule, Difference) -> Verdict, d: Decision)
    requires Decides(entries, c, verdict, d)
    ensures d.status == NonCompliant <==> Listed(d.policies, NonCompliant)
    ensures d.status == Waived <==> d.policies != [] && forall k | 0 <= k < |d.policies| :: d.policies[k].status == Waived
    ensures d.status == NotApplicable <==> d.policies == []
  {
    PoliciesPartitionResults(entries, c, verdict, d);
    StatusOfWhole(d.policies, d.results);
  }

  lemma StatusOfWhole(groups: seq<PolicyResult>, results: seq<RuleResult>)
    requires Gather(groups) == multiset(results) && Judged(groups)
    ensures StatusOf(results) == NonCompliant <==> Listed(groups, NonCompliant)
    ensures StatusOf(results) == Waived <==> groups != [] && forall k | 0 <= k < |groups| :: groups[k].status == Waived
    ensures StatusOf(results) == NotApplicable <==> groups == []
  {
    EmptyTogether(groups, results);
    assert Spread(groups, results) && Drawn(groups, results) by { PoliciesSplitResults(groups, results); }
    if Any(results, NonCompliant) { ViolationShowsInGroup(groups, results); }
    if Listed(groups, NonCompliant) { GroupViolationShows(groups, results); }
    if All(results, Waived) { WaivedResultsMakeWaivedGroups(groups, results); }
    if forall k | 0 <= k < |groups| :: groups[k].status == Waived { WaivedGroupsMakeWaivedResults(groups, results); }
  }

  lemma {:induction false} CountsAddUp(results: seq<RuleResult>)
    ensures Count(results, Compliant) + Count(results, NonCompliant) + Count(results, Waived)
      + Count(results, NotApplicable) == |results|
    ensures (forall i | 0 <= i < |results| :: results[i].status != NotApplicable) ==> Count(results, NotApplicable) == 0
  {
    if results != [] {
      CountsAddUp(results[1..]);
      assert forall i | 1 <= i < |results| :: results[i] == results[1..][i - 1];
    }
  }

  /** Every evaluated rule is counted once, as compliant, non-compliant or waived. */
  lemma MetricsCoverResults(entries: seq<Entry>, c: Context, verdict: (Rule, Difference) -> Verdict, d: Decision)
    requires Decides(entries, c, verdict, d)
    ensures d.metrics.compliant + d.metrics.nonCompliant + d.metrics.waived == d.metrics.evaluated == |d.results|
    ensures d.metrics.notApplicable == 0
    ensures d.compliance + d.risk >= 100
  {
    ResultRisks(d.results, Pairs(RulesOf(entries), c.differences), c, verdict);
    CountsAddUp(d.results);
    ScoresCoverHundred(Risks(d.results));
  }
}
