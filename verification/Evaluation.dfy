// Which rules an evaluation runs, and what running them gives
// (backend/app/evaluation/policy.py, context.py, executor.py, engine.py).

module Evaluation {
  import opened Common
  import opened Differences
  import opened Scoring
  import OrderedDicts

  type Key = string
  type PolicyId = nat
  type Instant = int

  // An explicit risk score is any text; text that is no integer makes scoring raise.
  datatype ExplicitRisk = NoRisk | Risk(value: int) | Malformed

  // A "name:value" tag; a tag without a colon requires nothing and is left out.
  datatype Tag = Tag(name: string, value: string)

  // What the comparison a rule's type stands for says about a difference.
  datatype Verdict = Passes | Violated | Raises

  datatype Rule = Rule(
    key: Key, supportedType: bool, subjectType: Option<string>, fieldName: Option<string>,
    kind: Option<string>, risk: ExplicitRisk, tags: seq<Tag>)

  datatype Policy = Policy(id: PolicyId, name: string, enabled: bool, tags: seq<Tag>, rules: seq<Rule>)

  datatype Waiver = Waiver(
    key: string, subjectType: Option<string>, subjectId: Option<string>, ruleKey: Option<Key>,
    expiresAt: Option<Instant>)
  {
    predicate AppliesTo(rule: Key, d: Difference, now: Instant) {
      && !(expiresAt.Some? && expiresAt.value <= now)
      && (ruleKey.Some? ==> ruleKey.value == rule)
      && (subjectType.Some? ==> subjectType.value == d.subjectType)
      && (subjectId.Some? ==> subjectId.value == d.subjectId)
    }
  }

  datatype Status = Compliant | NonCompliant | Waived | NotApplicable

  datatype RuleResult = RuleResult(
    ruleKey: Key, difference: Difference, status: Status, risk: nat, waiver: Option<Waiver>)

  // Everything an evaluation looks at; `scope` holds the site, role, ... it is made for.
  datatype Context = Context(
    differences: seq<Difference>, waivers: seq<Waiver>, now: Instant, scope: map<string, string>)

  // ---------------------------------------------------------- applicable rules

  /** Of several tags with one name the last value counts. */
  function Required(tags: seq<Tag>, name: string): Option<string> {
    if tags == [] then None
    else if tags[|tags| - 1].name == name then Some(tags[|tags| - 1].value)
    else Required(tags[..|tags| - 1], name)
  }

  const SCOPED := ["site", "role", "platform", "vendor", "device_type"]

  predicate TagsApply(tags: seq<Tag>, scope: map<string, string>) {
    forall i | 0 <= i < |SCOPED| ::
      Required(tags, SCOPED[i]).Some? ==>
        SCOPED[i] in scope && scope[SCOPED[i]] == Required(tags, SCOPED[i]).value
  }

  datatype Entry = Entry(rule: Rule, policy: Policy)

  predicate HasKey(entries: seq<Entry>, key: Key) {
    exists i | 0 <= i < |entries| :: entries[i].rule.key == key
  }

  ghost predicate DistinctKeys(entries: seq<Entry>) {
    forall i, j | 0 <= i < j < |entries| :: entries[i].rule.key != entries[j].rule.key
  }

  /** The rules of one policy that the scope admits. */
  function Admitted(policy: Policy, rules: seq<Rule>, scope: map<string, string>): seq<Entry> {
    if rules == [] then []
    else
      var last := rules[|rules| - 1];
      Admitted(policy, rules[..|rules| - 1], scope) + if TagsApply(last.tags, scope) then [Entry(last, policy)] else []
  }

  predicate InForce(policy: Policy, scope: map<string, string>) {
    policy.enabled && TagsApply(policy.tags, scope)
  }

  /** All admitted rules of all policies in force, with repeated keys. */
  function Candidates(policies: seq<Policy>, scope: map<string, string>): seq<Entry> {
    if policies == [] then []
    else
      var last := policies[|policies| - 1];
      Candidates(policies[..|policies| - 1], scope) + if InForce(last, scope) then Admitted(last, last.rules, scope) else []
  }

  /** Of several entries with one key the first. */
  function FirstByKey(entries: seq<Entry>): seq<Entry> {
    if entries == [] then []
    else
      var rest, last := FirstByKey(entries[..|entries| - 1]), entries[|entries| - 1];
      if HasKey(rest, last.rule.key) then rest else rest + [last]
  }

  function Keys(entries: seq<Entry>): set<Key> {
    set e | e in entries :: e.rule.key
  }

  lemma KeysOf(entries: seq<Entry>, key: Key)
    ensures key in Keys(entries) <==> HasKey(entries, key)
  {
    if key in Keys(entries) {
      var e :| e in entries && e.rule.key == key;
    }
  }

  lemma FirstByKeyStep(entries: seq<Entry>, last: Entry)
    ensures FirstByKey(entries + [last]) ==
      if HasKey(FirstByKey(entries), last.rule.key) then FirstByKey(entries) else FirstByKey(entries) + [last]
  {
    assert (entries + [last])[..|entries|] == entries;
  }

  /** What one more rule adds to the entries kept and to their keys. */
  lemma OneMoreRule(before: seq<Entry>, policy: Policy, j: nat, scope: map<string, string>)
    requires j < |policy.rules|
    ensures FirstByKey(before + Admitted(policy, policy.rules[..j + 1], scope)) ==
      var kept := FirstByKey(before + Admitted(policy, policy.rules[..j], scope));
      if TagsApply(policy.rules[j].tags, scope) && !HasKey(kept, policy.rules[j].key)
      then kept + [Entry(policy.rules[j], policy)] else kept
  {
    var candidates, rule := before + Admitted(policy, policy.rules[..j], scope), policy.rules[j];
    assert policy.rules[..j + 1][..j] == policy.rules[..j];
    if TagsApply(rule.tags, scope) {
      assert before + Admitted(policy, policy.rules[..j + 1], scope) == candidates + [Entry(rule, policy)];
      FirstByKeyStep(candidates, Entry(rule, policy));
    } else {
      assert before + Admitted(policy, policy.rules[..j + 1], scope) == candidates;
    }
  }

  lemma OneMorePolicy(policies: seq<Policy>, i: nat, scope: map<string, string>)
    requires i < |policies|
    ensures Candidates(policies[..i + 1], scope) ==
      var before := Candidates(policies[..i], scope);
      if InForce(policies[i], scope) then before + Admitted(policies[i], policies[i].rules, scope) else before
  {
    assert policies[..i + 1][..i] == policies[..i];
    assert Candidates(policies[..i], scope) + [] == Candidates(policies[..i], scope);
  }

  lemma KeysSnoc(entries: seq<Entry>, last: Entry)
    ensures Keys(entries + [last]) == Keys(entries) + {last.rule.key}
  {
    forall e | e in entries + [last] ensures e in entries || e == last {
    }
  }

  /** The rules of one policy in force, after those already kept. */
  method AddRules(policy: Policy, scope: map<string, string>, ghost before: seq<Entry>, kept: seq<Entry>, keys: set<Key>)
    returns (entries: seq<Entry>, seen: set<Key>)
    requires kept == FirstByKey(before) && keys == Keys(kept)
    ensures entries == FirstByKey(before + Admitted(policy, policy.rules, scope)) && seen == Keys(entries)
  {
    entries, seen := kept, keys;
    assert before + [] == before;
    for j := 0 to |policy.rules|
      invariant entries == FirstByKey(before + Admitted(policy, policy.rules[..j], scope)) && seen == Keys(entries)
    {
      var rule := policy.rules[j];
      OneMoreRule(before, policy, j, scope);
      KeysOf(entries, rule.key);
      KeysSnoc(entries, Entry(rule, policy));
      if TagsApply(rule.tags, scope) && rule.key !in seen {
        entries, seen := entries + [Entry(rule, policy)], seen + {rule.key};
      }
    }
    assert policy.rules[..|policy.rules|] == policy.rules;
  }

  method ApplicableRules(policies: seq<Policy>, scope: map<string, string>) returns (entries: seq<Entry>)
    ensures entries == FirstByKey(Candidates(policies, scope))
  {
    entries := [];
    var seen: set<Key> := {};
    for i := 0 to |policies|
      invariant entries == FirstByKey(Candidates(policies[..i], scope)) && seen == Keys(entries)
    {
      OneMorePolicy(policies, i, scope);
      if !policies[i].enabled || !TagsApply(policies[i].tags, scope) {
        continue;
      }
      entries, seen := AddRules(policies[i], scope, Candidates(policies[..i], scope), entries, seen);
    }
    assert policies[..|policies|] == policies;
  }

  ghost predicate AllFirst(entries: seq<Entry>, kept: seq<Entry>) {
    forall e | e in kept :: IsFirst(entries, e)
  }

  ghost predicate AllKept(entries: seq<Entry>, kept: seq<Entry>) {
    forall i | 0 <= i < |entries| :: HasKey(kept, entries[i].rule.key)
  }

  /** One entry per key, and for every key offered the entry offered first. */
  lemma {:induction false} FirstEntryPerKey(entries: seq<Entry>)
    ensures DistinctKeys(FirstByKey(entries)) && AllFirst(entries, FirstByKey(entries))
    ensures AllKept(entries, FirstByKey(entries))
  {
    if entries != [] {
      var front, last := entries[..|entries| - 1], entries[|entries| - 1];
      FirstEntryPerKey(front);
      assert entries == front + [last];
      FirstStay(front, last, FirstByKey(front));
      if HasKey(FirstByKey(front), last.rule.key) {
        KeptStay(front, last, FirstByKey(front));
      } else {
        NewIsFirst(front, last, FirstByKey(front));
      }
    }
  }

  lemma FirstStay(front: seq<Entry>, last: Entry, kept: seq<Entry>)
    requires AllFirst(front, kept)
    ensures AllFirst(front + [last], kept)
  {
    forall e | e in kept ensures IsFirst(front + [last], e) {
      var i :| 0 <= i < |front| && front[i] == e && forall k | 0 <= k < i :: front[k].rule.key != e.rule.key;
      assert (front + [last])[i] == e;
    }
  }

  lemma KeptStay(front: seq<Entry>, last: Entry, kept: seq<Entry>)
    requires AllKept(front, kept) && HasKey(kept, last.rule.key)
    ensures AllKept(front + [last], kept)
  {
  }

  lemma NewIsFirst(front: seq<Entry>, last: Entry, kept: seq<Entry>)
    requires AllKept(front, kept) && !HasKey(kept, last.rule.key)
    ensures IsFirst(front + [last], last) && AllKept(front + [last], kept + [last])
  {
    assert (front + [last])[|front|] == last;
    StillHasKeys(kept, last);
  }

  lemma StillHasKeys(entries: seq<Entry>, last: Entry)
    ensures forall key | HasKey(entries, key) || key == last.rule.key :: HasKey(entries + [last], key)
  {
    forall key | HasKey(entries, key) || key == last.rule.key ensures HasKey(entries + [last], key) {
      if HasKey(entries, key) {
        var i :| 0 <= i < |entries| && entries[i].rule.key == key;
        assert (entries + [last])[i].rule.key == key;
      } else {
        assert (entries + [last])[|entries|].rule.key == key;
      }
    }
  }

  ghost predicate IsFirst(entries: seq<Entry>, e: Entry) {
    exists i :: 0 <= i < |entries| && entries[i] == e && forall k | 0 <= k < i :: entries[k].rule.key != e.rule.key
  }

  lemma {:induction false} AdmittedEntries(policy: Policy, rules: seq<Rule>, scope: map<string, string>, e: Entry)
    ensures e in Admitted(policy, rules, scope) <==> e.policy == policy && e.rule in rules && TagsApply(e.rule.tags, scope)
  {
    if rules != [] { AdmittedEntries(policy, rules[..|rules| - 1], scope, e); }
  }

  /** An entry is a candidate exactly when its policy is given and in force and its rule is
      one of the policy's that the scope admits. */
  lemma {:induction false} CandidateEntries(policies: seq<Policy>, scope: map<string, string>, e: Entry)
    ensures e in Candidates(policies, scope) <==>
      && e.policy in policies && e.policy.enabled && TagsApply(e.policy.tags, scope)
      && e.rule in e.policy.rules && TagsApply(e.rule.tags, scope)
  {
    if policies != [] {
      var last := policies[|policies| - 1];
      CandidateEntries(policies[..|policies| - 1], scope, e);
      AdmittedEntries(last, last.rules, scope, e);
    }
  }

  function KeyOfEntry(e: Entry): Key {
    e.rule.key
  }

  function KeySeq(entries: seq<Entry>): seq<Key> {
    seq(|entries|, i requires 0 <= i < |entries| => entries[i].rule.key)
  }

  lemma {:induction false} KeptAreBuilt(entries: seq<Entry>)
    ensures KeySeq(FirstByKey(entries)) == OrderedDicts.Build(entries, KeyOfEntry).keys
  {
    if entries != [] {
      var rest, last := FirstByKey(entries[..|entries| - 1]), entries[|entries| - 1];
      KeptAreBuilt(entries[..|entries| - 1]);
      assert HasKey(rest, last.rule.key) <==> last.rule.key in KeySeq(rest) by {
        if i :| 0 <= i < |rest| && rest[i].rule.key == last.rule.key { assert KeySeq(rest)[i] == last.rule.key; }
      }
      assert KeySeq(rest + [last]) == KeySeq(rest) + [last.rule.key];
    }
  }

  /** The entries kept stand in the order in which their keys are first offered. */
  lemma KeptInOrder(entries: seq<Entry>)
    ensures var kept := FirstByKey(entries);
      forall i, j | 0 <= i < j < |kept| ::
        OrderedDicts.FirstAt(entries, KeyOfEntry, kept[i].rule.key) < OrderedDicts.FirstAt(entries, KeyOfEntry, kept[j].rule.key)
  {
    KeptAreBuilt(entries);
    OrderedDicts.FirstInsertionOrders(entries, KeyOfEntry);
    var kept := FirstByKey(entries);
    assert forall i | 0 <= i < |kept| :: kept[i].rule.key == KeySeq(kept)[i];
  }

  // ----------------------------------------------------------- rule execution

  predicate RuleMatches(rule: Rule, d: Difference) {
    && (rule.subjectType.Some? ==> rule.subjectType.value == d.subjectType)
    && (rule.fieldName.Some? ==> rule.fieldName == d.fieldName)
    && (rule.kind.Some? ==> rule.kind.value == KindName(d.kind))
  }

  function Matching(rules: seq<Rule>, d: Difference): seq<Rule> {
    if rules == [] then []
    else
      var last := rules[|rules| - 1];
      Matching(rules[..|rules| - 1], d) + if RuleMatches(last, d) then [last] else []
  }

  method RulesForDifference(rules: seq<Rule>, d: Difference) returns (applicable: seq<Rule>)
    ensures applicable == Matching(rules, d)
  {
    applicable := [];
    for i := 0 to |rules|
      invariant applicable == Matching(rules[..i], d)
    {
      assert rules[..i + 1][..i] == rules[..i];
      if rules[i].subjectType.Some? && rules[i].subjectType.value != d.subjectType { continue; }
      if rules[i].fieldName.Some? && rules[i].fieldName != d.fieldName { continue; }
      if rules[i].kind.Some? {
        if rules[i].kind.value != KindName(d.kind) { continue; }
      }
      applicable := applicable + [rules[i]];
    }
    assert rules[..|rules|] == rules;
  }

  /** The first waiver that applies. */
  function WaiverFor(rule: Rule, d: Difference, waivers: seq<Waiver>, now: Instant): (r: Option<Waiver>)
    ensures r.Some? <==> exists i | 0 <= i < |waivers| :: waivers[i].AppliesTo(rule.key, d, now)
    ensures r.Some? ==> r.value in waivers && r.value.AppliesTo(rule.key, d, now)
  {
    if waivers == [] then None
    else if waivers[0].AppliesTo(rule.key, d, now) then Some(waivers[0])
    else
      var r := WaiverFor(rule, d, waivers[1..], now);
      assert forall i | 1 <= i < |waivers| :: waivers[i] == waivers[1..][i - 1];
      r
  }

  method ExceptionFor(rule: Rule, d: Difference, c: Context) returns (waiver: Option<Waiver>)
    ensures waiver == WaiverFor(rule, d, c.waivers, c.now)
  {
    assert c.waivers[0..] == c.waivers;
    for i := 0 to |c.waivers|
      invariant WaiverFor(rule, d, c.waivers, c.now) == WaiverFor(rule, d, c.waivers[i..], c.now)
    {
      assert c.waivers[i..][1..] == c.waivers[i + 1..];
      if c.waivers[i].AppliesTo(rule.key, d, c.now) {
        return Some(c.waivers[i]);
      }
    }
    return None;
  }

  function Weight(kind: DifferenceType): nat {
    match kind
    case Missing => 80
    case Conflict => 85
    case Duplicate => 75
    case Modified => 50
    case Unexpected => 45
    case Unsupported => 15
    case Unknown => 25
  }

  function RiskScore(rule: Rule, d: Difference): Option<nat> {
    match rule.risk
    case NoRisk => Some(Weight(d.kind))
    case Risk(value) => Some(Clamp(value))
    case Malformed => None
  }

  /** None when it raises. A waiver skips the comparison, not the check of the rule's type. */
  function Execute(rule: Rule, d: Difference, waiver: Option<Waiver>, verdict: (Rule, Difference) -> Verdict)
    : Option<RuleResult>
  {
    if !rule.supportedType then None
    else if waiver.Some? then Some(RuleResult(rule.key, d, Waived, 0, waiver))
    else
      match verdict(rule, d)
      case Raises => None
      case Passes => Some(RuleResult(rule.key, d, Compliant, 0, None))
      case Violated =>
        match RiskScore(rule, d)
        case None => None
        case Some(risk) => Some(RuleResult(rule.key, d, NonCompliant, risk, None))
  }

  type Pair = (Rule, Difference)

  function Run(pair: Pair, c: Context, verdict: (Rule, Difference) -> Verdict): Option<RuleResult> {
    Execute(pair.0, pair.1, WaiverFor(pair.0, pair.1, c.waivers, c.now), verdict)
  }

  function WithDifference(rules: seq<Rule>, d: Difference): seq<Pair> {
    seq(|rules|, i requires 0 <= i < |rules| => (rules[i], d))
  }

  /** The pairs evaluated, in order: difference by difference, rule by rule. */
  function Pairs(rules: seq<Rule>, differences: seq<Difference>): seq<Pair> {
    if differences == [] then []
    else
      var last := differences[|differences| - 1];
      Pairs(rules, differences[..|differences| - 1]) + WithDifference(Matching(rules, last), last)
  }

  lemma {:induction false} MatchingRules(rules: seq<Rule>, d: Difference, rule: Rule)
    ensures rule in Matching(rules, d) <==> rule in rules && RuleMatches(rule, d)
  {
    if rules != [] { MatchingRules(rules[..|rules| - 1], d, rule); }
  }

  /** Exactly the matching pairs of a given rule and a given difference are evaluated. */
  lemma {:induction false} EvaluatedPairs(rules: seq<Rule>, differences: seq<Difference>, pair: Pair)
    ensures pair in Pairs(rules, differences) <==>
      pair.0 in rules && pair.1 in differences && RuleMatches(pair.0, pair.1)
  {
    if differences != [] {
      var last := differences[|differences| - 1];
      EvaluatedPairs(rules, differences[..|differences| - 1], pair);
      MatchingRules(rules, last, pair.0);
      assert pair in WithDifference(Matching(rules, last), last) <==> pair.0 in Matching(rules, last) && pair.1 == last by {
        if pair.1 == last && pair.0 in Matching(rules, last) {
          var i :| 0 <= i < |Matching(rules, last)| && Matching(rules, last)[i] == pair.0;
          assert WithDifference(Matching(rules, last), last)[i] == pair;
        }
      }
    }
  }

  /** The pairs come difference by difference, and those of one difference rule by rule, once for
      each rule. */
  lemma {:induction false} PairsByDifference(rules: seq<Rule>, a: seq<Difference>, b: seq<Difference>)
    ensures Pairs(rules, a + b) == Pairs(rules, a) + Pairs(rules, b)
  {
    if b == [] {
      assert a + b == a;
    } else {
      var front, last := b[..|b| - 1], b[|b| - 1];
      PairsByDifference(rules, a, front);
      PairsOfLast(rules, b);
      PairsOfLast(rules, a + b);
      assert (a + b)[..|a + b| - 1] == a + front && (a + b)[|a + b| - 1] == last;
      Associates(Pairs(rules, a), Pairs(rules, front), WithDifference(Matching(rules, last), last));
    }
  }

  lemma Associates(a: seq<Pair>, b: seq<Pair>, c: seq<Pair>)
    ensures (a + b) + c == a + (b + c)
  {
  }

  lemma PairsOfLast(rules: seq<Rule>, differences: seq<Difference>)
    requires differences != []
    ensures var front, last := differences[..|differences| - 1], differences[|differences| - 1];
      Pairs(rules, differences) == Pairs(rules, front) + WithDifference(Matching(rules, last), last)
  {
  }

  lemma PairsByRule(rules: seq<Rule>, more: seq<Rule>, d: Difference, rule: Rule)
    ensures Pairs([], [d]) == [] && Pairs([rule], [d]) == if RuleMatches(rule, d) then [(rule, d)] else []
    ensures Pairs(rules + more, [d]) == Pairs(rules, [d]) + Pairs(more, [d])
  {
    PairsOfOne([], d);
    PairsOfOne([rule], d);
    MatchingOne(rule, d);
    PairsOfBoth(rules, more, d);
  }

  lemma PairsOfBoth(a: seq<Rule>, b: seq<Rule>, d: Difference)
    ensures Pairs(a + b, [d]) == Pairs(a, [d]) + Pairs(b, [d])
  {
    PairsOfOne(a, d);
    PairsOfOne(b, d);
    PairsOfOne(a + b, d);
    MatchingAdds(a, b, d);
    WithBoth(Matching(a, d), Matching(b, d), d);
  }

  lemma WithBoth(a: seq<Rule>, b: seq<Rule>, d: Difference)
    ensures WithDifference(a + b, d) == WithDifference(a, d) + WithDifference(b, d)
  {
  }

  lemma PairsOfOne(rules: seq<Rule>, d: Difference)
    ensures Pairs(rules, [d]) == WithDifference(Matching(rules, d), d)
  {
    assert [d][..0] == [];
    assert Pairs(rules, []) + WithDifference(Matching(rules, d), d) == WithDifference(Matching(rules, d), d);
  }

  lemma MatchingOne(rule: Rule, d: Difference)
    ensures Matching([rule], d) == if RuleMatches(rule, d) then [rule] else []
  {
    assert [rule][..0] == [];
  }

  lemma {:induction false} MatchingAdds(a: seq<Rule>, b: seq<Rule>, d: Difference)
    ensures Matching(a + b, d) == Matching(a, d) + Matching(b, d)
  {
    if b == [] {
      assert a + b == a;
    } else {
      assert (a + b)[..|a + b| - 1] == a + b[..|b| - 1];
      MatchingAdds(a, b[..|b| - 1], d);
    }
  }

  /** One result per pair, none of them an error. */
  ghost predicate ResultsFor(
    results: seq<RuleResult>, pairs: seq<Pair>, c: Context, verdict: (Rule, Difference) -> Verdict)
  {
    && |results| == |pairs|
    && (forall i | 0 <= i < |pairs| :: Run(pairs[i], c, verdict) == Some(results[i]))
  }

  ghost predicate SomeRaises(pairs: seq<Pair>, c: Context, verdict: (Rule, Difference) -> Verdict) {
    exists i | 0 <= i < |pairs| :: Run(pairs[i], c, verdict).None?
  }

  method EvaluateDifference(rules: seq<Rule>, d: Difference, c: Context, verdict: (Rule, Difference) -> Verdict)
    returns (r: Option<seq<RuleResult>>)
    ensures r.Some? ==> ResultsFor(r.value, WithDifference(Matching(rules, d), d), c, verdict)
    ensures r.None? ==> SomeRaises(WithDifference(Matching(rules, d), d), c, verdict)
  {
    var applicable := RulesForDifference(rules, d);
    ghost var pairs := WithDifference(applicable, d);
    var results: seq<RuleResult> := [];
    for j := 0 to |applicable|
      invariant ResultsFor(results, pairs[..j], c, verdict)
    {
      var waiver := ExceptionFor(applicable[j], d, c);
      var result := Execute(applicable[j], d, waiver, verdict);
      assert Run(pairs[j], c, verdict) == result;
      if result.None? { return None; }
      results := results + [result.value];
    }
    r := Some(results);
  }

  /** Every applicable rule against every difference; the first error ends it. */
  method EvaluateRules(rules: seq<Rule>, c: Context, verdict: (Rule, Difference) -> Verdict)
    returns (r: Option<seq<RuleResult>>)
    ensures r.Some? ==> ResultsFor(r.value, Pairs(rules, c.differences), c, verdict)
    ensures r.None? <==> SomeRaises(Pairs(rules, c.differences), c, verdict)
  {
    var results: seq<RuleResult> := [];
    for i := 0 to |c.differences|
      invariant ResultsFor(results, Pairs(rules, c.differences[..i]), c, verdict)
    {
      assert c.differences[..i + 1][..i] == c.differences[..i];
      var more := EvaluateDifference(rules, c.differences[i], c, verdict);
      if more.None? {
        PairsOfPrefix(rules, c.differences, i + 1);
        RaisesInPart(Pairs(rules, c.differences[..i]), WithDifference(Matching(rules, c.differences[i]), c.differences[i]), c, verdict);
        RaisesInPrefix(Pairs(rules, c.differences[..i + 1]), Pairs(rules, c.differences), c, verdict);
        return None;
      }
      results := results + more.value;
    }
    assert c.differences[..|c.differences|] == c.differences;
    r := Some(results);
  }

  lemma {:induction false} PairsOfPrefix(rules: seq<Rule>, differences: seq<Difference>, n: nat)
    requires n <= |differences|
    ensures Pairs(rules, differences[..n]) <= Pairs(rules, differences)
  {
    if n < |differences| {
      var front := differences[..|differences| - 1];
      PairsOfPrefix(rules, front, n);
      assert front[..n] == differences[..n];
    } else {
      assert differences[..n] == differences;
    }
  }

  lemma RaisesInPart(before: seq<Pair>, part: seq<Pair>, c: Context, verdict: (Rule, Difference) -> Verdict)
    requires SomeRaises(part, c, verdict)
    ensures SomeRaises(before + part, c, verdict)
  {
    var i :| 0 <= i < |part| && Run(part[i], c, verdict).None?;
    assert (before + part)[|before| + i] == part[i];
  }

  lemma RaisesInPrefix(prefix: seq<Pair>, pairs: seq<Pair>, c: Context, verdict: (Rule, Difference) -> Verdict)
    requires prefix <= pairs && SomeRaises(prefix, c, verdict)
    ensures SomeRaises(pairs, c, verdict)
  {
    var i :| 0 <= i < |prefix| && Run(prefix[i], c, verdict).None?;
    assert pairs[i] == prefix[i];
  }

  // ------------------------------------------------------- what a result means

  /** Some waiver covers the rule and the difference, and has not expired. */
  ghost predicate Excused(rule: Rule, d: Difference, waivers: seq<Waiver>, now: Instant) {
    exists i :: 0 <= i < |waivers| && Covers(waivers[i], rule, d, now)
  }

  ghost predicate Covers(w: Waiver, rule: Rule, d: Difference, now: Instant) {
    && (w.expiresAt.None? || now < w.expiresAt.value)
    && w.ruleKey in {None, Some(rule.key)}
    && w.subjectType in {None, Some(d.subjectType)}
    && w.subjectId in {None, Some(d.subjectId)}
  }

  lemma CoveringIsApplying(w: Waiver, rule: Rule, d: Difference, now: Instant)
    ensures w.AppliesTo(rule.key, d, now) <==> Covers(w, rule, d, now)
  {
  }

  ghost predicate CoversFirst(waivers: seq<Waiver>, i: nat, rule: Rule, d: Difference, now: Instant) {
    && i < |waivers| && Covers(waivers[i], rule, d, now)
    && (forall j | 0 <= j < i :: !Covers(waivers[j], rule, d, now))
  }

  /** A pair is excused by the first waiver that covers it. */
  lemma {:induction false} WaiverIsFirst(rule: Rule, d: Difference, waivers: seq<Waiver>, now: Instant)
    requires Excused(rule, d, waivers, now)
    ensures exists i: nat :: CoversFirst(waivers, i, rule, d, now) && WaiverFor(rule, d, waivers, now) == Some(waivers[i])
  {
    CoveringIsApplying(waivers[0], rule, d, now);
    if Covers(waivers[0], rule, d, now) {
      assert CoversFirst(waivers, 0, rule, d, now);
    } else {
      var rest := waivers[1..];
      assert Excused(rule, d, rest, now) by {
        var i :| 0 <= i < |waivers| && Covers(waivers[i], rule, d, now);
        assert rest[i - 1] == waivers[i];
      }
      WaiverIsFirst(rule, d, rest, now);
      var i: nat :| CoversFirst(rest, i, rule, d, now) && WaiverFor(rule, d, rest, now) == Some(rest[i]);
      assert forall j | 0 < j <= i + 1 :: waivers[j] == rest[j - 1];
      assert CoversFirst(waivers, i + 1, rule, d, now);
    }
  }

  lemma WaiverForIff(rule: Rule, d: Difference, waivers: seq<Waiver>, now: Instant)
    ensures WaiverFor(rule, d, waivers, now).Some? <==> Excused(rule, d, waivers, now)
    ensures WaiverFor(rule, d, waivers, now).Some? ==> Covers(WaiverFor(rule, d, waivers, now).value, rule, d, now)
  {
    forall w: Waiver ensures w.AppliesTo(rule.key, d, now) <==> Covers(w, rule, d, now) {
      CoveringIsApplying(w, rule, d, now);
    }
    if i :| 0 <= i < |waivers| && waivers[i].AppliesTo(rule.key, d, now) { assert Covers(waivers[i], rule, d, now); }
    if i :| 0 <= i < |waivers| && Covers(waivers[i], rule, d, now) { assert waivers[i].AppliesTo(rule.key, d, now); }
  }

  /** The risk of a violation: the rule's own score, cut to 0..100, or the weight of the kind. */
  ghost predicate IsRiskOf(risk: nat, rule: Rule, d: Difference) {
    match rule.risk
    case Risk(value) => risk == if value < 0 then 0 else if value > 100 then 100 else value
    case NoRisk => risk == Weight(d.kind)
    case Malformed => false
  }

  /** What one result says of its pair. */
  ghost predicate Judges(result: RuleResult, pair: Pair, c: Context, verdict: (Rule, Difference) -> Verdict) {
    var (rule, d) := pair;
    && result.ruleKey == rule.key && result.difference == d
    && (result.status == Waived <==> Excused(rule, d, c.waivers, c.now))
    && (result.status == Waived <==> result.waiver.Some?)
    && (result.status == Compliant <==> !Excused(rule, d, c.waivers, c.now) && verdict(rule, d) == Passes)
    && (result.status == NonCompliant <==> !Excused(rule, d, c.waivers, c.now) && verdict(rule, d) == Violated)
    && (if result.status == NonCompliant then IsRiskOf(result.risk, rule, d) else result.risk == 0)
  }

  /** A rule of an unsupported type raises even under a waiver; the comparison and the score of a
      violated rule can raise only without one. */
  ghost predicate CannotBeJudged(pair: Pair, c: Context, verdict: (Rule, Difference) -> Verdict) {
    var (rule, d) := pair;
    || !rule.supportedType
    || (&& !Excused(rule, d, c.waivers, c.now)
        && (verdict(rule, d) == Raises || (verdict(rule, d) == Violated && rule.risk == Malformed)))
  }

  lemma RunJudges(pair: Pair, c: Context, verdict: (Rule, Difference) -> Verdict)
    ensures Run(pair, c, verdict).None? <==> CannotBeJudged(pair, c, verdict)
    ensures Run(pair, c, verdict).Some? ==> Judges(Run(pair, c, verdict).value, pair, c, verdict)
  {
    WaiverForIff(pair.0, pair.1, c.waivers, c.now);
  }

  /** Every result of an evaluation, in terms of its pair, the waivers and the verdict alone. */
  lemma ResultsJudge(results: seq<RuleResult>, pairs: seq<Pair>, c: Context, verdict: (Rule, Difference) -> Verdict)
    requires ResultsFor(results, pairs, c, verdict)
    ensures forall i | 0 <= i < |results| :: Judges(results[i], pairs[i], c, verdict)
  {
    forall i | 0 <= i < |results| ensures Judges(results[i], pairs[i], c, verdict) {
      assert Run(pairs[i], c, verdict) == Some(results[i]);
      RunJudges(pairs[i], c, verdict);
    }
  }

  /** An evaluation fails exactly if some matching pair cannot be judged. */
  lemma RaisesIff(rules: seq<Rule>, c: Context, verdict: (Rule, Difference) -> Verdict)
    ensures SomeRaises(Pairs(rules, c.differences), c, verdict) <==>
      exists rule, d :: rule in rules && d in c.differences && RuleMatches(rule, d) && CannotBeJudged((rule, d), c, verdict)
  {
    var pairs := Pairs(rules, c.differences);
    if i :| 0 <= i < |pairs| && Run(pairs[i], c, verdict).None? {
      RunJudges(pairs[i], c, verdict);
      EvaluatedPairs(rules, c.differences, pairs[i]);
      assert pairs[i] == (pairs[i].0, pairs[i].1);
    }
    if rule, d :| rule in rules && d in c.differences && RuleMatches(rule, d) && CannotBeJudged((rule, d), c, verdict) {
      EvaluatedPairs(rules, c.differences, (rule, d));
      RunJudges((rule, d), c, verdict);
      var i :| 0 <= i < |pairs| && pairs[i] == (rule, d);
      assert Run(pairs[i], c, verdict).None?;
    }
  }

  /** The kinds of difference in order of their weight. */
  lemma WeightOrder()
    ensures 100 >= Weight(DifferenceType.Conflict) > Weight(DifferenceType.Missing) > Weight(DifferenceType.Duplicate)
    ensures Weight(DifferenceType.Duplicate) > Weight(DifferenceType.Modified) > Weight(DifferenceType.Unexpected)
    ensures Weight(DifferenceType.Unexpected) > Weight(DifferenceType.Unknown) > Weight(DifferenceType.Unsupported) > 0
  {
  }

  /** A policy or rule applies if for each scoped name its last tag of that name, if it has one,
      gives the value of the scope. */
  lemma TagsApplyIff(tags: seq<Tag>, scope: map<string, string>)
    ensures TagsApply(tags, scope) <==>
      forall name | name in ["site", "role", "platform", "vendor", "device_type"] :: NameApplies(tags, name, scope)
  {
    forall i | 0 <= i < |SCOPED| ensures NameApplies(tags, SCOPED[i], scope) <==>
      (Required(tags, SCOPED[i]).Some? ==> SCOPED[i] in scope && scope[SCOPED[i]] == Required(tags, SCOPED[i]).value)
    {
      RequiredIsLast(tags, SCOPED[i]);
    }
    if TagsApply(tags, scope) {
      forall name | name in ["site", "role", "platform", "vendor", "device_type"] ensures NameApplies(tags, name, scope) {
        var i :| 0 <= i < |SCOPED| && SCOPED[i] == name;
      }
    }
  }

  ghost predicate LastTagAt(tags: seq<Tag>, name: string, i: nat) {
    i < |tags| && tags[i].name == name && forall j | i < j < |tags| :: tags[j].name != name
  }

  ghost predicate NameApplies(tags: seq<Tag>, name: string, scope: map<string, string>) {
    forall i: nat | LastTagAt(tags, name, i) :: name in scope && scope[name] == tags[i].value
  }

  lemma {:induction false} RequiredIsLast(tags: seq<Tag>, name: string)
    ensures Required(tags, name).None? <==> forall i | 0 <= i < |tags| :: tags[i].name != name
    ensures Required(tags, name).Some? ==> exists i: nat :: LastTagAt(tags, name, i) && tags[i].value == Required(tags, name).value
    ensures forall i: nat | LastTagAt(tags, name, i) :: Required(tags, name) == Some(tags[i].value)
  {
    if tags != [] {
      var front, last := tags[..|tags| - 1], tags[|tags| - 1];
      RequiredIsLast(front, name);
      if last.name == name {
        assert LastTagAt(tags, name, |tags| - 1);
      } else {
        assert forall i: nat :: LastTagAt(tags, name, i) <==> LastTagAt(front, name, i);
        assert forall i | 0 <= i < |front| :: tags[i] == front[i];
      }
    }
  }

  // ---------------------------------------------------------------- waivers

  function Risks(results: seq<RuleResult>): seq<nat> {
    seq(|results|, i requires 0 <= i < |results| => results[i].risk)
  }

  /** A result carries a risk between 0 and 100, and none unless its rule is violated. */
  lemma ResultRisks(results: seq<RuleResult>, pairs: seq<Pair>, c: Context, verdict: (Rule, Difference) -> Verdict)
    requires ResultsFor(results, pairs, c, verdict)
    ensures forall i | 0 <= i < |results| :: results[i].risk <= 100
    ensures forall i | 0 <= i < |results| :: results[i].status != NotApplicable
    ensures forall i | 0 <= i < |results| :: results[i].status != NonCompliant ==> results[i].risk == 0
  {
    forall i | 0 <= i < |results|
      ensures results[i].risk <= 100 && results[i].status != NotApplicable
      ensures results[i].status != NonCompliant ==> results[i].risk == 0
    {
      assert Run(pairs[i], c, verdict) == Some(results[i]);
    }
  }

  lemma OneMoreWaiver(pair: Pair, c: Context, extra: seq<Waiver>, verdict: (Rule, Difference) -> Verdict)
    requires Run(pair, c, verdict).Some?
    ensures Run(pair, c.(waivers := c.waivers + extra), verdict).Some?
    ensures Run(pair, c.(waivers := c.waivers + extra), verdict).value.risk <= Run(pair, c, verdict).value.risk
  {
    var before := WaiverFor(pair.0, pair.1, c.waivers, c.now);
    if before.Some? {
      var i :| 0 <= i < |c.waivers| && c.waivers[i].AppliesTo(pair.0.key, pair.1, c.now);
      assert (c.waivers + extra)[i].AppliesTo(pair.0.key, pair.1, c.now);
    }
  }

  /** Appending waivers never raises the risk score and never lowers the compliance
      score; an evaluation that went through still does. */
  lemma WaiversAreMonotone(
    rules: seq<Rule>, c: Context, extra: seq<Waiver>, verdict: (Rule, Difference) -> Verdict, before: seq<RuleResult>)
    returns (after: seq<RuleResult>)
    requires ResultsFor(before, Pairs(rules, c.differences), c, verdict)
    ensures ResultsFor(after, Pairs(rules, c.differences), c.(waivers := c.waivers + extra), verdict)
    ensures Max(Risks(after)) <= Max(Risks(before))
    ensures ComplianceScore(Risks(after)) >= ComplianceScore(Risks(before))
    ensures ComplianceScore(Risks(after)) + Max(Risks(after)) >= 100
  {
    var pairs, c' := Pairs(rules, c.differences), c.(waivers := c.waivers + extra);
    forall i | 0 <= i < |pairs|
      ensures Run(pairs[i], c', verdict).Some? && Run(pairs[i], c', verdict).value.risk <= before[i].risk
    {
      assert Run(pairs[i], c, verdict) == Some(before[i]);
      OneMoreWaiver(pairs[i], c, extra, verdict);
    }
    after := seq(|pairs|, i requires 0 <= i < |pairs| && Run(pairs[i], c', verdict).Some? => Run(pairs[i], c', verdict).value);
    LowerScoresAreBetter(Risks(after), Risks(before));
    ResultRisks(after, pairs, c', verdict);
    ScoresCoverHundred(Risks(after));
  }
}
