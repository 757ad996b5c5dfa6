/** Deterministic trust-rule selection: filter, sort by specificity and rule id, take the leading group. */
module TrustRules {
  import opened Lists
  import opened SupplyModel

  predicate Matches(rule: Rule, record: Record) {
    && rule.pack.publisher == record.identity.publisher
    && rule.pack.name == record.identity.name
    && (rule.packageDigest.None? || rule.packageDigest.value == record.packageDigest)
    && (rule.contentDigest.None? || rule.contentDigest.value == record.artifacts.contentCanonical)
  }

  function Specificity(rule: Rule): nat {
    (if rule.packageDigest.Some? then 1 else 0) + (if rule.contentDigest.Some? then 1 else 0)
  }

  /** More specific first, then by rule id. */
  predicate RuleLe(a: Rule, b: Rule) {
    Specificity(b) < Specificity(a) || (Specificity(a) == Specificity(b) && StringLe(a.ruleId, b.ruleId))
  }

  datatype Choice = Choice(disposition: Disposition, ruleId: string)

  function DefaultRuleId(): string {
    "domain-pack.trust.default-disposition"
  }

  function MatchingRules(rules: seq<Rule>, record: Record): (r: seq<Rule>)
    ensures forall x :: x in r <==> x in rules && Matches(x, record)
  {
    if rules == [] then []
    else
      assert rules == [rules[0]] + rules[1..];
      (if Matches(rules[0], record) then [rules[0]] else []) + MatchingRules(rules[1..], record)
  }

  // What selection means, on the set of rules ----------------------------

  /** A matching rule that no other matching rule is more specific than. */
  ghost predicate MostSpecific(rules: seq<Rule>, record: Record, rule: Rule) {
    && rule in rules && Matches(rule, record)
    && forall other :: other in rules && Matches(other, record) ==> Specificity(other) <= Specificity(rule)
  }

  /** The meaning of selection, without any order on the rules: the default if nothing matches, ambiguity
      if most specific matches disagree, otherwise their disposition under the least of their ids. */
  ghost predicate Selects(rules: seq<Rule>, defaultDisposition: Disposition, record: Record, r: Result<Choice, Error>) {
    if forall rule :: rule in rules ==> !Matches(rule, record)
    then r == Ok(Choice(defaultDisposition, DefaultRuleId()))
    else if exists a, b ::
              MostSpecific(rules, record, a) && MostSpecific(rules, record, b) && a.disposition != b.disposition
    then r == Err(SelectedRecordAmbiguousTrustRule)
    else && r.Ok?
         && exists least :: && MostSpecific(rules, record, least)
                            && r.value == Choice(least.disposition, least.ruleId)
                            && forall other :: MostSpecific(rules, record, other) ==>
                                 StringLe(least.ruleId, other.ruleId)
  }

  lemma RuleLeTotal()
    ensures TotalPreorder(RuleLe)
  {
    forall a: Rule, b: Rule ensures RuleLe(a, b) || RuleLe(b, a) {
      StringLeTotal(a.ruleId, b.ruleId);
    }
    forall a, b, c | RuleLe(a, b) && RuleLe(b, c) ensures RuleLe(a, c) {
      if StringLe(a.ruleId, b.ruleId) && StringLe(b.ruleId, c.ruleId) {
        StringLeTransitive(a.ruleId, b.ruleId, c.ruleId);
      }
    }
  }

  /** The head of the sorted matches is most specific, and least among the most specific. */
  lemma HeadIsLeast(rules: seq<Rule>, record: Record, sorted: seq<Rule>)
    requires multiset(sorted) == multiset(MatchingRules(rules, record)) && Sorted(RuleLe, sorted) && sorted != []
    ensures MostSpecific(rules, record, sorted[0])
    ensures forall other :: MostSpecific(rules, record, other) ==> StringLe(sorted[0].ruleId, other.ruleId)
    ensures forall other :: MostSpecific(rules, record, other) <==>
                            other in sorted && Specificity(other) == Specificity(sorted[0])
  {
    hide StringLe, Matches, Specificity;
    SameElements(sorted, MatchingRules(rules, record));
    forall other | other in rules && Matches(other, record)
      ensures other in sorted && RuleLe(sorted[0], other)
    {
      var i :| 0 <= i < |sorted| && sorted[i] == other;
      RuleLeReflexive(other);
    }
  }

  lemma RuleLeReflexive(a: Rule)
    ensures RuleLe(a, a)
  {
    StringLeTotal(a.ruleId, a.ruleId);
  }

  /** `take_while(same specificity).any(other disposition)` over the sorted matches. */
  method LeadersDisagree(sorted: seq<Rule>) returns (disagree: bool)
    requires sorted != [] && Sorted(RuleLe, sorted)
    ensures disagree <==> exists x ::
              x in sorted && Specificity(x) == Specificity(sorted[0]) && x.disposition != sorted[0].disposition
  {
    hide Specificity, StringLe;
    var i := 0;
    while i < |sorted| && Specificity(sorted[i]) == Specificity(sorted[0])
      invariant 0 <= i <= |sorted|
      invariant forall k :: 0 <= k < i ==> sorted[k].disposition == sorted[0].disposition
    {
      if sorted[i].disposition != sorted[0].disposition {
        assert sorted[i] in sorted;
        return true;
      }
      i := i + 1;
    }
    if i < |sorted| {
      assert i > 0 && RuleLe(sorted[0], sorted[i]);
      forall k | i <= k < |sorted| ensures Specificity(sorted[k]) != Specificity(sorted[0]) {
        assert k == i || RuleLe(sorted[i], sorted[k]);
      }
    }
    return false;
  }

  /** `select_trust_rule` */
  method SelectTrustRule(rules: seq<Rule>, defaultDisposition: Disposition, record: Record)
    returns (r: Result<Choice, Error>)
    ensures Selects(rules, defaultDisposition, record, r)
  {
    hide Matches, Specificity, Sort, Insert, StringLe, DefaultRuleId;
    RuleLeTotal();
    var matches := MatchingRules(rules, record);
    var sorted := Sort(RuleLe, matches);
    SortSorted(RuleLe, matches);
    SameElements(sorted, matches);
    if |sorted| == 0 {
      assert matches == [];
      return Ok(Choice(defaultDisposition, DefaultRuleId()));
    }
    HeadIsLeast(rules, record, sorted);
    var disagree := LeadersDisagree(sorted);
    if disagree {
      return Err(SelectedRecordAmbiguousTrustRule);
    }
    return Ok(Choice(sorted[0].disposition, sorted[0].ruleId));
  }

  /** The rule names this package, and every digest it pins is this package's. */
  predicate Names(rule: Rule, record: Record) {
    && rule.pack == Coordinate(record.identity.publisher, record.identity.name)
    && rule.packageDigest in {None, Some(record.packageDigest)}
    && rule.contentDigest in {None, Some(record.artifacts.contentCanonical)}
  }

  /** `a` pins whatever `b` pins, and something else. */
  predicate PinsMore(a: Rule, b: Rule) {
    && (b.packageDigest.Some? ==> a.packageDigest.Some?)
    && (b.contentDigest.Some? ==> a.contentDigest.Some?)
    && (a.packageDigest.Some? != b.packageDigest.Some? || a.contentDigest.Some? != b.contentDigest.Some?)
  }

  /** What decides: the default where no rule names the package, and otherwise a rule that names it; and no rule
      that names it pins more than the one that decides. */
  lemma DecidedBy(rules: seq<Rule>, defaultDisposition: Disposition, record: Record, c: Choice)
    returns (rule: Option<Rule>)
    requires Selects(rules, defaultDisposition, record, Ok(c))
    ensures rule.None? <==> forall other :: other in rules ==> !Names(other, record)
    ensures rule.None? ==> c.disposition == defaultDisposition
    ensures rule.Some? ==>
              && rule.value in rules && Names(rule.value, record)
              && c == Choice(rule.value.disposition, rule.value.ruleId)
              && forall other :: other in rules && Names(other, record) ==> !PinsMore(other, rule.value)
  {
    hide StringLe, DefaultRuleId;
    assert forall other :: Names(other, record) <==> Matches(other, record);
    if forall other :: other in rules ==> !Matches(other, record) {
      rule := None;
    } else {
      var least :| MostSpecific(rules, record, least) && c == Choice(least.disposition, least.ruleId);
      rule := Some(least);
    }
  }

  /** The meaning is a function of the set of rules: every reordering selects alike. */
  lemma SelectionIgnoresOrder(rules: seq<Rule>, permuted: seq<Rule>, defaultDisposition: Disposition, record: Record,
                              r: Result<Choice, Error>, q: Result<Choice, Error>)
    requires multiset(rules) == multiset(permuted)
    requires Selects(rules, defaultDisposition, record, r) && Selects(permuted, defaultDisposition, record, q)
    ensures r == q
  {
    hide Matches, Specificity, StringLe, DefaultRuleId;
    SameElements(rules, permuted);
    assert forall x :: MostSpecific(rules, record, x) <==> MostSpecific(permuted, record, x);
    if r.Ok? && (exists rule :: rule in rules && Matches(rule, record)) {
      var a :| MostSpecific(rules, record, a) && r.value == Choice(a.disposition, a.ruleId)
               && forall other :: MostSpecific(rules, record, other) ==> StringLe(a.ruleId, other.ruleId);
      var b :| MostSpecific(permuted, record, b) && q.value == Choice(b.disposition, b.ruleId)
               && forall other :: MostSpecific(permuted, record, other) ==> StringLe(b.ruleId, other.ruleId);
      StringLeTotal(a.ruleId, b.ruleId);
    }
  }
}
