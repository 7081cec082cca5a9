/** Which rules the program lets into the tables, and that every version of every relation holds such a rule. */
module Rules {
  import opened Wrappers
  import opened RelationHistory
  import opened RelationTables
  import References
  import Validation
  import Conditions
  import EdgeEvaluation

  predicate AcceptedOption(e: Option<Conditions.Boolean>) {
    e.Some? ==> Validation.AcceptedBoolean(e.value, Validation.DefaultLimits)
  }

  predicate AcceptedContent(content: References.Content) {
    && AcceptedOption(content.guard) && AcceptedOption(content.selector)
    && Validation.AcceptedValue(content.transform, Validation.DefaultLimits)
  }

  predicate AcceptedRule(rule: Rule) {
    0 < rule.source && 0 < rule.target && rule.source != rule.target && rule.confidence <= 10_000 && AcceptedContent(rule.content)
  }

  predicate RulesAccepted(h: RuleHistory) {
    forall v :: v in h.versions ==> AcceptedRule(h.versions[v].content)
  }

  ghost predicate AllAccepted(histories: map<int, RuleHistory>) {
    forall r :: r in histories ==> RulesAccepted(histories[r])
  }

  predicate ActionAccepted(a: Action<Rule>) {
    match a
    case Propose(_, _, rule) => AcceptedRule(rule)
    case Publish(_, _, rule) => AcceptedRule(rule)
    case _ => true
  }

  lemma CreationAccepted(histories: map<int, RuleHistory>, r: int, kind: RelationType, v: int, rule: Rule)
    requires AllAccepted(histories) && AcceptedRule(rule)
    ensures AllAccepted(histories[r := Created(kind, v, rule)])
  {
    hide AcceptedRule;
    var h := Created(kind, v, rule);
    assert RulesAccepted(h);
    hide RulesAccepted;
  }

  lemma ActionKeepsRules(histories: map<int, RuleHistory>, r: int, a: Action<Rule>)
    requires AllAccepted(histories) && r in histories && Enabled(histories[r], a) && ActionAccepted(a)
    ensures AllAccepted(histories[r := Apply(histories[r], a)])
  {
    hide AcceptedRule, Enabled;
    assert RulesAccepted(histories[r]);
    assert RulesAccepted(Apply(histories[r], a));
    hide RulesAccepted, Apply;
  }

  lemma ContentEvaluates(content: References.Content, c: Conditions.Context)
    requires AcceptedContent(content)
    ensures EdgeEvaluation.EvalEdge(content, c).Success?
  {
    if content.guard.Some? { Validation.AcceptedEvaluates(content.guard.value, Validation.DefaultLimits, c); }
    if content.selector.Some? { Validation.AcceptedEvaluates(content.selector.value, Validation.DefaultLimits, c); }
    Validation.AcceptedValueEvaluates(content.transform, Validation.DefaultLimits, c);
  }
}
