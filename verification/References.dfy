/** The references recorded for a relation: every column its guard, selector and transform mention. */
module References {
  import opened Wrappers
  import opened Conditions
  import opened ConditionTheorems
  import opened Evaluator
  import opened Ordering

  datatype Role = GuardRole | SelectorRole | TransformRole

  datatype RoleReference = RoleReference(nodeID: int, role: Role)

  function RoleIndex(r: Role): int {
    match r case GuardRole => 1 case SelectorRole => 2 case TransformRole => 3
  }

  predicate RoleLess(a: RoleReference, b: RoleReference) {
    if a.role == b.role then a.nodeID < b.nodeID else RoleIndex(a.role) < RoleIndex(b.role)
  }

  lemma RoleOrder()
    ensures StrictOrder(RoleLess)
  {
  }

  datatype Content = Content(guard: Option<Boolean>, selector: Option<Boolean>, transform: Value)

  function WithRole(columns: seq<int>, role: Role): seq<RoleReference> {
    seq(|columns|, i requires 0 <= i < |columns| => RoleReference(columns[i], role))
  }

  function OptionColumns(e: Option<Boolean>): seq<int> {
    if e.None? then [] else BooleanColumns(e.value)
  }

  function OptionalValueColumns(v: Option<Value>): seq<int> {
    if v.None? then [] else ValueColumns(v.value)
  }

  lemma Associate(o: seq<int>, a: seq<int>, b: seq<int>, c: seq<int>, d: seq<int>, e: seq<int>)
    ensures o + a + b + c + d + e == o + (a + b + c + d + e)
  {
  }

  function CollectedReferences(content: Content): seq<RoleReference> {
    WithRole(OptionColumns(content.guard), GuardRole)
    + WithRole(OptionColumns(content.selector), SelectorRole)
    + WithRole(ValueColumns(content.transform), TransformRole)
  }

  function RecordedReferences(content: Content): seq<RoleReference> {
    Normalized(RoleLess, CollectedReferences(content))
  }

  // ----- the collecting recursion ----------------------------------------------------------------

  /** Appends to the output of the caller, as the program does through a pointer. */
  class Collector {
    const role: Role
    var output: seq<int>

    constructor (role: Role)
      ensures this.role == role && output == []
    {
      this.role := role;
      output := [];
    }

    method CollectBoolean(e: Boolean)
      modifies this
      ensures output == old(output) + BooleanColumns(e)
      decreases e, 1
    {
      ghost var before := output;
      CollectBooleans(e.children);
      CollectOptionalBoolean(e.operand);
      CollectOptionalValue(e.left);
      CollectOptionalValue(e.right);
      CollectValues(e.values);
      Associate(before, BooleansColumns(e.children), OptionColumns(e.operand), OptionalValueColumns(e.left),
                OptionalValueColumns(e.right), ValuesColumns(e.values));
    }

    method CollectOptionalBoolean(e: Option<Boolean>)
      modifies this
      ensures output == old(output) + OptionColumns(e)
      decreases e, 2
    {
      if e.Some? { CollectBoolean(e.value); }
    }

    method CollectOptionalValue(v: Option<Value>)
      modifies this
      ensures output == old(output) + OptionalValueColumns(v)
      decreases v, 2
    {
      if v.Some? { CollectValue(v.value); }
    }

    method CollectBooleans(es: seq<Boolean>)
      modifies this
      ensures output == old(output) + BooleansColumns(es)
      decreases es, 0
    {
      for i := 0 to |es|
        invariant output + BooleansColumns(es[i..]) == old(output) + BooleansColumns(es)
      {
        assert es[i..][1..] == es[i + 1..];
        CollectBoolean(es[i]);
      }
      assert output + [] == output;
    }

    method CollectValue(v: Value)
      modifies this
      ensures output == old(output) + ValueColumns(v)
      decreases v, 1
    {
      ghost var own: seq<int> := [];
      if (v.kind.Column? || v.kind.ColumnCopy?) && v.nodeID > 0 {
        output := output + [v.nodeID];
        own := [v.nodeID];
      }
      assert output == old(output) + own;
      CollectCases(v.cases);
      assert output == old(output) + (own + CasesColumns(v.cases));
      if v.otherwise.Some? {
        CollectValue(v.otherwise.value);
        assert own + CasesColumns(v.cases) + ValueColumns(v.otherwise.value) == ValueColumns(v);
      } else {
        assert own + CasesColumns(v.cases) + [] == ValueColumns(v);
      }
    }

    method CollectValues(vs: seq<Value>)
      modifies this
      ensures output == old(output) + ValuesColumns(vs)
      decreases vs, 0
    {
      for i := 0 to |vs|
        invariant output + ValuesColumns(vs[i..]) == old(output) + ValuesColumns(vs)
      {
        assert vs[i..][1..] == vs[i + 1..];
        CollectValue(vs[i]);
      }
      assert output + [] == output;
    }

    method CollectCases(cases: seq<CaseBranch>)
      modifies this
      ensures output == old(output) + CasesColumns(cases)
      decreases cases, 0
    {
      for i := 0 to |cases|
        invariant output + CasesColumns(cases[i..]) == old(output) + CasesColumns(cases)
      {
        assert cases[i..][1..] == cases[i + 1..];
        assert cases[i].when < cases[i] && cases[i].then_ < cases[i];
        CollectBoolean(cases[i].when);
        CollectValue(cases[i].then_);
      }
      assert output + [] == output;
    }
  }

  method ReferencesForContent(content: Content) returns (references: seq<RoleReference>)
    ensures references == RecordedReferences(content)
  {
    var guard := new Collector(GuardRole);
    if content.guard.Some? { guard.CollectBoolean(content.guard.value); }
    var selector := new Collector(SelectorRole);
    if content.selector.Some? { selector.CollectBoolean(content.selector.value); }
    var transform := new Collector(TransformRole);
    transform.CollectValue(content.transform);
    var collected := WithRole(guard.output, guard.role) + WithRole(selector.output, selector.role)
      + WithRole(transform.output, transform.role);
    assert guard.output == OptionColumns(content.guard) && selector.output == OptionColumns(content.selector);
    assert transform.output == ValueColumns(content.transform);
    var values := new RoleReference[|collected|](i requires 0 <= i < |collected| => collected[i]);
    assert values[..] == collected;
    references := NormalizeInPlace(RoleLess, values);
  }

  predicate MentionedColumn(content: Content, n: int, role: Role) {
    match role
    case GuardRole => n in OptionColumns(content.guard)
    case SelectorRole => n in OptionColumns(content.selector)
    case TransformRole => n in ValueColumns(content.transform)
  }

  /** The guard's columns, then the selector's, then the transform's; within each in ascending order. */
  predicate InOrder(a: RoleReference, b: RoleReference) {
    || (a.role == GuardRole && b.role != GuardRole)
    || (a.role == SelectorRole && b.role == TransformRole)
    || (a.role == b.role && a.nodeID < b.nodeID)
  }

  /** The recorded list is sorted, has no duplicates, and holds exactly the mentioned columns. */
  lemma RecordedExactly(content: Content)
    ensures StrictlyAscending(RoleLess, RecordedReferences(content))
    ensures forall n, role :: RoleReference(n, role) in RecordedReferences(content)
                              <==> MentionedColumn(content, n, role)
    ensures forall i, j :: 0 <= i < j < |RecordedReferences(content)| ==>
      InOrder(RecordedReferences(content)[i], RecordedReferences(content)[j])
  {
    RoleOrder();
    NormalizedIsStrict(RoleLess, CollectedReferences(content));
    var all, kept := CollectedReferences(content), RecordedReferences(content);
    forall n, role ensures RoleReference(n, role) in kept <==> MentionedColumn(content, n, role) {
      WithRoleMembers(OptionColumns(content.guard), GuardRole, n, role);
      WithRoleMembers(OptionColumns(content.selector), SelectorRole, n, role);
      WithRoleMembers(ValueColumns(content.transform), TransformRole, n, role);
      assert RoleReference(n, role) in all <==> MentionedColumn(content, n, role);
      assert RoleReference(n, role) in kept <==> RoleReference(n, role) in all;
    }
  }

  lemma WithRoleMembers(columns: seq<int>, role: Role, n: int, other: Role)
    ensures RoleReference(n, other) in WithRole(columns, role) <==> other == role && n in columns
  {
    if other == role && n in columns {
      var i :| 0 <= i < |columns| && columns[i] == n;
      assert WithRole(columns, role)[i] == RoleReference(n, other);
    }
  }

  // ----- evaluation looks at nothing else --------------------------------------------------------

  ghost predicate AgreeOn(c: Context, d: Context, columns: seq<int>) {
    && c.parameters == d.parameters
    && forall i :: 0 <= i < |columns| ==>
      (columns[i] in c.columns <==> columns[i] in d.columns)
      && (columns[i] in c.columns ==> c.columns[columns[i]] == d.columns[columns[i]])
  }

  lemma AgreeOnParts(c: Context, d: Context, a: seq<int>, b: seq<int>)
    ensures AgreeOn(c, d, a + b) <==> AgreeOn(c, d, a) && AgreeOn(c, d, b)
  {
    if AgreeOn(c, d, a + b) {
      assert forall i :: 0 <= i < |a| ==> (a + b)[i] == a[i];
      assert forall i :: 0 <= i < |b| ==> (a + b)[|a| + i] == b[i];
    }
  }

  /** Contexts that agree on the collected columns and the parameters give the same evaluation. */
  lemma {:induction false} EvaluationReadsOnlyColumns(e: Boolean, c: Context, d: Context)
    requires EvaluableBoolean(e) && AgreeOn(c, d, BooleanColumns(e))
    ensures EvalBoolean(e, c) == EvalBoolean(e, d)
    decreases e, 1
  {
    var cs := BooleansColumns(e.children);
    var os := if e.operand.Some? then BooleanColumns(e.operand.value) else [];
    var ls := if e.left.Some? then ValueColumns(e.left.value) else [];
    var rs := if e.right.Some? then ValueColumns(e.right.value) else [];
    var vs := ValuesColumns(e.values);
    AgreeOnParts(c, d, cs + os + ls + rs, vs);
    AgreeOnParts(c, d, cs + os + ls, rs);
    AgreeOnParts(c, d, cs + os, ls);
    AgreeOnParts(c, d, cs, os);
    match e.kind
    case And => ListsReadOnlyColumns(e.children, c, d, []);
    case Or => ListsReadOnlyColumns(e.children, c, d, []);
    case Not => EvaluationReadsOnlyColumns(e.operand.value, c, d);
    case Compare =>
      ValueReadsOnlyColumns(e.left.value, c, d);
      ValueReadsOnlyColumns(e.right.value, c, d);
    case In =>
      ValueReadsOnlyColumns(e.left.value, c, d);
      if EvalValue(e.left.value, c).Success? && EvalValue(e.left.value, c).value.Known? {
        ItemsReadOnlyColumns(EvalValue(e.left.value, c).value.value, e.values, c, d, [], false);
      }
    case NotIn =>
      ValueReadsOnlyColumns(e.left.value, c, d);
      if EvalValue(e.left.value, c).Success? && EvalValue(e.left.value, c).value.Known? {
        ItemsReadOnlyColumns(EvalValue(e.left.value, c).value.value, e.values, c, d, [], true);
      }
    case IsNull => ValueReadsOnlyColumns(e.left.value, c, d);
    case IsNotNull => ValueReadsOnlyColumns(e.left.value, c, d);
  }

  lemma {:induction false} ListsReadOnlyColumns(
    es: seq<Boolean>, c: Context, d: Context, missing: seq<Reference>)
    requires forall i :: 0 <= i < |es| ==> EvaluableBoolean(es[i])
    requires AgreeOn(c, d, BooleansColumns(es))
    ensures EvalAnd(es, c, missing) == EvalAnd(es, d, missing)
    ensures EvalOr(es, c, missing) == EvalOr(es, d, missing)
    decreases es, 0
  {
    if es != [] {
      AgreeOnParts(c, d, BooleanColumns(es[0]), BooleansColumns(es[1..]));
      EvaluationReadsOnlyColumns(es[0], c, d);
      var r := EvalBoolean(es[0], c);
      if r.Success? {
        ListsReadOnlyColumns(es[1..], c, d, if r.value.truth == Unknown then missing + r.value.missing else missing);
      }
    }
  }

  lemma {:induction false} ItemsReadOnlyColumns(
    l: Scalar, items: seq<Value>, c: Context, d: Context, missing: seq<Reference>, negated: bool)
    requires forall i :: 0 <= i < |items| ==> EvaluableValue(items[i])
    requires AgreeOn(c, d, ValuesColumns(items))
    ensures EvalItems(l, items, c, missing, negated) == EvalItems(l, items, d, missing, negated)
    decreases items, 0
  {
    if items != [] {
      AgreeOnParts(c, d, ValueColumns(items[0]), ValuesColumns(items[1..]));
      ValueReadsOnlyColumns(items[0], c, d);
      var r := EvalValue(items[0], c);
      if r.Success? {
        ItemsReadOnlyColumns(l, items[1..], c, d,
                             if r.value.Unresolved? then missing + r.value.missing else missing, negated);
      }
    }
  }

  lemma {:induction false} ValueReadsOnlyColumns(v: Value, c: Context, d: Context)
    requires EvaluableValue(v) && AgreeOn(c, d, ValueColumns(v))
    ensures EvalValue(v, c) == EvalValue(v, d)
    decreases v, 1
  {
    var own := if (v.kind.Column? || v.kind.ColumnCopy?) && v.nodeID > 0 then [v.nodeID] else [];
    var others := if v.otherwise.Some? then ValueColumns(v.otherwise.value) else [];
    AgreeOnParts(c, d, own + CasesColumns(v.cases), others);
    AgreeOnParts(c, d, own, CasesColumns(v.cases));
    if v.kind.Column? || v.kind.ColumnCopy? { assert own[0] == v.nodeID; }
    if v.kind.Conditional? {
      CasesReadOnlyColumns(v.cases, c, d);
      ValueReadsOnlyColumns(v.otherwise.value, c, d);
    }
  }

  lemma {:induction false} CasesReadOnlyColumns(cases: seq<CaseBranch>, c: Context, d: Context)
    requires forall i :: 0 <= i < |cases| ==> EvaluableCase(cases[i])
    requires AgreeOn(c, d, CasesColumns(cases))
    ensures EvalCases(cases, c) == EvalCases(cases, d)
    decreases cases, 0
  {
    if cases != [] {
      assert cases[0].when < cases[0] && cases[0].then_ < cases[0];
      assert EvaluableCase(cases[0]);
      var ws, ts, rest := BooleanColumns(cases[0].when), ValueColumns(cases[0].then_), CasesColumns(cases[1..]);
      AgreeOnParts(c, d, ws + ts, rest);
      AgreeOnParts(c, d, ws, ts);
      EvaluationReadsOnlyColumns(cases[0].when, c, d);
      ValueReadsOnlyColumns(cases[0].then_, c, d);
      CasesReadOnlyColumns(cases[1..], c, d);
    }
  }
}
