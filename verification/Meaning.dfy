/** What conditions say, without the program's comparison: when a comparison, a null test, a membership or a case holds,
    in terms of the values involved. */
module Meaning {
  import opened Wrappers
  import opened Conditions
  import opened ConditionTheorems
  import opened Validation
  import opened Evaluator
  import opened EdgeEvaluation
  import opened KleeneLogic
  import References
  import opened Sums
  import Ordering
  import opened Text

  // ----- the order of values ---------------------------------------------------------------------

  /** The texts agree up to a position at which the first has ended, or has the smaller character. */
  ghost predicate DifferAt(a: string, b: string, k: nat) {
    && k <= |a| && k < |b| && a[..k] == b[..k]
    && (k < |a| ==> a[k] < b[k])
  }

  ghost predicate Precedes(a: string, b: string) {
    exists k :: DifferAt(a, b, k)
  }

  lemma EqualHeads(a: string, b: string, k: nat)
    ensures k > 0 && k <= |a| && k <= |b| && a[..k] == b[..k] ==> a[0] == b[0]
  {
    assert k > 0 && k <= |a| && k <= |b| ==> a[..k][0] == a[0] && b[..k][0] == b[0];
  }

  lemma DifferLater(a: string, b: string, k: nat)
    requires a != [] && b != [] && a[0] == b[0]
    ensures DifferAt(a[1..], b[1..], k) <==> DifferAt(a, b, k + 1)
  {
    if k < |a| && k + 1 < |b| {
      var p, q, u, v := a[..k + 1], b[..k + 1], a[1..][..k], b[1..][..k];
      assert forall i :: 0 <= i < k ==> u[i] == p[i + 1] && v[i] == q[i + 1];
      if u == v {
        forall i | 0 <= i < |p| ensures p[i] == q[i] {
          if i > 0 { assert u[i - 1] == v[i - 1]; }
        }
      }
      if p == q {
        forall i | 0 <= i < |u| ensures u[i] == v[i] { assert p[i + 1] == q[i + 1]; }
      }
      assert u == v <==> p == q;
    }
  }

  lemma {:induction false} TextLessIsPrecedes(a: string, b: string)
    ensures TextLess(a, b) <==> Precedes(a, b)
  {
    if a == [] || b == [] || a[0] != b[0] {
      if TextLess(a, b) { assert DifferAt(a, b, 0); }
      if Precedes(a, b) {
        var k: nat :| DifferAt(a, b, k);
        EqualHeads(a, b, k);
      }
    } else {
      TextLessIsPrecedes(a[1..], b[1..]);
      assert !DifferAt(a, b, 0);
      hide DifferAt;
      if Precedes(a[1..], b[1..]) {
        var k: nat :| DifferAt(a[1..], b[1..], k);
        DifferLater(a, b, k);
      }
      if Precedes(a, b) {
        var k: nat :| DifferAt(a, b, k);
        DifferLater(a, b, k - 1);
      }
    }
  }

  predicate SameType(a: Scalar, b: Scalar) {
    (a.NumberScalar? && b.NumberScalar?) || (a.TextScalar? && b.TextScalar?) || (a.BoolScalar? && b.BoolScalar?)
  }

  /** Numbers by size, texts by the first difference, FALSE before TRUE. */
  ghost predicate Smaller(a: Scalar, b: Scalar)
    requires SameType(a, b)
  {
    match a
    case NumberScalar(x) => x < b.n
    case TextScalar(s) => Precedes(s, b.s)
    case BoolScalar(x) => !x && b.b
  }

  ghost predicate Related(a: Scalar, op: Operator, b: Scalar)
    requires SameType(a, b) && KnownOperator(op)
  {
    match op
    case Eq => a == b
    case Ne => a != b
    case Gt => Smaller(b, a)
    case Gte => Smaller(b, a) || a == b
    case Lt => Smaller(a, b)
    case Lte => Smaller(a, b) || a == b
  }

  lemma SmallerIsTotal(a: Scalar, b: Scalar)
    requires SameType(a, b)
    ensures Smaller(a, b) || a == b || Smaller(b, a)
    ensures !(Smaller(a, b) && Smaller(b, a)) && (a == b ==> !Smaller(a, b))
  {
    if a.TextScalar? {
      TextLessIsPrecedes(a.s, b.s);
      TextLessIsPrecedes(b.s, a.s);
      TextOrder(a.s, b.s);
    }
  }

  lemma TextOrder(a: string, b: string)
    ensures TextLess(a, b) || a == b || TextLess(b, a)
    ensures !(TextLess(a, b) && TextLess(b, a)) && (a == b ==> !TextLess(a, b))
  {
    if a != b { TextLessIsTotal(a, b); }
    TextLessIsIrreflexive(a);
    if TextLess(a, b) && TextLess(b, a) { TextLessIsTransitive(a, b, a); }
  }

  // ----- comparisons -----------------------------------------------------------------------------

  predicate IsComparison(e: Boolean) {
    e.kind == Compare && e.left.Some? && e.right.Some? && KnownOperator(e.operator)
  }

  predicate Denotes(v: Option<Value>, c: Context, s: Scalar) {
    v.Some? && EvalValue(v.value, c) == Success(Known(s))
  }

  predicate Lacks(v: Option<Value>, c: Context, missing: seq<Reference>) {
    v.Some? && EvalValue(v.value, c) == Success(Unresolved(missing))
  }

  /** The truth of a comparison of two values. */
  ghost function ComparisonTruth(a: Scalar, op: Operator, b: Scalar): Truth
    requires KnownOperator(op)
  {
    if a.Null? || b.Null? then Unknown
    else if SameType(a, b) then (if Related(a, op, b) then True else False)
    else if op == Eq then False
    else if op == Ne then True
    else Unknown
  }

  /** The answer is this, also where the validator stands before the evaluator. */
  predicate Says(e: Boolean, c: Context, t: Truth) {
    && EvalBoolean(e, c) == Success(Evaluation(t, []))
    && (AcceptedBoolean(e, DefaultLimits) ==> EvaluatedBoolean(e, c) == Success(Evaluation(t, [])))
  }

  lemma SaysWhat(e: Boolean, c: Context, t: Truth)
    requires EvalBoolean(e, c) == Success(Evaluation(t, []))
    ensures Says(e, c, t)
  {
    assert Normal([]) == [];
  }

  lemma ComparisonMeans(e: Boolean, c: Context, a: Scalar, b: Scalar)
    requires IsComparison(e) && Denotes(e.left, c, a) && Denotes(e.right, c, b)
    ensures Says(e, c, ComparisonTruth(a, e.operator, b))
  {
    if SameType(a, b) {
      SmallerIsTotal(a, b);
      if a.TextScalar? {
        TextLessIsPrecedes(a.s, b.s);
        TextLessIsPrecedes(b.s, a.s);
      }
    }
    hide AcceptedBoolean, EvaluatedBoolean, Precedes, TextLess;
    SaysWhat(e, c, ComparisonTruth(a, e.operator, b));
  }

  /** For numbers, the six operators are the six relations of arithmetic. */
  lemma NumbersCompare(e: Boolean, c: Context, x: real, y: real)
    requires IsComparison(e) && Denotes(e.left, c, NumberScalar(x)) && Denotes(e.right, c, NumberScalar(y))
    ensures e.operator == Eq ==> Says(e, c, if x == y then True else False)
    ensures e.operator == Ne ==> Says(e, c, if x != y then True else False)
    ensures e.operator == Gt ==> Says(e, c, if x > y then True else False)
    ensures e.operator == Gte ==> Says(e, c, if x >= y then True else False)
    ensures e.operator == Lt ==> Says(e, c, if x < y then True else False)
    ensures e.operator == Lte ==> Says(e, c, if x <= y then True else False)
  {
    ComparisonMeans(e, c, NumberScalar(x), NumberScalar(y));
    hide Says, EvalValue;
  }

  /** A comparison with an operand that is missing is UNKNOWN and misses what its operands miss. */
  lemma ComparisonLacks(e: Boolean, c: Context)
    requires IsComparison(e) && EvalValue(e.left.value, c).Success? && EvalValue(e.right.value, c).Success?
    requires EvalValue(e.left.value, c).value.Unresolved? || EvalValue(e.right.value, c).value.Unresolved?
    ensures EvalBoolean(e, c).Success? && EvalBoolean(e, c).value.truth == Unknown
    ensures forall m :: m in EvalBoolean(e, c).value.missing <==> Lacking(e.left.value, c, m) || Lacking(e.right.value, c, m)
  {
  }

  predicate Lacking(v: Value, c: Context, m: Reference)
    requires EvalValue(v, c).Success?
  {
    EvalValue(v, c).value.Unresolved? && m in EvalValue(v, c).value.missing
  }

  // ----- null tests and membership ---------------------------------------------------------------

  lemma NullTestMeans(e: Boolean, c: Context, s: Scalar)
    requires e.kind == IsNull || e.kind == IsNotNull
    requires Denotes(e.left, c, s)
    ensures e.kind == IsNull ==> Says(e, c, if s == Null then True else False)
    ensures e.kind == IsNotNull ==> Says(e, c, if s == Null then False else True)
  {
    SaysWhat(e, c, if (s == Null) == (e.kind == IsNull) then True else False);
  }

  lemma NullTestLacks(e: Boolean, c: Context, missing: seq<Reference>)
    requires e.kind == IsNull || e.kind == IsNotNull || e.kind == In || e.kind == NotIn
    requires Lacks(e.left, c, missing)
    ensures EvalBoolean(e, c) == Success(Evaluation(Unknown, missing))
  {
  }

  /** Some item is known to be this value. */
  predicate Contains(vs: seq<Value>, c: Context, s: Scalar) {
    exists i :: 0 <= i < |vs| && EvalValue(vs[i], c) == Success(Known(s))
  }

  /** Some item names something that is missing. */
  predicate SomeLack(vs: seq<Value>, c: Context) {
    exists i :: 0 <= i < |vs| && EvalValue(vs[i], c).Success? && EvalValue(vs[i], c).value.Unresolved?
      && EvalValue(vs[i], c).value.missing != []
  }

  /** `in` holds exactly when the left value is not null and is the value of an item. */
  lemma MembershipMeans(e: Boolean, c: Context, s: Scalar)
    requires e.kind == In || e.kind == NotIn
    requires Denotes(e.left, c, s) && ItemsEvaluate(e.values, c)
    ensures EvalBoolean(e, c).Success?
    ensures var found, answer := s != Null && Contains(e.values, c, s), EvalBoolean(e, c).value.truth;
      answer == if found then (if e.kind == In then True else False)
                else if SomeLack(e.values, c) then Unknown
                else if e.kind == In then False else True
  {
    ItemsMean(s, e.values, c, [], e.kind == NotIn);
  }

  lemma {:induction false} ItemsMean(s: Scalar, vs: seq<Value>, c: Context, missing: seq<Reference>, negated: bool)
    requires ItemsEvaluate(vs, c)
    ensures EvalItems(s, vs, c, missing, negated).Success?
    ensures EvalItems(s, vs, c, missing, negated).value.truth ==
      if s != Null && Contains(vs, c, s) then (if negated then False else True)
      else if missing != [] || SomeLack(vs, c) then Unknown
      else if negated then True else False
  {
    if vs != [] {
      var first, rest := vs[0], vs[1..];
      assert ItemsEvaluate(rest, c) by { assert forall i :: 0 <= i < |rest| ==> rest[i] == vs[i + 1]; }
      var item := EvalValue(first, c).value;
      SplitItems(vs, c, s);
      hide EvalValue, Contains, SomeLack;
      if item.Unresolved? {
        ItemsMean(s, rest, c, missing + item.missing, negated);
      } else {
        EqualMeans(s, item.value);
        ItemsMean(s, rest, c, missing, negated);
      }
    }
  }

  lemma SplitItems(vs: seq<Value>, c: Context, s: Scalar)
    requires vs != [] && ItemsEvaluate(vs, c)
    ensures Contains(vs, c, s) <==> EvalValue(vs[0], c) == Success(Known(s)) || Contains(vs[1..], c, s)
    ensures SomeLack(vs, c) <==>
      (EvalValue(vs[0], c).value.Unresolved? && EvalValue(vs[0], c).value.missing != []) || SomeLack(vs[1..], c)
  {
    hide EvalValue;
    assert forall i :: 0 <= i < |vs| - 1 ==> vs[1..][i] == vs[i + 1];
    if Contains(vs[1..], c, s) {
      var i :| 0 <= i < |vs| - 1 && EvalValue(vs[1..][i], c) == Success(Known(s));
      assert vs[i + 1] == vs[1..][i];
    }
    if SomeLack(vs[1..], c) {
      var i :| 0 <= i < |vs| - 1 && EvalValue(vs[1..][i], c).Success? && EvalValue(vs[1..][i], c).value.Unresolved?
        && EvalValue(vs[1..][i], c).value.missing != [];
      assert vs[i + 1] == vs[1..][i];
    }
  }

  lemma EqualMeans(a: Scalar, b: Scalar)
    ensures CompareRuntime(a, b, Eq).Success?
    ensures CompareRuntime(a, b, Eq).value == True <==> a == b && a != Null
  {
    if a.TextScalar? && b.TextScalar? { TextOrder(a.s, b.s); }
  }

  // ----- values ----------------------------------------------------------------------------------

  /** A column or parameter is what the context binds it to, or is missing. */
  lemma NamesMean(v: Value, c: Context)
    ensures v.kind == Column || v.kind == ColumnCopy ==>
      EvalValue(v, c) == Success(if v.nodeID in c.columns then Known(c.columns[v.nodeID]) else Unresolved([Reference(v.nodeID, "")]))
    ensures v.kind == Parameter ==>
      EvalValue(v, c) == Success(if v.parameter in c.parameters then Known(c.parameters[v.parameter])
                                 else Unresolved([Reference(0, v.parameter)]))
  {
  }

  /** A literal is what its JSON says. */
  lemma LiteralsMean(v: Value, c: Context)
    requires v.kind == LiteralValue && v.literal.Some?
    ensures v.literal.value.value == JsonNull ==> EvalValue(v, c) == Success(Known(Null))
    ensures forall b :: v.literal.value.value == JsonBool(b) ==> EvalValue(v, c) == Success(Known(BoolScalar(b)))
    ensures forall s :: v.literal.value.value == JsonText(s) ==> EvalValue(v, c) == Success(Known(TextScalar(s)))
    ensures forall n, plain :: v.literal.value.value == JsonNumber(n, plain) ==> EvalValue(v, c) == Success(Known(NumberScalar(n)))
  {
  }

  predicate GuardIs(v: Value, c: Context, i: nat, t: Truth)
    requires i < |v.cases|
  {
    EvalBoolean(v.cases[i].when, c).Success? && EvalBoolean(v.cases[i].when, c).value.truth == t
  }

  /** A case is the value of the first branch whose guard is TRUE after guards that are FALSE; an UNKNOWN guard before
      that leaves it missing what the guard misses; and when all are FALSE it is the value of the otherwise. */
  lemma CaseMeans(v: Value, c: Context, n: nat)
    requires v.kind == Conditional && n <= |v.cases| && forall i :: 0 <= i < n ==> GuardIs(v, c, i, False)
    ensures n < |v.cases| && GuardIs(v, c, n, True) ==> EvalValue(v, c) == EvalValue(v.cases[n].then_, c)
    ensures n < |v.cases| && GuardIs(v, c, n, Unknown) ==>
      EvalValue(v, c) == Success(Unresolved(EvalBoolean(v.cases[n].when, c).value.missing))
    ensures n == |v.cases| && v.otherwise.Some? ==> EvalValue(v, c) == EvalValue(v.otherwise.value, c)
  {
    forall i | 0 <= i < n
      ensures EvalBoolean(v.cases[i].when, c).Success? && EvalBoolean(v.cases[i].when, c).value.truth == False
    {
      assert GuardIs(v, c, i, False);
    }
    SkipCases(v.cases, c, n);
    assert v.cases[0..] == v.cases;
    if n < |v.cases| { assert v.cases[n..][0] == v.cases[n]; }
  }

  lemma {:induction false} SkipCases(cases: seq<CaseBranch>, c: Context, n: nat)
    requires n <= |cases|
    requires forall i :: 0 <= i < n ==> EvalBoolean(cases[i].when, c).Success? && EvalBoolean(cases[i].when, c).value.truth == False
    ensures EvalCases(cases, c) == EvalCases(cases[n..], c)
    decreases n
  {
    if n == 0 {
      assert cases[0..] == cases;
    } else {
      assert forall i :: 0 <= i < n - 1 ==> cases[1..][i] == cases[i + 1];
      SkipCases(cases[1..], c, n - 1);
      assert cases[1..][n - 1..] == cases[n..];
    }
  }

  // ----- contexts --------------------------------------------------------------------------------

  /** The value that a JSON scalar stands for. */
  predicate StandsFor(raw: Json, s: Scalar) {
    || (raw == JsonNull && s == Null)
    || (raw.JsonBool? && s == BoolScalar(raw.b))
    || (raw.JsonText? && s == TextScalar(raw.s))
    || (raw.JsonNumber? && s == NumberScalar(raw.n))
  }

  predicate Scalable(raw: Raw, limits: ContextLimits) {
    && 1 <= raw.bytes <= limits.maxValueBytes
    && (raw.value == JsonNull || raw.value.JsonBool? || raw.value.JsonText?
        || (raw.value.JsonNumber? && raw.numberBytes <= limits.maxNumberBytes))
  }

  /** A context is admitted when every bound, positive column and named parameter has a scalar within the limits, and all
      together are within the total: eight bytes for a column, the name of a parameter, and the values. */
  lemma AdmissionMeans(input: RawContext, limits: ContextLimits)
    ensures Admissible(input, limits) <==>
      && limits.maxColumns > 0 && limits.maxParameters > 0 && limits.maxTotalBytes > 0
      && limits.maxValueBytes > 0 && limits.maxNumberBytes > 0 && limits.maxParameterLength > 0
      && |input.columns| <= limits.maxColumns && |input.parameters| <= limits.maxParameters
      && (forall k :: k in input.columns ==> 1 <= k && Scalable(input.columns[k], limits))
      && (forall k :: k in input.parameters ==>
            |Trim(k)| > 0 && |k| <= limits.maxParameterLength && Scalable(input.parameters[k], limits))
      && Sum(input.columns.Keys, ColumnBytes(input)) + Sum(input.parameters.Keys, ParameterBytes(input)) <= limits.maxTotalBytes
    ensures forall k :: k in input.columns ==> ColumnBytes(input)(k) == 8 + input.columns[k].bytes
    ensures forall k :: k in input.parameters ==> ParameterBytes(input)(k) == |k| + input.parameters[k].bytes
  {
    hide Sum, Trim;
    assert forall raw: Raw :: UsableRaw(raw, limits) <==> Scalable(raw, limits);
    hide UsableRaw, Scalable;
  }

  /** And it binds each of them to the value its JSON stands for, and nothing else. */
  lemma ContextBinds(input: RawContext, limits: ContextLimits)
    requires Admissible(input, limits)
    ensures var c := ContextOf(input, limits);
      && c.columns.Keys == input.columns.Keys && c.parameters.Keys == input.parameters.Keys
      && (forall k :: k in input.columns ==> StandsFor(input.columns[k].value, c.columns[k]))
      && (forall k :: k in input.parameters ==> StandsFor(input.parameters[k].value, c.parameters[k]))
  {
    hide Sum, Trim;
    forall k | k in input.columns ensures StandsFor(input.columns[k].value, ScalarOf(input.columns[k], limits)) {
      assert UsableRaw(input.columns[k], limits);
    }
    forall k | k in input.parameters ensures StandsFor(input.parameters[k].value, ScalarOf(input.parameters[k], limits)) {
      assert UsableRaw(input.parameters[k], limits);
    }
  }

  // ----- what is missing -------------------------------------------------------------------------

  /** By node, where a parameter counts as node zero, and then by name. */
  ghost predicate ListedBefore(a: Reference, b: Reference) {
    a.nodeID < b.nodeID || (a.nodeID == b.nodeID && Precedes(a.parameter, b.parameter))
  }

  /** The missing references of an answer, each once and in this order. */
  lemma MissingInOrder(missing: seq<Reference>)
    ensures forall m :: m in Normal(missing) <==> m in missing
    ensures forall i, j :: 0 <= i < j < |Normal(missing)| ==> ListedBefore(Normal(missing)[i], Normal(missing)[j])
  {
    ReferenceOrder();
    Ordering.NormalizedIsStrict(ReferenceLess, missing);
    forall i, j | 0 <= i < j < |Normal(missing)| ensures ListedBefore(Normal(missing)[i], Normal(missing)[j]) {
      assert ReferenceLess(Normal(missing)[i], Normal(missing)[j]);
      TextLessIsPrecedes(Normal(missing)[i].parameter, Normal(missing)[j].parameter);
    }
  }

  // ----- edges -----------------------------------------------------------------------------------

  predicate PartIs(e: Option<Boolean>, c: Context, t: Truth) {
    e.Some? && EvaluatedBoolean(e.value, c).Success? && EvaluatedBoolean(e.value, c).value.truth == t
  }

  predicate PartLacks(e: Option<Boolean>, c: Context, m: Reference) {
    PartIs(e, c, Unknown) && m in EvaluatedBoolean(e.value, c).value.missing
  }

  predicate TransformLacks(v: Value, c: Context, m: Reference) {
    && v.kind != OtherValue("") && EvaluatedValue(v, c).Success? && EvaluatedValue(v, c).value.truth == Unknown
    && m in EvaluatedValue(v, c).value.missing
  }

  /** An edge is FALSE exactly when its guard or its selector is; otherwise it misses exactly what its guard, selector and
      transform miss, and is UNKNOWN exactly when that is anything. */
  lemma EdgeMeans(content: References.Content, c: Context)
    requires EvalEdge(content, c).Success?
    ensures var r := EvalEdge(content, c).value;
      && (r.truth == False <==> PartIs(content.guard, c, False) || PartIs(content.selector, c, False))
      && (r.truth == False ==> r.missing == [])
      && (r.truth == Unknown <==> r.truth != False && r.missing != [])
      && (r.truth != False ==> forall m :: m in r.missing <==>
            PartLacks(content.guard, c, m) || PartLacks(content.selector, c, m) || TransformLacks(content.transform, c, m))
  {
    EdgeParts(content, c, Reference(0, ""));
    hide *;
    forall m ensures EvalEdge(content, c).value.truth != False ==> (m in EvalEdge(content, c).value.missing <==>
      PartLacks(content.guard, c, m) || PartLacks(content.selector, c, m) || TransformLacks(content.transform, c, m))
    {
      EdgeParts(content, c, m);
    }
  }

  lemma EdgeParts(content: References.Content, c: Context, m: Reference)
    requires EvalEdge(content, c).Success?
    ensures var r := EvalEdge(content, c).value;
      && (r.truth == False <==> PartIs(content.guard, c, False) || PartIs(content.selector, c, False))
      && (r.truth == False ==> r.missing == [])
      && (r.truth == Unknown <==> r.truth != False && r.missing != [])
      && (r.truth != False ==> (m in r.missing <==>
            PartLacks(content.guard, c, m) || PartLacks(content.selector, c, m) || TransformLacks(content.transform, c, m)))
  {
    hide Combine, EvaluatedBoolean, EvaluatedValue;
    var guard, selector := OptionalEvaluation(content.guard, c).value, OptionalEvaluation(content.selector, c).value;
    var transform := TransformEvaluation(content.transform, c).value;
    CombineMeans(guard + selector + transform, [], m);
    FalseTogether(guard, selector, transform);
    PartsTogether(guard, selector, transform, m);
    OptionalMeans(content.guard, c, m);
    OptionalMeans(content.selector, c, m);
    TransformMeans(content.transform, c, m);
    hide SomeFalse, PartsLack, PartIs, PartLacks, TransformLacks;
  }

  lemma OptionalMeans(e: Option<Boolean>, c: Context, m: Reference)
    requires OptionalEvaluation(e, c).Success?
    ensures SomeFalse(OptionalEvaluation(e, c).value) <==> PartIs(e, c, False)
    ensures PartsLack(OptionalEvaluation(e, c).value, m) <==> PartLacks(e, c, m)
  {
    hide EvaluatedBoolean;
    if e.Some? {
      var parts := OptionalEvaluation(e, c).value;
      assert parts == [EvaluatedBoolean(e.value, c).value] && parts[0] == EvaluatedBoolean(e.value, c).value;
    }
  }

  lemma TransformMeans(v: Value, c: Context, m: Reference)
    requires TransformEvaluation(v, c).Success?
    ensures !SomeFalse(TransformEvaluation(v, c).value)
    ensures PartsLack(TransformEvaluation(v, c).value, m) <==> TransformLacks(v, c, m)
  {
    if v.kind != OtherValue("") {
      var parts := TransformEvaluation(v, c).value;
      assert EvaluatedValue(v, c).value.truth != False;
      hide EvaluatedValue;
      assert parts == [EvaluatedValue(v, c).value] && parts[0] == EvaluatedValue(v, c).value;
    }
  }

  predicate PartsLack(parts: seq<Evaluation>, m: Reference) {
    exists i :: 0 <= i < |parts| && parts[i].truth == Unknown && m in parts[i].missing
  }

  predicate SomeFalse(parts: seq<Evaluation>) {
    exists i :: 0 <= i < |parts| && parts[i].truth == False
  }

  lemma PartsTogether(a: seq<Evaluation>, b: seq<Evaluation>, d: seq<Evaluation>, m: Reference)
    ensures PartsLack(a + b + d, m) <==> PartsLack(a, m) || PartsLack(b, m) || PartsLack(d, m)
  {
    var all := a + b + d;
    assert forall i :: 0 <= i < |a| ==> all[i] == a[i];
    assert forall i :: 0 <= i < |b| ==> all[|a| + i] == b[i];
    assert forall i :: 0 <= i < |d| ==> all[|a| + |b| + i] == d[i];
    if PartsLack(all, m) {
      var i :| 0 <= i < |all| && all[i].truth == Unknown && m in all[i].missing;
      if i < |a| {} else if i < |a| + |b| { assert all[i] == b[i - |a|]; } else { assert all[i] == d[i - |a| - |b|]; }
    }
  }

  lemma FalseTogether(a: seq<Evaluation>, b: seq<Evaluation>, d: seq<Evaluation>)
    ensures SomeFalse(a + b + d) <==> SomeFalse(a) || SomeFalse(b) || SomeFalse(d)
  {
    var all := a + b + d;
    assert forall i :: 0 <= i < |a| ==> all[i] == a[i];
    assert forall i :: 0 <= i < |b| ==> all[|a| + i] == b[i];
    assert forall i :: 0 <= i < |d| ==> all[|a| + |b| + i] == d[i];
    if SomeFalse(all) {
      var i :| 0 <= i < |all| && all[i].truth == False;
      if i < |a| {} else if i < |a| + |b| { assert all[i] == b[i - |a|]; } else { assert all[i] == d[i - |a| - |b|]; }
    }
  }

  lemma SplitParts(parts: seq<Evaluation>, m: Reference)
    requires parts != []
    ensures PartsLack(parts, m) <==> (parts[0].truth == Unknown && m in parts[0].missing) || PartsLack(parts[1..], m)
    ensures SomeFalse(parts) <==> parts[0].truth == False || SomeFalse(parts[1..])
  {
    assert forall i :: 0 <= i < |parts| - 1 ==> parts[1..][i] == parts[i + 1];
    if PartsLack(parts[1..], m) {
      var i :| 0 <= i < |parts| - 1 && parts[1..][i].truth == Unknown && m in parts[1..][i].missing;
      assert parts[i + 1] == parts[1..][i];
    }
    if SomeFalse(parts[1..]) {
      var i :| 0 <= i < |parts| - 1 && parts[1..][i].truth == False;
      assert parts[i + 1].truth == False;
    }
  }

  lemma {:induction false} CombineMeans(parts: seq<Evaluation>, missing: seq<Reference>, m: Reference)
    ensures var r := Combine(parts, missing);
      && (r.truth == False <==> SomeFalse(parts)) && (r.truth == False ==> r.missing == [])
      && (r.truth == Unknown <==> r.truth != False && r.missing != [])
      && (r.truth != False ==> (m in r.missing <==> m in missing || PartsLack(parts, m)))
    decreases |parts|
  {
    if parts == [] {
      if missing != [] { NormalKeeps(missing); }
    } else {
      SplitParts(parts, m);
      hide PartsLack, SomeFalse;
      CombineMeans(parts[1..], if parts[0].truth == Unknown then missing + parts[0].missing else missing, m);
    }
  }

  lemma NormalKeeps(missing: seq<Reference>)
    requires missing != []
    ensures Normal(missing) != [] && forall m :: m in Normal(missing) <==> m in missing
  {
    ReferenceOrder();
    Ordering.NormalizedIsStrict(ReferenceLess, missing);
    assert missing[0] in Normal(missing);
  }
}
