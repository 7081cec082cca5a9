/** The evaluator as the program runs it: accumulating loops over the syntax, budgeted preparation of the
    context, and normalization of the missing references. */
module Evaluator {
  import opened Wrappers
  import opened Conditions
  import opened ConditionTheorems
  import opened Validation
  import opened Ordering
  import opened Sums
  import opened Text

  // ----- the two evaluators ----------------------------------------------------------------------

  method EvaluateBoolean(e: Boolean, c: Context) returns (r: Outcome<Evaluation>)
    ensures r == EvalBoolean(e, c)
    decreases e, 1
  {
    match e.kind
    case And =>
      var missing: seq<Reference> := [];
      for i := 0 to |e.children|
        invariant EvalAnd(e.children[i..], c, missing) == EvalAnd(e.children, c, [])
      {
        assert e.children[i..][1..] == e.children[i + 1..];
        var result :- EvaluateBoolean(e.children[i], c);
        if result.truth == False { return Success(Evaluation(False, [])); }
        if result.truth == Unknown { missing := missing + result.missing; }
      }
      return Success(UnknownOr(missing, True));
    case Or =>
      var missing: seq<Reference> := [];
      for i := 0 to |e.children|
        invariant EvalOr(e.children[i..], c, missing) == EvalOr(e.children, c, [])
      {
        assert e.children[i..][1..] == e.children[i + 1..];
        var result :- EvaluateBoolean(e.children[i], c);
        if result.truth == True { return Success(Evaluation(True, [])); }
        if result.truth == Unknown { missing := missing + result.missing; }
      }
      return Success(UnknownOr(missing, False));
    case Not =>
      if e.operand.None? { return Failure(NilDereference); }
      var result :- EvaluateBoolean(e.operand.value, c);
      return Success(Negate(result));
    case Compare =>
      if e.left.None? || e.right.None? { return Failure(NilDereference); }
      var left :- EvaluateValue(e.left.value, c);
      var right :- EvaluateValue(e.right.value, c);
      return EvalCompare(left, right, e.operator);
    case In => r := EvaluateMembership(e, c, false);
    case NotIn => r := EvaluateMembership(e, c, true);
    case IsNull => r := EvaluateNullTest(e, c, false);
    case IsNotNull => r := EvaluateNullTest(e, c, true);
    case OtherBoolean(_) => return Failure(EvaluationFailed);
  }

  method EvaluateMembership(e: Boolean, c: Context, negated: bool) returns (r: Outcome<Evaluation>)
    ensures r == EvalMembership(e, c, negated)
    decreases e, 0
  {
    if e.left.None? { return Failure(NilDereference); }
    var left :- EvaluateValue(e.left.value, c);
    if left.Unresolved? { return Success(Evaluation(Unknown, left.missing)); }
    var missing: seq<Reference> := [];
    for i := 0 to |e.values|
      invariant EvalItems(left.value, e.values[i..], c, missing, negated)
             == EvalItems(left.value, e.values, c, [], negated)
    {
      assert e.values[i..][1..] == e.values[i + 1..];
      var candidate :- EvaluateValue(e.values[i], c);
      if candidate.Unresolved? {
        missing := missing + candidate.missing;
      } else {
        var equal :- CompareRuntime(left.value, candidate.value, Eq);
        if equal == True { return Success(Evaluation(TruthOf(!negated), [])); }
      }
    }
    return Success(UnknownOr(missing, TruthOf(negated)));
  }

  method EvaluateNullTest(e: Boolean, c: Context, negated: bool) returns (r: Outcome<Evaluation>)
    ensures r == EvalNullTest(e, c, negated)
    decreases e, 0
  {
    if e.left.None? { return Failure(NilDereference); }
    var value :- EvaluateValue(e.left.value, c);
    if value.Unresolved? { return Success(Evaluation(Unknown, value.missing)); }
    return Success(Evaluation(TruthOf(value.value.Null? != negated), []));
  }

  method EvaluateValue(v: Value, c: Context) returns (r: Outcome<Resolved>)
    ensures r == EvalValue(v, c)
    decreases v, 1
  {
    match v.kind
    case Column => return Success(LookupColumn(v.nodeID, c));
    case ColumnCopy => return Success(LookupColumn(v.nodeID, c));
    case Parameter => return Success(LookupParameter(v.parameter, c));
    case LiteralValue =>
      if v.literal.None? { return Failure(NilDereference); }
      var s :- DecodeScalar(v.literal.value.value);
      return Success(Known(s));
    case Conditional =>
      for i := 0 to |v.cases|
        invariant EvalCases(v.cases[i..], c) == EvalCases(v.cases, c)
      {
        assert v.cases[i..][1..] == v.cases[i + 1..];
        assert v.cases[i].when < v.cases[i] && v.cases[i].then_ < v.cases[i];
        var condition :- EvaluateBoolean(v.cases[i].when, c);
        if condition.truth == Unknown { return Success(Unresolved(condition.missing)); }
        if condition.truth == True {
          r := EvaluateValue(v.cases[i].then_, c);
          return;
        }
      }
      if v.otherwise.None? { return Failure(NilDereference); }
      r := EvaluateValue(v.otherwise.value, c);
    case OtherValue(_) => return Failure(EvaluationFailed);
  }

  // ----- the validated, normalized entry points --------------------------------------------------

  function Normal(missing: seq<Reference>): seq<Reference> {
    Normalized(ReferenceLess, missing)
  }

  function EvaluatedBoolean(e: Boolean, c: Context): Outcome<Evaluation> {
    if !AcceptedBoolean(e, DefaultLimits) then Failure(InvalidExpression)
    else
      var r :- EvalBoolean(e, c);
      Success(Evaluation(r.truth, Normal(r.missing)))
  }

  function EvaluatedValue(v: Value, c: Context): Outcome<Evaluation> {
    if !AcceptedValue(v, DefaultLimits) then Failure(InvalidExpression)
    else
      var r :- EvalValue(v, c);
      Success(if r.Known? then Evaluation(True, []) else Evaluation(Unknown, Normal(r.missing)))
  }

  method NormalizeMissing(missing: seq<Reference>) returns (kept: seq<Reference>)
    ensures kept == Normal(missing)
  {
    var values := new Reference[|missing|](i requires 0 <= i < |missing| => missing[i]);
    assert values[..] == missing;
    kept := NormalizeInPlace(ReferenceLess, values);
  }

  method EvaluateBooleanPrepared(e: Boolean, c: Context) returns (r: Outcome<Evaluation>)
    ensures r == EvaluatedBoolean(e, c)
  {
    var valid := ValidateBoolean(e, DefaultLimits);
    if !valid { return Failure(InvalidExpression); }
    var evaluation :- EvaluateBoolean(e, c);
    var kept := NormalizeMissing(evaluation.missing);
    return Success(evaluation.(missing := kept));
  }

  method EvaluateValuePrepared(v: Value, c: Context) returns (r: Outcome<Evaluation>)
    ensures r == EvaluatedValue(v, c)
  {
    var valid := ValidateValue(v, DefaultLimits);
    if !valid { return Failure(InvalidExpression); }
    var value :- EvaluateValue(v, c);
    if value.Known? { return Success(Evaluation(True, [])); }
    var kept := NormalizeMissing(value.missing);
    return Success(Evaluation(Unknown, kept));
  }

  lemma NormalElements(missing: seq<Reference>)
    ensures forall r :: r in Normal(missing) <==> r in missing
    ensures Normal(missing) == [] <==> missing == []
    ensures StrictlyAscending(ReferenceLess, Normal(missing))
  {
    ReferenceOrder();
    NormalizedIsStrict(ReferenceLess, missing);
    if missing != [] { assert missing[0] in Normal(missing); }
    if Normal(missing) != [] { assert Normal(missing)[0] in missing; }
  }

  /** The certificate theorem for the public entry point. Whether an expression is accepted does not
      depend on the context; for an accepted one, the reported references are exactly unbound, sorted and
      distinct, the columns are among the collected ones, and avoiding them pins the evaluation down. */
  lemma PreparedCertificate(e: Boolean, c: Context, d: Context)
    requires EvaluatedBoolean(e, c).Success?
    ensures EvaluatedBoolean(e, d).Success?
    ensures var r := EvaluatedBoolean(e, c).value;
      && (r.truth != Unknown ==> r.missing == [])
      && StrictlyAscending(ReferenceLess, r.missing)
      && Accounted(c, r.missing, BooleanColumns(e))
      && (Extends(c, d) && Avoids(d, r.missing) ==> EvaluatedBoolean(e, d) == EvaluatedBoolean(e, c))
  {
    ShapeEvaluates(e, DefaultLimits);
    EvaluationAccounts(e, c);
    EvaluationAccounts(e, d);
    var raw := EvalBoolean(e, c).value.missing;
    NormalElements(raw);
    AccountedNormal(c, raw, BooleanColumns(e));
    if Extends(c, d) && Avoids(d, Normal(raw)) {
      AvoidsNormal(d, raw);
      MissingIsCertificate(e, c, d);
    }
  }

  lemma PreparedValueCertificate(v: Value, c: Context, d: Context)
    requires EvaluatedValue(v, c).Success?
    ensures EvaluatedValue(v, d).Success?
    ensures var r := EvaluatedValue(v, c).value;
      && (r.truth != Unknown ==> r.missing == [])
      && r.truth != False
      && StrictlyAscending(ReferenceLess, r.missing)
      && Accounted(c, r.missing, ValueColumns(v))
      && (Extends(c, d) && Avoids(d, r.missing) ==> EvaluatedValue(v, d) == EvaluatedValue(v, c))
  {
    ValueShapeEvaluates(v, DefaultLimits);
    ValueAccounts(v, c);
    ValueAccounts(v, d);
    var raw := MissingOf(EvalValue(v, c).value);
    NormalElements(raw);
    AccountedNormal(c, raw, ValueColumns(v));
    if Extends(c, d) && Avoids(d, EvaluatedValue(v, c).value.missing) {
      AvoidsNormal(d, raw);
      ValueCertificate(v, c, d);
    }
  }

  lemma AccountedNormal(c: Context, missing: seq<Reference>, columns: seq<int>)
    requires Accounted(c, missing, columns)
    ensures Accounted(c, Normal(missing), columns)
  {
    NormalElements(missing);
    forall i | 0 <= i < |Normal(missing)|
      ensures !Bound(c, Normal(missing)[i])
      ensures Normal(missing)[i].nodeID != 0 ==> Normal(missing)[i].nodeID in columns
    {
      assert Normal(missing)[i] in missing;
    }
  }

  lemma AvoidsNormal(d: Context, missing: seq<Reference>)
    requires Avoids(d, Normal(missing))
    ensures Avoids(d, missing)
  {
    NormalElements(missing);
    forall i | 0 <= i < |missing| ensures !Bound(d, missing[i]) {
      assert missing[i] in Normal(missing);
    }
  }

  // ----- preparing a context ---------------------------------------------------------------------

  /** An undecoded context value: its text length, the length of its number text, and what it decodes to. */
  datatype Raw = Raw(value: Json, bytes: nat, numberBytes: nat)

  datatype RawContext = RawContext(columns: map<int, Raw>, parameters: map<string, Raw>)

  datatype ContextLimits = ContextLimits(
    maxColumns: int, maxParameters: int, maxTotalBytes: int,
    maxValueBytes: int, maxNumberBytes: int, maxParameterLength: int)

  const DefaultContextLimits := ContextLimits(1000, 1000, 262144, 8192, 256, 2000)

  function DecodeLimited(raw: Raw, limits: ContextLimits): Outcome<Scalar> {
    if raw.value.JsonNumber? && raw.numberBytes > limits.maxNumberBytes then Failure(EvaluationFailed)
    else DecodeScalar(raw.value)
  }

  predicate UsableRaw(raw: Raw, limits: ContextLimits) {
    0 < raw.bytes <= limits.maxValueBytes && DecodeLimited(raw, limits).Success?
  }

  predicate UsableLimits(input: RawContext, limits: ContextLimits) {
    && limits.maxColumns >= 1 && limits.maxParameters >= 1 && limits.maxTotalBytes >= 1
    && limits.maxValueBytes >= 1 && limits.maxNumberBytes >= 1 && limits.maxParameterLength >= 1
    && |input.columns| <= limits.maxColumns && |input.parameters| <= limits.maxParameters
  }

  function ColumnBytes(input: RawContext): int -> nat {
    k => if k in input.columns then 8 + input.columns[k].bytes else 0
  }

  function ParameterBytes(input: RawContext): string -> nat {
    k => if k in input.parameters then |k| + input.parameters[k].bytes else 0
  }

  lemma ColumnWeight(input: RawContext, k: int)
    requires k in input.columns
    ensures ColumnBytes(input)(k) == 8 + input.columns[k].bytes
  {
  }

  lemma ParameterWeight(input: RawContext, k: string)
    requires k in input.parameters
    ensures ParameterBytes(input)(k) == |k| + input.parameters[k].bytes
  {
  }

  /** When a context is admitted, without reference to any order of its entries. */
  ghost predicate Admissible(input: RawContext, limits: ContextLimits) {
    && UsableLimits(input, limits)
    && ColumnsUsable(input.columns, limits) && ParametersUsable(input.parameters, limits)
    && Sum(input.columns.Keys, ColumnBytes(input)) + Sum(input.parameters.Keys, ParameterBytes(input))
       <= limits.maxTotalBytes
  }

  /** Decodes one value and charges its key and text to the running total, unless that overruns. */
  method PrepareValue(raw: Raw, limits: ContextLimits, keyBytes: nat, total: nat)
    returns (r: Outcome<Scalar>, newTotal: nat)
    ensures r.Success? <==> UsableRaw(raw, limits) && total + keyBytes + raw.bytes <= limits.maxTotalBytes
    ensures r.Success? ==> r == DecodeLimited(raw, limits) && newTotal == total + keyBytes + raw.bytes
  {
    newTotal := total;
    if raw.bytes == 0 || raw.bytes > limits.maxValueBytes || keyBytes > limits.maxTotalBytes - raw.bytes
       || total > limits.maxTotalBytes - keyBytes - raw.bytes {
      return Failure(EvaluationFailed), newTotal;
    }
    r := DecodeLimited(raw, limits);
    if r.Success? { newTotal := total + keyBytes + raw.bytes; }
  }

  ghost predicate ColumnsUsable(columns: map<int, Raw>, limits: ContextLimits) {
    forall k :: k in columns ==> k > 0 && UsableRaw(columns[k], limits)
  }

  ghost predicate ParametersUsable(parameters: map<string, Raw>, limits: ContextLimits) {
    forall k :: k in parameters ==>
      Trim(k) != "" && |k| <= limits.maxParameterLength && UsableRaw(parameters[k], limits)
  }

  ghost predicate Decoded<K>(raws: map<K, Raw>, limits: ContextLimits, scalars: map<K, Scalar>) {
    && scalars.Keys <= raws.Keys
    && forall k :: k in scalars ==> DecodeLimited(raws[k], limits) == Success(scalars[k])
  }

  method PrepareColumns(input: RawContext, limits: ContextLimits)
    returns (r: Outcome<map<int, Scalar>>, total: nat)
    requires limits.maxTotalBytes >= 1
    ensures r.Success? <==>
      && ColumnsUsable(input.columns, limits)
      && Sum(input.columns.Keys, ColumnBytes(input)) <= limits.maxTotalBytes
    ensures r.Success? ==>
      && r.value.Keys == input.columns.Keys && Decoded(input.columns, limits, r.value)
      && total == Sum(input.columns.Keys, ColumnBytes(input))
  {
    SumEmpty(ColumnBytes(input));
    hide Sum, ColumnBytes;
    var columns: map<int, Scalar> := map[];
    total := 0;
    var pending := input.columns.Keys;
    while pending != {}
      invariant pending <= input.columns.Keys && columns.Keys == input.columns.Keys - pending
      invariant forall k :: k in columns ==> k > 0 && UsableRaw(input.columns[k], limits)
      invariant Decoded(input.columns, limits, columns)
      invariant total + Sum(pending, ColumnBytes(input)) == Sum(input.columns.Keys, ColumnBytes(input))
      invariant total <= limits.maxTotalBytes
      decreases |pending|
    {
      assert exists k :: k in pending by { assert (forall k :: k !in pending) ==> pending == {}; }
      var k :| k in pending;
      SumWithout(pending, ColumnBytes(input), k);
      ColumnWeight(input, k);
      if k <= 0 { return Failure(EvaluationFailed), total; }
      var value, newTotal := PrepareValue(input.columns[k], limits, 8, total);
      if value.Failure? { return Failure(value.error), total; }
      columns, total, pending := columns[k := value.value], newTotal, pending - {k};
    }
    return Success(columns), total;
  }

  method PrepareParameters(input: RawContext, limits: ContextLimits, charged: nat)
    returns (r: Outcome<map<string, Scalar>>)
    requires charged <= limits.maxTotalBytes
    ensures r.Success? <==>
      && ParametersUsable(input.parameters, limits)
      && charged + Sum(input.parameters.Keys, ParameterBytes(input)) <= limits.maxTotalBytes
    ensures r.Success? ==>
      r.value.Keys == input.parameters.Keys && Decoded(input.parameters, limits, r.value)
  {
    SumEmpty(ParameterBytes(input));
    hide Sum, ParameterBytes;
    var parameters: map<string, Scalar> := map[];
    var total: nat := charged;
    var pending := input.parameters.Keys;
    while pending != {}
      invariant pending <= input.parameters.Keys && parameters.Keys == input.parameters.Keys - pending
      invariant forall k :: k in parameters ==>
        Trim(k) != "" && |k| <= limits.maxParameterLength && UsableRaw(input.parameters[k], limits)
      invariant Decoded(input.parameters, limits, parameters)
      invariant total + Sum(pending, ParameterBytes(input))
             == charged + Sum(input.parameters.Keys, ParameterBytes(input))
      invariant total <= limits.maxTotalBytes
      decreases |pending|
    {
      var k :| k in pending;
      SumWithout(pending, ParameterBytes(input), k);
      ParameterWeight(input, k);
      if Trim(k) == "" || |k| > limits.maxParameterLength { return Failure(EvaluationFailed); }
      var value, newTotal := PrepareValue(input.parameters[k], limits, |k|, total);
      if value.Failure? { return Failure(value.error); }
      parameters, total, pending := parameters[k := value.value], newTotal, pending - {k};
    }
    return Success(parameters);
  }

  function ScalarOf(raw: Raw, limits: ContextLimits): Scalar {
    var r := DecodeLimited(raw, limits);
    if r.Success? then r.value else Null
  }

  /** The context an admissible input denotes. */
  function ContextOf(input: RawContext, limits: ContextLimits): Context {
    Context(map k | k in input.columns :: ScalarOf(input.columns[k], limits),
            map k | k in input.parameters :: ScalarOf(input.parameters[k], limits))
  }

  lemma DecodedDetermines<K>(raws: map<K, Raw>, limits: ContextLimits, scalars: map<K, Scalar>)
    requires scalars.Keys == raws.Keys && Decoded(raws, limits, scalars)
    ensures scalars == map k | k in raws :: ScalarOf(raws[k], limits)
  {
  }

  /** Map iteration order is arbitrary in the program; the outcome does not depend on it. */
  method PrepareContext(input: RawContext, limits: ContextLimits) returns (r: Outcome<Context>)
    ensures r.Success? <==> Admissible(input, limits)
    ensures r.Success? ==> r.value == ContextOf(input, limits)
  {
    if !UsableLimits(input, limits) { return Failure(EvaluationFailed); }
    var columns, total := PrepareColumns(input, limits);
    if columns.Failure? { return Failure(columns.error); }
    var parameters :- PrepareParameters(input, limits, total);
    DecodedDetermines(input.columns, limits, columns.value);
    DecodedDetermines(input.parameters, limits, parameters);
    return Success(Context(columns.value, parameters));
  }
}
