/** The condition language: raw abstract syntax, runtime values, and the meaning of an expression.

    The syntax keeps the shape of the wire records: every node carries every field of its record, so
    an ill-formed node (a comparison without a right operand, say) is a value of the type. Evaluating
    such a node dereferences a nil pointer in the program; here it fails with `NilDereference`.
    Strings are sequences of bytes. */
module Conditions {
  import opened Wrappers

  datatype BooleanKind =
    | And | Or | Not | Compare | In | NotIn | IsNull | IsNotNull
    | OtherBoolean(name: string)

  datatype Operator =
    | Eq | Ne | Gt | Gte | Lt | Lte
    | NoOperator
    | OtherOperator(name: string)

  datatype ValueKind =
    | Column | LiteralValue | Parameter | ColumnCopy | Conditional
    | OtherValue(name: string)

  datatype LiteralType = Integer | Decimal | Text | Bool | NullType | OtherLiteral(name: string)

  /** A decoded JSON fragment. `plain` says that a number is spelled without '.', 'e' or 'E';
      `JsonHugeNumber` is a number whose exponent the rational parser refuses. */
  datatype Json =
    | JsonNull
    | JsonBool(b: bool)
    | JsonText(s: string)
    | JsonNumber(n: real, plain: bool)
    | JsonHugeNumber
    | JsonComposite
    | JsonMalformed

  type Int64 = x: int | -0x8000_0000_0000_0000 <= x < 0x8000_0000_0000_0000

  datatype Literal = Literal(kind: LiteralType, value: Json)

  datatype Boolean = Boolean(
    kind: BooleanKind,
    operator: Operator,
    children: seq<Boolean>,
    operand: Option<Boolean>,
    left: Option<Value>,
    right: Option<Value>,
    values: seq<Value>)

  datatype Value = Value(
    kind: ValueKind,
    nodeID: Int64,
    parameter: string,
    literal: Option<Literal>,
    cases: seq<CaseBranch>,
    otherwise: Option<Value>)

  datatype CaseBranch = CaseBranch(when: Boolean, then_: Value)

  datatype Truth = Unknown | False | True

  /** A column (`nodeID != 0`) or a parameter that the context does not bind. */
  datatype Reference = Reference(nodeID: int, parameter: string)

  datatype Evaluation = Evaluation(truth: Truth, missing: seq<Reference>)

  datatype Scalar = Null | BoolScalar(b: bool) | TextScalar(s: string) | NumberScalar(n: real)

  datatype Context = Context(columns: map<int, Scalar>, parameters: map<string, Scalar>)

  datatype Resolved = Known(value: Scalar) | Unresolved(missing: seq<Reference>)

  datatype Error = EvaluationFailed | NilDereference | InvalidExpression

  type Outcome<+T> = Result<T, Error>

  const EmptyContext := Context(map[], map[])

  // ----- comparison ------------------------------------------------------------------------------

  /** Byte-wise lexicographic order, as the `<` of Go strings. */
  predicate TextLess(a: string, b: string) {
    if b == [] then false
    else if a == [] then true
    else if a[0] != b[0] then a[0] < b[0]
    else TextLess(a[1..], b[1..])
  }

  /** Three-way comparison; values of different types (and null) are not comparable. */
  function CompareScalars(a: Scalar, b: Scalar): Option<int> {
    match (a, b)
    case (NumberScalar(x), NumberScalar(y)) => Some(if x < y then -1 else if x > y then 1 else 0)
    case (TextScalar(x), TextScalar(y)) => Some(if TextLess(x, y) then -1 else if TextLess(y, x) then 1 else 0)
    case (BoolScalar(x), BoolScalar(y)) => Some(if x == y then 0 else if !x && y then -1 else 1)
    case _ => None
  }

  function TruthOf(b: bool): Truth {
    if b then True else False
  }

  function CompareRuntime(a: Scalar, b: Scalar, op: Operator): Outcome<Truth> {
    if a.Null? || b.Null? then Success(Unknown)
    else
      match CompareScalars(a, b)
      case None => Success(if op == Eq then False else if op == Ne then True else Unknown)
      case Some(order) =>
        match op
        case Eq => Success(TruthOf(order == 0))
        case Ne => Success(TruthOf(order != 0))
        case Gt => Success(TruthOf(order > 0))
        case Gte => Success(TruthOf(order >= 0))
        case Lt => Success(TruthOf(order < 0))
        case Lte => Success(TruthOf(order <= 0))
        case _ => Failure(EvaluationFailed)
  }

  function DecodeScalar(raw: Json): Outcome<Scalar> {
    match raw
    case JsonNull => Success(Null)
    case JsonBool(b) => Success(BoolScalar(b))
    case JsonText(s) => Success(TextScalar(s))
    case JsonNumber(n, _) => Success(NumberScalar(n))
    case _ => Failure(EvaluationFailed)
  }

  // ----- evaluation ------------------------------------------------------------------------------

  function UnknownOr(missing: seq<Reference>, settled: Truth): Evaluation {
    if missing != [] then Evaluation(Unknown, missing) else Evaluation(settled, [])
  }

  function Negate(e: Evaluation): Evaluation {
    match e.truth
    case Unknown => e
    case True => e.(truth := False)
    case False => e.(truth := True)
  }

  function MissingOf(v: Resolved): seq<Reference> {
    if v.Known? then [] else v.missing
  }

  function EvalBoolean(e: Boolean, c: Context): Outcome<Evaluation>
    decreases e, 1
  {
    match e.kind
    case And => EvalAnd(e.children, c, [])
    case Or => EvalOr(e.children, c, [])
    case Not =>
      if e.operand.None? then Failure(NilDereference)
      else
        var r :- EvalBoolean(e.operand.value, c);
        Success(Negate(r))
    case Compare =>
      if e.left.None? || e.right.None? then Failure(NilDereference)
      else
        var l :- EvalValue(e.left.value, c);
        var r :- EvalValue(e.right.value, c);
        EvalCompare(l, r, e.operator)
    case In => EvalMembership(e, c, false)
    case NotIn => EvalMembership(e, c, true)
    case IsNull => EvalNullTest(e, c, false)
    case IsNotNull => EvalNullTest(e, c, true)
    case OtherBoolean(_) => Failure(EvaluationFailed)
  }

  function EvalCompare(l: Resolved, r: Resolved, op: Operator): Outcome<Evaluation> {
    if l.Unresolved? || r.Unresolved? then Success(Evaluation(Unknown, MissingOf(l) + MissingOf(r)))
    else
      var truth :- CompareRuntime(l.value, r.value, op);
      Success(Evaluation(truth, []))
  }

  function EvalMembership(e: Boolean, c: Context, negated: bool): Outcome<Evaluation>
    decreases e, 0
  {
    if e.left.None? then Failure(NilDereference)
    else
      var l :- EvalValue(e.left.value, c);
      if l.Unresolved? then Success(Evaluation(Unknown, l.missing))
      else EvalItems(l.value, e.values, c, [], negated)
  }

  function EvalNullTest(e: Boolean, c: Context, negated: bool): Outcome<Evaluation>
    decreases e, 0
  {
    if e.left.None? then Failure(NilDereference)
    else
      var v :- EvalValue(e.left.value, c);
      if v.Unresolved? then Success(Evaluation(Unknown, v.missing))
      else Success(Evaluation(TruthOf(v.value.Null? != negated), []))
  }

  /** The conjunction loop, with the missing references collected so far. */
  function EvalAnd(children: seq<Boolean>, c: Context, missing: seq<Reference>): Outcome<Evaluation>
    decreases children, 0
  {
    if children == [] then Success(UnknownOr(missing, True))
    else
      var r :- EvalBoolean(children[0], c);
      if r.truth == False then Success(Evaluation(False, []))
      else EvalAnd(children[1..], c, if r.truth == Unknown then missing + r.missing else missing)
  }

  function EvalOr(children: seq<Boolean>, c: Context, missing: seq<Reference>): Outcome<Evaluation>
    decreases children, 0
  {
    if children == [] then Success(UnknownOr(missing, False))
    else
      var r :- EvalBoolean(children[0], c);
      if r.truth == True then Success(Evaluation(True, []))
      else EvalOr(children[1..], c, if r.truth == Unknown then missing + r.missing else missing)
  }

  /** The membership loop. It stops at the first equal item, whatever is missing before it. */
  function EvalItems(l: Scalar, items: seq<Value>, c: Context, missing: seq<Reference>, negated: bool)
    : Outcome<Evaluation>
    decreases items, 0
  {
    if items == [] then Success(UnknownOr(missing, TruthOf(negated)))
    else
      var item :- EvalValue(items[0], c);
      if item.Unresolved? then EvalItems(l, items[1..], c, missing + item.missing, negated)
      else
        var equal :- CompareRuntime(l, item.value, Eq);
        if equal == True then Success(Evaluation(TruthOf(!negated), []))
        else EvalItems(l, items[1..], c, missing, negated)
  }

  function EvalValue(v: Value, c: Context): Outcome<Resolved>
    decreases v, 1
  {
    match v.kind
    case Column => Success(LookupColumn(v.nodeID, c))
    case ColumnCopy => Success(LookupColumn(v.nodeID, c))
    case Parameter => Success(LookupParameter(v.parameter, c))
    case LiteralValue =>
      if v.literal.None? then Failure(NilDereference)
      else
        var s :- DecodeScalar(v.literal.value.value);
        Success(Known(s))
    case Conditional =>
      var branch :- EvalCases(v.cases, c);
      if branch.Some? then Success(branch.value)
      else if v.otherwise.None? then Failure(NilDereference)
      else EvalValue(v.otherwise.value, c)
    case OtherValue(_) => Failure(EvaluationFailed)
  }

  function LookupColumn(nodeID: int, c: Context): Resolved {
    if nodeID in c.columns then Known(c.columns[nodeID]) else Unresolved([Reference(nodeID, "")])
  }

  function LookupParameter(name: string, c: Context): Resolved {
    if name in c.parameters then Known(c.parameters[name]) else Unresolved([Reference(0, name)])
  }

  /** The branch loop: the value it settles on, or None when every guard is false. */
  function EvalCases(cases: seq<CaseBranch>, c: Context): Outcome<Option<Resolved>>
    decreases cases, 0
  {
    if cases == [] then Success(None)
    else
      assert cases[0].when < cases[0] && cases[0].then_ < cases[0];
      var when :- EvalBoolean(cases[0].when, c);
      match when.truth
      case Unknown => Success(Some(Unresolved(when.missing)))
      case True =>
        var chosen :- EvalValue(cases[0].then_, c);
        Success(Some(chosen))
      case False => EvalCases(cases[1..], c)
  }
}
