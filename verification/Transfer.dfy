/** The tool interface's form of conditions: converting it, under the shared node and depth budget, and
    mapping stored conditions back to it. */
module Transfer {
  import opened Wrappers
  import opened Conditions
  import opened ConditionTheorems
  import opened Validation

  datatype LiteralInput = LiteralInput(kind: LiteralType, value: Json)

  /** Kinds and operators cross unchanged. Identifiers travel as decimal text, absent ones as "". A flat
      literal is a type and a value; an absent type is the empty name, an absent value is None. */
  datatype BooleanInput = BooleanInput(
    kind: BooleanKind, operator: Operator, children: seq<BooleanInput>, operand: Option<BooleanInput>,
    left: Option<ValueInput>, right: Option<ValueInput>, values: seq<ValueInput>)

  datatype ValueInput = ValueInput(
    kind: ValueKind, nodeID: string, parameter: string, valueType: LiteralType, value: Option<Json>,
    literal: Option<LiteralInput>, cases: seq<CaseInput>, otherwise: Option<ValueInput>)

  datatype CaseInput = CaseInput(when: BooleanInput, then_: ValueInput)

  const NoType := OtherLiteral("")

  datatype InputError = InvalidToolInput

  type Conversion<+T> = Result<T, InputError>

  // ----- decimal identifiers ---------------------------------------------------------------------

  function Digit(d: nat): char
    requires d < 10
  {
    ('0' as int + d) as char
  }

  predicate IsDigit(c: char) {
    '0' <= c <= '9'
  }

  function FormatNat(n: nat): string {
    if n < 10 then [Digit(n)] else FormatNat(n / 10) + [Digit(n % 10)]
  }

  /** An identifier as text; the empty text when there is none. */
  function FormatID(n: int): string {
    if n <= 0 then "" else FormatNat(n)
  }

  function ParseNat(s: string): Option<nat> {
    if s == [] then Some(0)
    else if !IsDigit(s[|s| - 1]) then None
    else
      var front := ParseNat(s[..|s| - 1]);
      if front.None? then None else Some(10 * front.value + (s[|s| - 1] as int - '0' as int))
  }

  /** `strconv.ParseInt` in base ten, then the check that identifiers are positive. */
  function ParseID(s: string): Conversion<Int64> {
    if s == [] then Failure(InvalidToolInput)
    else
      var signed := s[0] == '-' || s[0] == '+';
      var digits := if signed then s[1..] else s;
      if digits == [] then Failure(InvalidToolInput)
      else
        var magnitude := ParseNat(digits);
        if magnitude.None? then Failure(InvalidToolInput)
        else
          var m: int := magnitude.value;
          var n := if s[0] == '-' then -m else m;
          if 0 < n < 0x8000_0000_0000_0000 then Success(n) else Failure(InvalidToolInput)
  }

  lemma {:induction false} FormatParses(n: nat)
    ensures ParseNat(FormatNat(n)) == Some(n) && FormatNat(n) != [] && IsDigit(FormatNat(n)[0])
  {
    if n < 10 {
      assert [Digit(n)][..0] == [];
    } else {
      FormatParses(n / 10);
      var s := FormatNat(n);
      assert s[..|s| - 1] == FormatNat(n / 10);
    }
  }

  /** Parsing undoes formatting on every identifier. */
  lemma IdentifierRoundTrip(n: Int64)
    requires n > 0
    ensures FormatID(n) != "" && ParseID(FormatID(n)) == Success(n)
  {
    FormatParses(n);
  }

  // ----- mapping out -----------------------------------------------------------------------------

  function MapBoolean(e: Boolean): BooleanInput
    decreases e, 1
  {
    BooleanInput(e.kind, e.operator, MapBooleans(e.children),
                 if e.operand.None? then None else Some(MapBoolean(e.operand.value)),
                 if e.left.None? then None else Some(MapValue(e.left.value)),
                 if e.right.None? then None else Some(MapValue(e.right.value)),
                 MapValues(e.values))
  }

  function MapBooleans(es: seq<Boolean>): seq<BooleanInput>
    decreases es, 0
  {
    if es == [] then [] else [MapBoolean(es[0])] + MapBooleans(es[1..])
  }

  function MapValue(v: Value): ValueInput
    decreases v, 1
  {
    ValueInput(v.kind, if v.nodeID > 0 then FormatID(v.nodeID) else "", v.parameter,
               if v.literal.None? then NoType else v.literal.value.kind,
               if v.literal.None? then None else Some(v.literal.value.value),
               None, MapCases(v.cases),
               if v.otherwise.None? then None else Some(MapValue(v.otherwise.value)))
  }

  function MapValues(vs: seq<Value>): seq<ValueInput>
    decreases vs, 0
  {
    if vs == [] then [] else [MapValue(vs[0])] + MapValues(vs[1..])
  }

  function MapCases(cases: seq<CaseBranch>): seq<CaseInput>
    decreases cases, 0
  {
    if cases == [] then []
    else
      assert cases[0].when < cases[0] && cases[0].then_ < cases[0];
      [CaseInput(MapBoolean(cases[0].when), MapValue(cases[0].then_))] + MapCases(cases[1..])
  }

  // ----- converting in, with the node counter threaded through ------------------------------------

  function Converted(input: BooleanInput, depth: int, nodes: nat): Conversion<(Boolean, nat)>
    decreases input, 1
  {
    if depth > DefaultLimits.maxDepth || nodes >= DefaultLimits.maxNodes then Failure(InvalidToolInput)
    else
      var (children, n1) :- ConvertedList(input.children, depth + 1, nodes + 1);
      var (operand, n2) :- ConvertedOption(input.operand, depth + 1, n1);
      var (left, n3) :- ConvertedValueOption(input.left, depth + 1, n2);
      var (right, n4) :- ConvertedValueOption(input.right, depth + 1, n3);
      var (values, n5) :- ConvertedValues(input.values, depth + 1, n4);
      Success((Boolean(input.kind, input.operator, children, operand, left, right, values), n5))
  }

  function ConvertedOption(input: Option<BooleanInput>, depth: int, nodes: nat): Conversion<(Option<Boolean>, nat)>
    decreases input, 2
  {
    if input.None? then Success((None, nodes))
    else
      var (e, n) :- Converted(input.value, depth, nodes);
      Success((Some(e), n))
  }

  function ConvertedList(inputs: seq<BooleanInput>, depth: int, nodes: nat): Conversion<(seq<Boolean>, nat)>
    decreases inputs, 0
  {
    if inputs == [] then Success(([], nodes))
    else
      var (e, n1) :- Converted(inputs[0], depth, nodes);
      var (es, n2) :- ConvertedList(inputs[1..], depth, n1);
      Success(([e] + es, n2))
  }

  function ConvertedValue(input: ValueInput, depth: int, nodes: nat): Conversion<(Value, nat)>
    decreases input, 1
  {
    if depth > DefaultLimits.maxDepth || nodes >= DefaultLimits.maxNodes then Failure(InvalidToolInput)
    else
      var id :- ConvertedID(input.nodeID);
      var literal :- ConvertedLiteral(input);
      var (cases, n1) :- ConvertedCases(input.cases, depth + 1, nodes + 1);
      var (otherwise, n2) :- ConvertedValueOption(input.otherwise, depth + 1, n1);
      Success((Value(input.kind, id, input.parameter, literal, cases, otherwise), n2))
  }

  function ConvertedID(text: string): Conversion<Int64> {
    if text == "" then Success(0) else ParseID(text)
  }

  /** A literal comes either nested or flat, not both, and a flat one needs both halves. */
  function ConvertedLiteral(input: ValueInput): Conversion<Option<Literal>> {
    var flat := input.valueType != NoType || input.value.Some?;
    if input.literal.Some? && flat then Failure(InvalidToolInput)
    else if flat && (input.valueType == NoType || input.value.None?) then Failure(InvalidToolInput)
    else if input.literal.Some? then UsableLiteral(input.literal.value.kind, input.literal.value.value)
    else if flat then UsableLiteral(input.valueType, input.value.value)
    else Success(None)
  }

  function UsableLiteral(kind: LiteralType, value: Json): Conversion<Option<Literal>> {
    if value.JsonMalformed? then Failure(InvalidToolInput) else Success(Some(Literal(kind, value)))
  }

  function ConvertedValueOption(input: Option<ValueInput>, depth: int, nodes: nat): Conversion<(Option<Value>, nat)>
    decreases input, 2
  {
    if input.None? then Success((None, nodes))
    else
      var (v, n) :- ConvertedValue(input.value, depth, nodes);
      Success((Some(v), n))
  }

  function ConvertedValues(inputs: seq<ValueInput>, depth: int, nodes: nat): Conversion<(seq<Value>, nat)>
    decreases inputs, 0
  {
    if inputs == [] then Success(([], nodes))
    else
      var (v, n1) :- ConvertedValue(inputs[0], depth, nodes);
      var (vs, n2) :- ConvertedValues(inputs[1..], depth, n1);
      Success(([v] + vs, n2))
  }

  function ConvertedCases(inputs: seq<CaseInput>, depth: int, nodes: nat): Conversion<(seq<CaseBranch>, nat)>
    decreases inputs, 0
  {
    if inputs == [] then Success(([], nodes))
    else
      assert inputs[0].when < inputs[0] && inputs[0].then_ < inputs[0];
      var (when, n1) :- Converted(inputs[0].when, depth, nodes);
      var (then_, n2) :- ConvertedValue(inputs[0].then_, depth, n1);
      var (rest, n3) :- ConvertedCases(inputs[1..], depth, n2);
      Success(([CaseBranch(when, then_)] + rest, n3))
  }

  // ----- the converters as the program runs them -------------------------------------------------

  /** A converter fails exactly when its specification does; otherwise value and counter both agree. */
  ghost predicate Agrees<T>(r: Conversion<T>, specified: Conversion<(T, nat)>, nodes: nat) {
    if specified.Failure? then r.Failure? else r == Success(specified.value.0) && nodes == specified.value.1
  }

  class NodeCounter {
    var nodes: nat

    constructor ()
      ensures nodes == 0
    {
      nodes := 0;
    }

    method ConvertBoolean(input: BooleanInput, depth: int) returns (r: Conversion<Boolean>)
      modifies this
      ensures Agrees(r, Converted(input, depth, old(nodes)), nodes)
      decreases input, 1
    {
      hide ConvertedList, ConvertedValues, ConvertedValue;
      if depth > DefaultLimits.maxDepth || nodes >= DefaultLimits.maxNodes { return Failure(InvalidToolInput); }
      nodes := nodes + 1;
      var children :- ConvertBooleans(input.children, depth + 1);
      var operand := None;
      if input.operand.Some? {
        var converted :- ConvertBoolean(input.operand.value, depth + 1);
        operand := Some(converted);
      }
      var left := None;
      if input.left.Some? {
        var converted :- ConvertValue(input.left.value, depth + 1);
        left := Some(converted);
      }
      var right := None;
      if input.right.Some? {
        var converted :- ConvertValue(input.right.value, depth + 1);
        right := Some(converted);
      }
      var values :- ConvertValues(input.values, depth + 1);
      return Success(Boolean(input.kind, input.operator, children, operand, left, right, values));
    }

    method ConvertBooleans(inputs: seq<BooleanInput>, depth: int) returns (r: Conversion<seq<Boolean>>)
      modifies this
      ensures Agrees(r, ConvertedList(inputs, depth, old(nodes)), nodes)
      decreases inputs, 0
    {
      var done: seq<Boolean> := [];
      PrependNone(ConvertedList(inputs, depth, nodes));
      for i := 0 to |inputs|
        invariant Prepended(done, ConvertedList(inputs[i..], depth, nodes)) == ConvertedList(inputs, depth, old(nodes))
      {
        assert inputs[i..][1..] == inputs[i + 1..];
        var converted :- ConvertBoolean(inputs[i], depth);
        PrependOne(done, converted, ConvertedList(inputs[i + 1..], depth, nodes));
        done := done + [converted];
      }
      assert done + [] == done;
      return Success(done);
    }

    method ConvertValue(input: ValueInput, depth: int) returns (r: Conversion<Value>)
      modifies this
      ensures Agrees(r, ConvertedValue(input, depth, old(nodes)), nodes)
      decreases input, 1
    {
      if depth > DefaultLimits.maxDepth || nodes >= DefaultLimits.maxNodes { return Failure(InvalidToolInput); }
      nodes := nodes + 1;
      var id: Int64 := 0;
      if input.nodeID != "" {
        id :- ParseID(input.nodeID);
      }
      var literal :- ConvertedLiteral(input);
      var cases :- ConvertCases(input.cases, depth + 1);
      ghost var n1 := nodes;
      var otherwise := None;
      if input.otherwise.Some? {
        var converted :- ConvertValue(input.otherwise.value, depth + 1);
        otherwise := Some(converted);
      }
      var v := Value(input.kind, id, input.parameter, literal, cases, otherwise);
      AssembleValue(input, v, depth, old(nodes), n1, nodes);
      return Success(v);
    }

    method ConvertValues(inputs: seq<ValueInput>, depth: int) returns (r: Conversion<seq<Value>>)
      modifies this
      ensures Agrees(r, ConvertedValues(inputs, depth, old(nodes)), nodes)
      decreases inputs, 0
    {
      var done: seq<Value> := [];
      PrependNone(ConvertedValues(inputs, depth, nodes));
      for i := 0 to |inputs|
        invariant Prepended(done, ConvertedValues(inputs[i..], depth, nodes)) == ConvertedValues(inputs, depth, old(nodes))
      {
        assert inputs[i..][1..] == inputs[i + 1..];
        var converted :- ConvertValue(inputs[i], depth);
        PrependOne(done, converted, ConvertedValues(inputs[i + 1..], depth, nodes));
        done := done + [converted];
      }
      assert done + [] == done;
      return Success(done);
    }

    method ConvertCases(inputs: seq<CaseInput>, depth: int) returns (r: Conversion<seq<CaseBranch>>)
      modifies this
      ensures Agrees(r, ConvertedCases(inputs, depth, old(nodes)), nodes)
      decreases inputs, 0
    {
      var done: seq<CaseBranch> := [];
      PrependNone(ConvertedCases(inputs, depth, nodes));
      for i := 0 to |inputs|
        invariant Prepended(done, ConvertedCases(inputs[i..], depth, nodes)) == ConvertedCases(inputs, depth, old(nodes))
      {
        assert inputs[i..][1..] == inputs[i + 1..];
        assert inputs[i].when < inputs[i] && inputs[i].then_ < inputs[i];
        var when :- ConvertBoolean(inputs[i].when, depth);
        var then_ :- ConvertValue(inputs[i].then_, depth);
        PrependOne(done, CaseBranch(when, then_), ConvertedCases(inputs[i + 1..], depth, nodes));
        done := done + [CaseBranch(when, then_)];
      }
      assert done + [] == done;
      return Success(done);
    }
  }

  ghost function Prepended<T>(done: seq<T>, r: Conversion<(seq<T>, nat)>): Conversion<(seq<T>, nat)> {
    if r.Failure? then r else Success((done + r.value.0, r.value.1))
  }

  lemma PrependNone<T>(r: Conversion<(seq<T>, nat)>)
    ensures Prepended([], r) == r
  {
    if r.Success? { assert [] + r.value.0 == r.value.0; }
  }

  lemma PrependOne<T>(done: seq<T>, x: T, r: Conversion<(seq<T>, nat)>)
    ensures Prepended(done + [x], r) == Prepended(done, Prepended([x], r))
  {
    if r.Success? { assert done + [x] + r.value.0 == done + ([x] + r.value.0); }
  }

  // ----- the round trip --------------------------------------------------------------------------

  /** What is left of the budgets suffices for the expression. */
  predicate Fits(e: Boolean, depth: int, nodes: nat) {
    && ShapeBoolean(e, DefaultLimits) && depth + DepthBoolean(e) - 1 <= DefaultLimits.maxDepth
    && nodes + SizeBoolean(e) <= DefaultLimits.maxNodes
  }

  predicate FitsList(es: seq<Boolean>, depth: int, nodes: nat) {
    && (forall i :: 0 <= i < |es| ==> ShapeBoolean(es[i], DefaultLimits))
    && depth + DepthBooleans(es) - 1 <= DefaultLimits.maxDepth && nodes + SizeBooleans(es) <= DefaultLimits.maxNodes
  }

  predicate FitsValue(v: Value, depth: int, nodes: nat) {
    && ShapeValue(v, DefaultLimits) && depth + DepthValue(v) - 1 <= DefaultLimits.maxDepth
    && nodes + SizeValue(v) <= DefaultLimits.maxNodes
  }

  predicate FitsValues(vs: seq<Value>, depth: int, nodes: nat) {
    && (forall i :: 0 <= i < |vs| ==> ShapeValue(vs[i], DefaultLimits))
    && depth + DepthValues(vs) - 1 <= DefaultLimits.maxDepth && nodes + SizeValues(vs) <= DefaultLimits.maxNodes
  }

  predicate FitsCases(cases: seq<CaseBranch>, depth: int, nodes: nat) {
    && (forall i :: 0 <= i < |cases| ==> ShapeCase(cases[i], DefaultLimits))
    && depth + DepthCases(cases) - 1 <= DefaultLimits.maxDepth && nodes + SizeCases(cases) <= DefaultLimits.maxNodes
  }

  function SizeOption(e: Option<Boolean>): nat {
    if e.Some? then SizeBoolean(e.value) else 0
  }

  function SizeValueOption(v: Option<Value>): nat {
    if v.Some? then SizeValue(v.value) else 0
  }

  function MapOption(e: Option<Boolean>): Option<BooleanInput> {
    if e.None? then None else Some(MapBoolean(e.value))
  }

  function MapValueOption(v: Option<Value>): Option<ValueInput> {
    if v.None? then None else Some(MapValue(v.value))
  }

  /** Where the counter stands after each part of a node, in the order the parts are converted. */
  datatype Marks = Marks(children: nat, operand: nat, left: nat, right: nat, values: nat)

  function MarksOf(e: Boolean, nodes: nat): Marks {
    var n1 := nodes + 1 + SizeBooleans(e.children);
    var n2 := n1 + SizeOption(e.operand);
    var n3 := n2 + SizeValueOption(e.left);
    var n4 := n3 + SizeValueOption(e.right);
    Marks(n1, n2, n3, n4, n4 + SizeValues(e.values))
  }

  lemma BooleanParts(e: Boolean, depth: int, nodes: nat)
    requires Fits(e, depth, nodes)
    ensures var m := MarksOf(e, nodes);
      && depth <= DefaultLimits.maxDepth && nodes < DefaultLimits.maxNodes && m.values == nodes + SizeBoolean(e)
      && FitsList(e.children, depth + 1, nodes + 1)
      && (e.operand.Some? ==> Fits(e.operand.value, depth + 1, m.children))
      && (e.left.Some? ==> FitsValue(e.left.value, depth + 1, m.operand))
      && (e.right.Some? ==> FitsValue(e.right.value, depth + 1, m.left))
      && FitsValues(e.values, depth + 1, m.right)
  {
    hide NodeShape;
  }

  lemma BooleansParts(es: seq<Boolean>, depth: int, nodes: nat)
    requires es != [] && FitsList(es, depth, nodes)
    ensures Fits(es[0], depth, nodes) && FitsList(es[1..], depth, nodes + SizeBoolean(es[0]))
    ensures SizeBooleans(es) == SizeBoolean(es[0]) + SizeBooleans(es[1..])
  {
    hide ShapeBoolean;
  }

  lemma ValueParts(v: Value, depth: int, nodes: nat)
    requires FitsValue(v, depth, nodes)
    ensures var n := nodes + 1 + SizeCases(v.cases);
      && depth <= DefaultLimits.maxDepth && nodes < DefaultLimits.maxNodes
      && n + SizeValueOption(v.otherwise) == nodes + SizeValue(v)
      && ValueShape(v, DefaultLimits) && FitsCases(v.cases, depth + 1, nodes + 1)
      && (v.otherwise.Some? ==> FitsValue(v.otherwise.value, depth + 1, n))
  {
    hide ValueShape;
  }

  lemma ValuesParts(vs: seq<Value>, depth: int, nodes: nat)
    requires vs != [] && FitsValues(vs, depth, nodes)
    ensures FitsValue(vs[0], depth, nodes) && FitsValues(vs[1..], depth, nodes + SizeValue(vs[0]))
    ensures SizeValues(vs) == SizeValue(vs[0]) + SizeValues(vs[1..])
  {
    hide ShapeValue;
  }

  predicate FitsCase(branch: CaseBranch, depth: int, nodes: nat) {
    Fits(branch.when, depth, nodes) && FitsValue(branch.then_, depth, nodes + SizeBoolean(branch.when))
  }

  function SizeCase(branch: CaseBranch): nat {
    SizeBoolean(branch.when) + SizeValue(branch.then_)
  }

  function MapCase(branch: CaseBranch): CaseInput {
    CaseInput(MapBoolean(branch.when), MapValue(branch.then_))
  }

  function ConvertedCase(input: CaseInput, depth: int, nodes: nat): Conversion<(CaseBranch, nat)> {
    var (when, n1) :- Converted(input.when, depth, nodes);
    var (then_, n2) :- ConvertedValue(input.then_, depth, n1);
    Success((CaseBranch(when, then_), n2))
  }

  lemma CasesParts(cases: seq<CaseBranch>, depth: int, nodes: nat)
    requires cases != [] && FitsCases(cases, depth, nodes)
    ensures FitsCase(cases[0], depth, nodes) && FitsCases(cases[1..], depth, nodes + SizeCase(cases[0]))
    ensures SizeCases(cases) == SizeCase(cases[0]) + SizeCases(cases[1..])
  {
    hide ShapeBoolean, ShapeValue;
    assert ShapeCase(cases[0], DefaultLimits);
  }

  /** Converting a node is converting its parts in order. */
  lemma AssembleBoolean(input: BooleanInput, e: Boolean, depth: int, nodes: nat, m: Marks)
    requires depth <= DefaultLimits.maxDepth && nodes < DefaultLimits.maxNodes
    requires input.kind == e.kind && input.operator == e.operator
    requires ConvertedList(input.children, depth + 1, nodes + 1) == Success((e.children, m.children))
    requires ConvertedOption(input.operand, depth + 1, m.children) == Success((e.operand, m.operand))
    requires ConvertedValueOption(input.left, depth + 1, m.operand) == Success((e.left, m.left))
    requires ConvertedValueOption(input.right, depth + 1, m.left) == Success((e.right, m.right))
    requires ConvertedValues(input.values, depth + 1, m.right) == Success((e.values, m.values))
    ensures Converted(input, depth, nodes) == Success((e, m.values))
  {
    hide ConvertedList, ConvertedOption, ConvertedValueOption, ConvertedValues;
  }

  lemma AssembleValue(input: ValueInput, v: Value, depth: int, nodes: nat, n1: nat, n2: nat)
    requires depth <= DefaultLimits.maxDepth && nodes < DefaultLimits.maxNodes
    requires input.kind == v.kind && input.parameter == v.parameter
    requires ConvertedID(input.nodeID) == Success(v.nodeID) && ConvertedLiteral(input) == Success(v.literal)
    requires ConvertedCases(input.cases, depth + 1, nodes + 1) == Success((v.cases, n1))
    requires ConvertedValueOption(input.otherwise, depth + 1, n1) == Success((v.otherwise, n2))
    ensures ConvertedValue(input, depth, nodes) == Success((v, n2))
  {
    hide ConvertedCases, ConvertedValueOption, ConvertedID, ConvertedLiteral;
  }

  lemma AssembleCases(inputs: seq<CaseInput>, cases: seq<CaseBranch>, depth: int, nodes: nat, n1: nat, n2: nat)
    requires inputs != [] && cases != []
    requires ConvertedCase(inputs[0], depth, nodes) == Success((cases[0], n1))
    requires ConvertedCases(inputs[1..], depth, n1) == Success((cases[1..], n2))
    ensures ConvertedCases(inputs, depth, nodes) == Success((cases, n2))
  {
    hide Converted, ConvertedValue;
    assert [cases[0]] + cases[1..] == cases;
  }

  lemma AssembleList(inputs: seq<BooleanInput>, es: seq<Boolean>, depth: int, nodes: nat, n1: nat, n2: nat)
    requires inputs != [] && es != []
    requires Converted(inputs[0], depth, nodes) == Success((es[0], n1))
    requires ConvertedList(inputs[1..], depth, n1) == Success((es[1..], n2))
    ensures ConvertedList(inputs, depth, nodes) == Success((es, n2))
  {
    hide Converted;
    assert [es[0]] + es[1..] == es;
  }

  lemma AssembleValues(inputs: seq<ValueInput>, vs: seq<Value>, depth: int, nodes: nat, n1: nat, n2: nat)
    requires inputs != [] && vs != []
    requires ConvertedValue(inputs[0], depth, nodes) == Success((vs[0], n1))
    requires ConvertedValues(inputs[1..], depth, n1) == Success((vs[1..], n2))
    ensures ConvertedValues(inputs, depth, nodes) == Success((vs, n2))
  {
    hide ConvertedValue;
    assert [vs[0]] + vs[1..] == vs;
  }

  lemma NothingRoundTrips(depth: int, nodes: nat)
    ensures ConvertedList(MapBooleans([]), depth, nodes) == Success(([], nodes + SizeBooleans([])))
    ensures ConvertedValues(MapValues([]), depth, nodes) == Success(([], nodes + SizeValues([])))
    ensures ConvertedCases(MapCases([]), depth, nodes) == Success(([], nodes + SizeCases([])))
  {
  }

  lemma MappedListParts(es: seq<Boolean>)
    requires es != []
    ensures var inputs := MapBooleans(es);
      && inputs != [] && inputs[0] == MapBoolean(es[0]) && inputs[1..] == MapBooleans(es[1..])
  {
  }

  lemma MappedValuesParts(vs: seq<Value>)
    requires vs != []
    ensures var inputs := MapValues(vs);
      && inputs != [] && inputs[0] == MapValue(vs[0]) && inputs[1..] == MapValues(vs[1..])
  {
  }

  lemma MappedCasesParts(cases: seq<CaseBranch>)
    requires cases != []
    ensures var inputs := MapCases(cases);
      && inputs != [] && inputs[0] == MapCase(cases[0]) && inputs[1..] == MapCases(cases[1..])
  {
    assert cases[0].when < cases[0] && cases[0].then_ < cases[0];
  }

  lemma MappedParts(e: Boolean)
    ensures var input := MapBoolean(e);
      && input.kind == e.kind && input.operator == e.operator && input.children == MapBooleans(e.children)
      && input.operand == MapOption(e.operand) && input.left == MapValueOption(e.left)
      && input.right == MapValueOption(e.right) && input.values == MapValues(e.values)
  {
  }

  lemma {:induction false} RoundTrip(e: Boolean, depth: int, nodes: nat)
    requires Fits(e, depth, nodes)
    ensures Converted(MapBoolean(e), depth, nodes) == Success((e, nodes + SizeBoolean(e)))
    decreases e, 1
  {
    hide *;
    BooleanParts(e, depth, nodes);
    MappedParts(e);
    var m := MarksOf(e, nodes);
    RoundTripList(e.children, depth + 1, nodes + 1);
    RoundTripOption(e.operand, depth + 1, m.children);
    RoundTripValueOption(e.left, depth + 1, m.operand);
    RoundTripValueOption(e.right, depth + 1, m.left);
    RoundTripValues(e.values, depth + 1, m.right);
    MarksAdvance(e, nodes);
    AssembleBoolean(MapBoolean(e), e, depth, nodes, m);
  }

  lemma MarksAdvance(e: Boolean, nodes: nat)
    ensures var m := MarksOf(e, nodes);
      && m.children == nodes + 1 + SizeBooleans(e.children) && m.operand == m.children + SizeOption(e.operand)
      && m.left == m.operand + SizeValueOption(e.left) && m.right == m.left + SizeValueOption(e.right)
      && m.values == m.right + SizeValues(e.values)
  {
  }

  lemma {:induction false} RoundTripOption(e: Option<Boolean>, depth: int, nodes: nat)
    requires e.Some? ==> Fits(e.value, depth, nodes)
    ensures ConvertedOption(MapOption(e), depth, nodes) == Success((e, nodes + SizeOption(e)))
    decreases e, 2
  {
    hide Converted, Fits, MapBoolean, SizeBoolean;
    if e.Some? { RoundTrip(e.value, depth, nodes); }
  }

  lemma {:induction false} RoundTripValueOption(v: Option<Value>, depth: int, nodes: nat)
    requires v.Some? ==> FitsValue(v.value, depth, nodes)
    ensures ConvertedValueOption(MapValueOption(v), depth, nodes) == Success((v, nodes + SizeValueOption(v)))
    decreases v, 2
  {
    hide ConvertedValue, FitsValue, MapValue, SizeValue;
    if v.Some? { RoundTripValue(v.value, depth, nodes); }
  }

  lemma {:induction false} RoundTripList(es: seq<Boolean>, depth: int, nodes: nat)
    requires FitsList(es, depth, nodes)
    ensures ConvertedList(MapBooleans(es), depth, nodes) == Success((es, nodes + SizeBooleans(es)))
    decreases es, 0
  {
    hide *;
    NothingRoundTrips(depth, nodes);
    if es != [] {
      BooleansParts(es, depth, nodes);
      MappedListParts(es);
      RoundTrip(es[0], depth, nodes);
      RoundTripList(es[1..], depth, nodes + SizeBoolean(es[0]));
      AssembleList(MapBooleans(es), es, depth, nodes, nodes + SizeBoolean(es[0]), nodes + SizeBooleans(es));
    }
  }

  lemma LeafRoundTrip(v: Value)
    requires ValueShape(v, DefaultLimits)
    ensures ConvertedID(MapValue(v).nodeID) == Success(v.nodeID)
    ensures ConvertedLiteral(MapValue(v)) == Success(v.literal)
    ensures MapValue(v).kind == v.kind && MapValue(v).parameter == v.parameter
    ensures MapValue(v).cases == MapCases(v.cases) && MapValue(v).otherwise == MapValueOption(v.otherwise)
  {
    if v.nodeID > 0 { IdentifierRoundTrip(v.nodeID); }
  }

  lemma {:induction false} RoundTripValue(v: Value, depth: int, nodes: nat)
    requires FitsValue(v, depth, nodes)
    ensures ConvertedValue(MapValue(v), depth, nodes) == Success((v, nodes + SizeValue(v)))
    decreases v, 1
  {
    hide *;
    ValueParts(v, depth, nodes);
    LeafRoundTrip(v);
    var n1 := nodes + 1 + SizeCases(v.cases);
    RoundTripCases(v.cases, depth + 1, nodes + 1);
    RoundTripValueOption(v.otherwise, depth + 1, n1);
    AssembleValue(MapValue(v), v, depth, nodes, n1, n1 + SizeValueOption(v.otherwise));
  }

  lemma {:induction false} RoundTripValues(vs: seq<Value>, depth: int, nodes: nat)
    requires FitsValues(vs, depth, nodes)
    ensures ConvertedValues(MapValues(vs), depth, nodes) == Success((vs, nodes + SizeValues(vs)))
    decreases vs, 0
  {
    hide *;
    NothingRoundTrips(depth, nodes);
    if vs != [] {
      ValuesParts(vs, depth, nodes);
      MappedValuesParts(vs);
      RoundTripValue(vs[0], depth, nodes);
      RoundTripValues(vs[1..], depth, nodes + SizeValue(vs[0]));
      AssembleValues(MapValues(vs), vs, depth, nodes, nodes + SizeValue(vs[0]), nodes + SizeValues(vs));
    }
  }

  lemma {:induction false} RoundTripCases(cases: seq<CaseBranch>, depth: int, nodes: nat)
    requires FitsCases(cases, depth, nodes)
    ensures ConvertedCases(MapCases(cases), depth, nodes) == Success((cases, nodes + SizeCases(cases)))
    decreases cases, 0
  {
    hide *;
    NothingRoundTrips(depth, nodes);
    if cases != [] {
      CasesParts(cases, depth, nodes);
      MappedCasesParts(cases);
      var m := nodes + SizeCase(cases[0]);
      RoundTripCase(cases[0], depth, nodes);
      RoundTripCases(cases[1..], depth, m);
      AssembleCases(MapCases(cases), cases, depth, nodes, m, m + SizeCases(cases[1..]));
    }
  }

  lemma {:induction false} RoundTripCase(branch: CaseBranch, depth: int, nodes: nat)
    requires FitsCase(branch, depth, nodes)
    ensures ConvertedCase(MapCase(branch), depth, nodes) == Success((branch, nodes + SizeCase(branch)))
    decreases branch, 0
  {
    hide Converted, ConvertedValue, Fits, FitsValue, MapBoolean, MapValue, SizeBoolean, SizeValue;
    RoundTrip(branch.when, depth, nodes);
    RoundTripValue(branch.then_, depth, nodes + SizeBoolean(branch.when));
  }

  /** Every accepted condition survives the trip out and back, within the budget the validator gave it. */
  lemma BooleanRoundTrip(e: Boolean)
    requires AcceptedBoolean(e, DefaultLimits)
    ensures Converted(MapBoolean(e), 1, 0) == Success((e, SizeBoolean(e)))
  {
    RoundTrip(e, 1, 0);
  }

  lemma ValueRoundTrip(v: Value)
    requires AcceptedValue(v, DefaultLimits)
    ensures ConvertedValue(MapValue(v), 1, 0) == Success((v, SizeValue(v)))
  {
    RoundTripValue(v, 1, 0);
  }

  // ----- nothing beyond the limits gets in -------------------------------------------------------

  /** Whatever the input, a converted condition has as many nodes as the counter advanced by, and stays
      within both limits. */
  lemma {:induction false} ConvertedWithinBudget(input: BooleanInput, depth: int, nodes: nat)
    requires Converted(input, depth, nodes).Success?
    ensures var (e, n) := Converted(input, depth, nodes).value;
      && n == nodes + SizeBoolean(e) && depth + DepthBoolean(e) - 1 <= DefaultLimits.maxDepth
      && n <= DefaultLimits.maxNodes
    decreases input, 1
  {
    hide ConvertedList, ConvertedOption, ConvertedValueOption, ConvertedValues;
    hide SizeValues, SizeBooleans, DepthValues, DepthBooleans, SizeValue, DepthValue;
    ListWithinBudget(input.children, depth + 1, nodes + 1);
    var (children, n1) := ConvertedList(input.children, depth + 1, nodes + 1).value;
    OptionWithinBudget(input.operand, depth + 1, n1);
    var (operand, n2) := ConvertedOption(input.operand, depth + 1, n1).value;
    ValueOptionWithinBudget(input.left, depth + 1, n2);
    var (left, n3) := ConvertedValueOption(input.left, depth + 1, n2).value;
    ValueOptionWithinBudget(input.right, depth + 1, n3);
    var (right, n4) := ConvertedValueOption(input.right, depth + 1, n3).value;
    ValuesWithinBudget(input.values, depth + 1, n4);
  }

  lemma {:induction false} OptionWithinBudget(input: Option<BooleanInput>, depth: int, nodes: nat)
    requires depth <= DefaultLimits.maxDepth + 1 && nodes <= DefaultLimits.maxNodes
    requires ConvertedOption(input, depth, nodes).Success?
    ensures var (e, n) := ConvertedOption(input, depth, nodes).value;
      && n == nodes + (if e.Some? then SizeBoolean(e.value) else 0) && n <= DefaultLimits.maxNodes
      && (e.Some? ==> depth + DepthBoolean(e.value) - 1 <= DefaultLimits.maxDepth)
    decreases input, 2
  {
    if input.Some? { ConvertedWithinBudget(input.value, depth, nodes); }
  }

  lemma {:induction false} ValueOptionWithinBudget(input: Option<ValueInput>, depth: int, nodes: nat)
    requires depth <= DefaultLimits.maxDepth + 1 && nodes <= DefaultLimits.maxNodes
    requires ConvertedValueOption(input, depth, nodes).Success?
    ensures var (v, n) := ConvertedValueOption(input, depth, nodes).value;
      && n == nodes + (if v.Some? then SizeValue(v.value) else 0) && n <= DefaultLimits.maxNodes
      && (v.Some? ==> depth + DepthValue(v.value) - 1 <= DefaultLimits.maxDepth)
    decreases input, 2
  {
    if input.Some? { ValueWithinBudget(input.value, depth, nodes); }
  }

  lemma {:induction false} ListWithinBudget(inputs: seq<BooleanInput>, depth: int, nodes: nat)
    requires depth <= DefaultLimits.maxDepth + 1 && nodes <= DefaultLimits.maxNodes
    requires ConvertedList(inputs, depth, nodes).Success?
    ensures var (es, n) := ConvertedList(inputs, depth, nodes).value;
      && n == nodes + SizeBooleans(es) && depth + DepthBooleans(es) - 1 <= DefaultLimits.maxDepth
      && n <= DefaultLimits.maxNodes
    decreases inputs, 0
  {
    if inputs != [] {
      ConvertedWithinBudget(inputs[0], depth, nodes);
      var (e, n1) := Converted(inputs[0], depth, nodes).value;
      ListWithinBudget(inputs[1..], depth, n1);
      var (es, n2) := ConvertedList(inputs[1..], depth, n1).value;
      assert ([e] + es)[1..] == es;
    }
  }

  lemma {:induction false} ValueWithinBudget(input: ValueInput, depth: int, nodes: nat)
    requires ConvertedValue(input, depth, nodes).Success?
    ensures var (v, n) := ConvertedValue(input, depth, nodes).value;
      && n == nodes + SizeValue(v) && depth + DepthValue(v) - 1 <= DefaultLimits.maxDepth
      && n <= DefaultLimits.maxNodes
    decreases input, 1
  {
    var (cases, n1) := ConvertedCases(input.cases, depth + 1, nodes + 1).value;
    CasesWithinBudget(input.cases, depth + 1, nodes + 1);
    if input.otherwise.Some? { ValueWithinBudget(input.otherwise.value, depth + 1, n1); }
  }

  lemma {:induction false} ValuesWithinBudget(inputs: seq<ValueInput>, depth: int, nodes: nat)
    requires depth <= DefaultLimits.maxDepth + 1 && nodes <= DefaultLimits.maxNodes
    requires ConvertedValues(inputs, depth, nodes).Success?
    ensures var (vs, n) := ConvertedValues(inputs, depth, nodes).value;
      && n == nodes + SizeValues(vs) && depth + DepthValues(vs) - 1 <= DefaultLimits.maxDepth
      && n <= DefaultLimits.maxNodes
    decreases inputs, 0
  {
    if inputs != [] {
      ValueWithinBudget(inputs[0], depth, nodes);
      var (v, n1) := ConvertedValue(inputs[0], depth, nodes).value;
      ValuesWithinBudget(inputs[1..], depth, n1);
      var (vs, n2) := ConvertedValues(inputs[1..], depth, n1).value;
      assert ([v] + vs)[1..] == vs;
    }
  }

  lemma {:induction false} CasesWithinBudget(inputs: seq<CaseInput>, depth: int, nodes: nat)
    requires depth <= DefaultLimits.maxDepth + 1 && nodes <= DefaultLimits.maxNodes
    requires ConvertedCases(inputs, depth, nodes).Success?
    ensures var (cases, n) := ConvertedCases(inputs, depth, nodes).value;
      && n == nodes + SizeCases(cases) && depth + DepthCases(cases) - 1 <= DefaultLimits.maxDepth
      && n <= DefaultLimits.maxNodes
    decreases inputs, 0
  {
    if inputs != [] {
      assert inputs[0].when < inputs[0] && inputs[0].then_ < inputs[0];
      ConvertedWithinBudget(inputs[0].when, depth, nodes);
      var (when, n1) := Converted(inputs[0].when, depth, nodes).value;
      ValueWithinBudget(inputs[0].then_, depth, n1);
      var (then_, n2) := ConvertedValue(inputs[0].then_, depth, n1).value;
      CasesWithinBudget(inputs[1..], depth, n2);
      var (rest, n3) := ConvertedCases(inputs[1..], depth, n2).value;
      assert ([CaseBranch(when, then_)] + rest)[1..] == rest;
    }
  }
}
