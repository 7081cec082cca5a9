/** The budgeted validator of condition expressions. */
module Validation {
  import opened Wrappers
  import opened Conditions
  import opened ConditionTheorems
  import opened Text

  datatype Limits = Limits(maxDepth: int, maxNodes: int, maxStringLength: int, maxListItems: int)

  const DefaultLimits := Limits(16, 256, 2000, 100)

  predicate PositiveLimits(limits: Limits) {
    limits.maxDepth > 0 && limits.maxNodes > 0 && limits.maxStringLength > 0 && limits.maxListItems > 0
  }

  // ----- what an acceptable expression is, independently of the traversal ------------------------

  function SizeBoolean(e: Boolean): nat
    decreases e, 1
  {
    1 + SizeBooleans(e.children)
    + (if e.operand.Some? then SizeBoolean(e.operand.value) else 0)
    + (if e.left.Some? then SizeValue(e.left.value) else 0)
    + (if e.right.Some? then SizeValue(e.right.value) else 0)
    + SizeValues(e.values)
  }

  function SizeBooleans(es: seq<Boolean>): nat
    decreases es, 0
  {
    if es == [] then 0 else SizeBoolean(es[0]) + SizeBooleans(es[1..])
  }

  function SizeValue(v: Value): nat
    decreases v, 1
  {
    1 + SizeCases(v.cases) + (if v.otherwise.Some? then SizeValue(v.otherwise.value) else 0)
  }

  function SizeValues(vs: seq<Value>): nat
    decreases vs, 0
  {
    if vs == [] then 0 else SizeValue(vs[0]) + SizeValues(vs[1..])
  }

  function SizeCases(cases: seq<CaseBranch>): nat
    decreases cases, 0
  {
    if cases == [] then 0
    else
      assert cases[0].when < cases[0] && cases[0].then_ < cases[0];
      SizeBoolean(cases[0].when) + SizeValue(cases[0].then_) + SizeCases(cases[1..])
  }

  function Max(a: nat, b: nat): nat {
    if a < b then b else a
  }

  function DepthBoolean(e: Boolean): nat
    decreases e, 1
  {
    1 + Max(DepthBooleans(e.children),
        Max(if e.operand.Some? then DepthBoolean(e.operand.value) else 0,
        Max(if e.left.Some? then DepthValue(e.left.value) else 0,
        Max(if e.right.Some? then DepthValue(e.right.value) else 0, DepthValues(e.values)))))
  }

  function DepthBooleans(es: seq<Boolean>): nat
    decreases es, 0
  {
    if es == [] then 0 else Max(DepthBoolean(es[0]), DepthBooleans(es[1..]))
  }

  function DepthValue(v: Value): nat
    decreases v, 1
  {
    1 + Max(DepthCases(v.cases), if v.otherwise.Some? then DepthValue(v.otherwise.value) else 0)
  }

  function DepthValues(vs: seq<Value>): nat
    decreases vs, 0
  {
    if vs == [] then 0 else Max(DepthValue(vs[0]), DepthValues(vs[1..]))
  }

  function DepthCases(cases: seq<CaseBranch>): nat
    decreases cases, 0
  {
    if cases == [] then 0
    else
      assert cases[0].when < cases[0] && cases[0].then_ < cases[0];
      Max(Max(DepthBoolean(cases[0].when), DepthValue(cases[0].then_)), DepthCases(cases[1..]))
  }

  /** A literal payload agrees with its declared type. `json.Unmarshal` accepts null for any target, so a
      string or boolean literal may hold null. */
  predicate LiteralFits(literal: Literal, limits: Limits) {
    match literal.kind
    case Integer =>
      && literal.value.JsonNumber? && literal.value.plain
      && literal.value.n == (literal.value.n.Floor as real)
      && -0x8000_0000_0000_0000 <= literal.value.n.Floor < 0x8000_0000_0000_0000
    case Decimal => literal.value.JsonNumber?
    case Text => literal.value.JsonNull? || (literal.value.JsonText? && |literal.value.s| <= limits.maxStringLength)
    case Bool => literal.value.JsonNull? || literal.value.JsonBool?
    case NullType => literal.value.JsonNull?
    case OtherLiteral(_) => false
  }

  /** Every node has the fields of its kind, no others, and bounded lists and strings. */
  predicate ShapeBoolean(e: Boolean, limits: Limits)
    decreases e
  {
    && NodeShape(e, limits)
    && (forall i :: 0 <= i < |e.children| ==> ShapeBoolean(e.children[i], limits))
    && (e.operand.Some? ==> ShapeBoolean(e.operand.value, limits))
    && (e.left.Some? ==> ShapeValue(e.left.value, limits))
    && (e.right.Some? ==> ShapeValue(e.right.value, limits))
    && (forall i :: 0 <= i < |e.values| ==> ShapeValue(e.values[i], limits))
  }

  predicate NodeShape(e: Boolean, limits: Limits) {
    match e.kind
    case And => ListShape(e, limits)
    case Or => ListShape(e, limits)
    case Not =>
      && e.operand.Some? && e.operator == NoOperator && e.children == []
      && e.left.None? && e.right.None? && e.values == []
    case Compare =>
      && KnownOperator(e.operator) && e.left.Some? && e.right.Some?
      && e.children == [] && e.operand.None? && e.values == []
    case In => MembershipShape(e, limits)
    case NotIn => MembershipShape(e, limits)
    case IsNull => NullTestShape(e)
    case IsNotNull => NullTestShape(e)
    case OtherBoolean(_) => false
  }

  predicate ListShape(e: Boolean, limits: Limits) {
    && e.operator == NoOperator && e.operand.None? && e.left.None? && e.right.None? && e.values == []
    && 2 <= |e.children| <= limits.maxListItems
  }

  predicate MembershipShape(e: Boolean, limits: Limits) {
    && e.left.Some? && 1 <= |e.values| <= limits.maxListItems
    && e.operator == NoOperator && e.children == [] && e.operand.None? && e.right.None?
  }

  predicate NullTestShape(e: Boolean) {
    && e.left.Some? && e.operator == NoOperator && e.children == []
    && e.operand.None? && e.right.None? && e.values == []
  }

  predicate ShapeValue(v: Value, limits: Limits)
    decreases v
  {
    && ValueShape(v, limits)
    && (forall i :: 0 <= i < |v.cases| ==> ShapeCase(v.cases[i], limits))
    && (v.otherwise.Some? ==> ShapeValue(v.otherwise.value, limits))
  }

  predicate ShapeCase(b: CaseBranch, limits: Limits)
    decreases b
  {
    ShapeBoolean(b.when, limits) && ShapeValue(b.then_, limits)
  }

  predicate ValueShape(v: Value, limits: Limits) {
    match v.kind
    case Column => ColumnShape(v)
    case ColumnCopy => ColumnShape(v)
    case Parameter =>
      && Trim(v.parameter) != "" && |Trim(v.parameter)| <= limits.maxStringLength
      && v.nodeID == 0 && v.literal.None? && v.cases == [] && v.otherwise.None?
    case LiteralValue =>
      && v.literal.Some? && v.nodeID == 0 && v.parameter == "" && v.cases == [] && v.otherwise.None?
      && LiteralFits(v.literal.value, limits)
    case Conditional =>
      && 1 <= |v.cases| <= limits.maxListItems && v.otherwise.Some?
      && v.nodeID == 0 && v.parameter == "" && v.literal.None?
    case OtherValue(_) => false
  }

  predicate ColumnShape(v: Value) {
    v.nodeID > 0 && v.parameter == "" && v.literal.None? && v.cases == [] && v.otherwise.None?
  }

  predicate IsInteger(n: real, i: Int64) {
    n == i as real
  }

  /** Which literals fit, by what their JSON is. */
  lemma LiteralsByJson(literal: Literal, limits: Limits)
    ensures LiteralFits(literal, limits) <==>
      match literal.value
      case JsonNull => literal.kind in {Text, Bool, NullType}
      case JsonBool(_) => literal.kind == Bool
      case JsonText(s) => literal.kind == Text && |s| <= limits.maxStringLength
      case JsonNumber(n, plain) =>
        literal.kind == Decimal
        || (literal.kind == Integer && plain && exists i: Int64 :: IsInteger(n, i))
      case _ => false
  {
    if literal.kind == Integer && literal.value.JsonNumber? {
      var n := literal.value.n;
      if LiteralFits(literal, limits) {
        var i: Int64 := n.Floor;
        assert IsInteger(n, i);
      }
      if i: Int64 :| IsInteger(n, i) {
        assert n.Floor == i;
      }
    }
  }

  // ----- the shape of a node, field by field -----------------------------------------------------

  /** Which fields a boolean node carries, and how many of each: every field has its kinds, and is empty in all others. */
  lemma BooleanFields(e: Boolean, limits: Limits)
    ensures NodeShape(e, limits) <==>
      && !e.kind.OtherBoolean?
      && (if e.kind in {And, Or} then 2 <= |e.children| <= limits.maxListItems else |e.children| == 0)
      && (e.operand.Some? <==> e.kind == Not)
      && (e.left.Some? <==> e.kind in {Compare, In, NotIn, IsNull, IsNotNull})
      && (e.right.Some? <==> e.kind == Compare)
      && (if e.kind in {In, NotIn} then 0 < |e.values| <= limits.maxListItems else |e.values| == 0)
      && (if e.kind == Compare then e.operator in {Eq, Ne, Gt, Gte, Lt, Lte} else e.operator == NoOperator)
  {
  }

  /** And a value node. */
  lemma ValueFields(v: Value, limits: Limits)
    ensures ValueShape(v, limits) <==>
      && !v.kind.OtherValue?
      && (if v.kind in {Column, ColumnCopy} then v.nodeID >= 1 else v.nodeID == 0)
      && (if v.kind == Parameter then 0 < |Trim(v.parameter)| <= limits.maxStringLength else |v.parameter| == 0)
      && (if v.kind == LiteralValue then v.literal.Some? && LiteralFits(v.literal.value, limits) else v.literal.None?)
      && (if v.kind == Conditional then 0 < |v.cases| <= limits.maxListItems else |v.cases| == 0)
      && (v.otherwise.Some? <==> v.kind == Conditional)
  {
  }

  /** What validation decides: shape, depth and size together. */
  predicate AcceptedBoolean(e: Boolean, limits: Limits) {
    && PositiveLimits(limits) && ShapeBoolean(e, limits)
    && DepthBoolean(e) <= limits.maxDepth && SizeBoolean(e) <= limits.maxNodes
  }

  predicate AcceptedValue(v: Value, limits: Limits) {
    && PositiveLimits(limits) && ShapeValue(v, limits)
    && DepthValue(v) <= limits.maxDepth && SizeValue(v) <= limits.maxNodes
  }

  // ----- the traversal with its shared node counter ----------------------------------------------

  class Validator {
    const limits: Limits
    var nodes: int

    constructor (limits: Limits)
      ensures this.limits == limits && nodes == 0
    {
      this.limits := limits;
      nodes := 0;
    }

    method Enter(depth: int) returns (ok: bool)
      modifies this
      ensures nodes == old(nodes) + 1
      ensures ok <==> depth <= limits.maxDepth && nodes <= limits.maxNodes
    {
      nodes := nodes + 1;
      if depth > limits.maxDepth { return false; }
      if nodes > limits.maxNodes { return false; }
      return true;
    }

    /** Accepts exactly the shapes that fit the remaining depth and the remaining node budget, and then the
        counter has advanced by the size of the expression. */
    method CheckBoolean(e: Boolean, depth: int) returns (ok: bool)
      modifies this
      ensures ok <==>
        && ShapeBoolean(e, limits) && depth + DepthBoolean(e) - 1 <= limits.maxDepth
        && old(nodes) + SizeBoolean(e) <= limits.maxNodes
      ensures ok ==> nodes == old(nodes) + SizeBoolean(e)
      decreases e, 1
    {
      ok := Enter(depth);
      if !ok { return false; }
      match e.kind
      case And => ok := CheckList(e, depth);
      case Or => ok := CheckList(e, depth);
      case Not =>
        if e.operand.None? || e.operator != NoOperator || |e.children| != 0
           || e.left.Some? || e.right.Some? || |e.values| != 0 {
          return false;
        }
        ok := CheckBoolean(e.operand.value, depth + 1);
      case Compare =>
        if !KnownOperator(e.operator) || e.left.None? || e.right.None?
           || |e.children| != 0 || e.operand.Some? || |e.values| != 0 {
          return false;
        }
        ok := CheckValue(e.left.value, depth + 1);
        if !ok { return false; }
        ok := CheckValue(e.right.value, depth + 1);
      case In => ok := CheckMembership(e, depth);
      case NotIn => ok := CheckMembership(e, depth);
      case IsNull => ok := CheckNullTest(e, depth);
      case IsNotNull => ok := CheckNullTest(e, depth);
      case OtherBoolean(_) => return false;
    }

    method CheckList(e: Boolean, depth: int) returns (ok: bool)
      requires e.kind.And? || e.kind.Or?
      requires depth <= limits.maxDepth && nodes <= limits.maxNodes
      modifies this
      ensures ok <==>
        && ShapeBoolean(e, limits) && depth + DepthBoolean(e) - 1 <= limits.maxDepth
        && old(nodes) + SizeBoolean(e) - 1 <= limits.maxNodes
      ensures ok ==> nodes == old(nodes) + SizeBoolean(e) - 1
      decreases e, 0
    {
      if e.operator != NoOperator || e.operand.Some? || e.left.Some? || e.right.Some? || |e.values| != 0 {
        return false;
      }
      if |e.children| < 2 || |e.children| > limits.maxListItems {
        return false;
      }
      DeepestBoolean(e.children);
      ok := CheckBooleans(e.children, depth + 1);
    }

    method CheckBooleans(es: seq<Boolean>, depth: int) returns (ok: bool)
      requires nodes <= limits.maxNodes
      modifies this
      ensures ok <==> BooleansFit(es, limits.maxDepth - depth + 1, limits)
                      && old(nodes) + SizeBooleans(es) <= limits.maxNodes
      ensures ok ==> nodes == old(nodes) + SizeBooleans(es)
      decreases es, 0
    {
      for i := 0 to |es|
        invariant nodes + SizeBooleans(es[i..]) == old(nodes) + SizeBooleans(es)
        invariant BooleansFit(es[..i], limits.maxDepth - depth + 1, limits)
        invariant nodes <= limits.maxNodes
      {
        assert es[i..][1..] == es[i + 1..] && es[..i + 1] == es[..i] + [es[i]];
        var fits := CheckBoolean(es[i], depth);
        if !fits { return false; }
      }
      assert es[..|es|] == es;
      return true;
    }

    method CheckMembership(e: Boolean, depth: int) returns (ok: bool)
      requires e.kind.In? || e.kind.NotIn?
      requires depth <= limits.maxDepth && nodes <= limits.maxNodes
      modifies this
      ensures ok <==>
        && ShapeBoolean(e, limits) && depth + DepthBoolean(e) - 1 <= limits.maxDepth
        && old(nodes) + SizeBoolean(e) - 1 <= limits.maxNodes
      ensures ok ==> nodes == old(nodes) + SizeBoolean(e) - 1
      decreases e, 0
    {
      if e.left.None? || |e.values| == 0 || |e.values| > limits.maxListItems
         || e.operator != NoOperator || |e.children| != 0 || e.operand.Some? || e.right.Some? {
        return false;
      }
      var fits := CheckValue(e.left.value, depth + 1);
      if !fits { return false; }
      DeepestValue(e.values);
      ok := CheckValues(e.values, depth + 1);
    }

    method CheckValues(vs: seq<Value>, depth: int) returns (ok: bool)
      requires nodes <= limits.maxNodes
      modifies this
      ensures ok <==> ValuesFit(vs, limits.maxDepth - depth + 1, limits)
                      && old(nodes) + SizeValues(vs) <= limits.maxNodes
      ensures ok ==> nodes == old(nodes) + SizeValues(vs)
      decreases vs, 0
    {
      for i := 0 to |vs|
        invariant nodes + SizeValues(vs[i..]) == old(nodes) + SizeValues(vs)
        invariant ValuesFit(vs[..i], limits.maxDepth - depth + 1, limits)
        invariant nodes <= limits.maxNodes
      {
        assert vs[i..][1..] == vs[i + 1..] && vs[..i + 1] == vs[..i] + [vs[i]];
        var fits := CheckValue(vs[i], depth);
        if !fits { return false; }
      }
      assert vs[..|vs|] == vs;
      return true;
    }

    method CheckNullTest(e: Boolean, depth: int) returns (ok: bool)
      requires e.kind.IsNull? || e.kind.IsNotNull?
      requires depth <= limits.maxDepth && nodes <= limits.maxNodes
      modifies this
      ensures ok <==>
        && ShapeBoolean(e, limits) && depth + DepthBoolean(e) - 1 <= limits.maxDepth
        && old(nodes) + SizeBoolean(e) - 1 <= limits.maxNodes
      ensures ok ==> nodes == old(nodes) + SizeBoolean(e) - 1
      decreases e, 0
    {
      if e.left.None? || e.operator != NoOperator || |e.children| != 0
         || e.operand.Some? || e.right.Some? || |e.values| != 0 {
        return false;
      }
      ok := CheckValue(e.left.value, depth + 1);
    }

    method CheckValue(v: Value, depth: int) returns (ok: bool)
      modifies this
      ensures ok <==>
        && ShapeValue(v, limits) && depth + DepthValue(v) - 1 <= limits.maxDepth
        && old(nodes) + SizeValue(v) <= limits.maxNodes
      ensures ok ==> nodes == old(nodes) + SizeValue(v)
      decreases v, 1
    {
      ok := Enter(depth);
      if !ok { return false; }
      match v.kind
      case Column => ok := ColumnShape(v);
      case ColumnCopy => ok := ColumnShape(v);
      case Parameter =>
        var name := Trim(v.parameter);
        ok := !(name == "" || |name| > limits.maxStringLength || v.nodeID != 0
                || v.literal.Some? || |v.cases| != 0 || v.otherwise.Some?);
      case LiteralValue =>
        if v.literal.None? || v.nodeID != 0 || v.parameter != "" || |v.cases| != 0 || v.otherwise.Some? {
          return false;
        }
        ok := LiteralFits(v.literal.value, limits);
      case Conditional => ok := CheckConditional(v, depth);
      case OtherValue(_) => return false;
    }

    method CheckConditional(v: Value, depth: int) returns (ok: bool)
      requires v.kind.Conditional?
      requires depth <= limits.maxDepth && nodes <= limits.maxNodes
      modifies this
      ensures ok <==>
        && ShapeValue(v, limits) && depth + DepthValue(v) - 1 <= limits.maxDepth
        && old(nodes) + SizeValue(v) - 1 <= limits.maxNodes
      ensures ok ==> nodes == old(nodes) + SizeValue(v) - 1
      decreases v, 0
    {
      if |v.cases| == 0 || |v.cases| > limits.maxListItems || v.otherwise.None?
         || v.nodeID != 0 || v.parameter != "" || v.literal.Some? {
        return false;
      }
      DeepestCase(v.cases);
      var fits := CheckCases(v.cases, depth + 1);
      if !fits { return false; }
      ok := CheckValue(v.otherwise.value, depth + 1);
    }

    method CheckCases(cases: seq<CaseBranch>, depth: int) returns (ok: bool)
      requires nodes <= limits.maxNodes
      modifies this
      ensures ok <==> CasesFit(cases, limits.maxDepth - depth + 1, limits)
                      && old(nodes) + SizeCases(cases) <= limits.maxNodes
      ensures ok ==> nodes == old(nodes) + SizeCases(cases)
      decreases cases, 0
    {
      for i := 0 to |cases|
        invariant nodes + SizeCases(cases[i..]) == old(nodes) + SizeCases(cases)
        invariant CasesFit(cases[..i], limits.maxDepth - depth + 1, limits)
        invariant nodes <= limits.maxNodes
      {
        assert cases[i..][1..] == cases[i + 1..] && cases[..i + 1] == cases[..i] + [cases[i]];
        assert cases[i].when < cases[i] && cases[i].then_ < cases[i];
        var whenFits := CheckBoolean(cases[i].when, depth);
        if !whenFits { return false; }
        var thenFits := CheckValue(cases[i].then_, depth);
        if !thenFits { return false; }
      }
      assert cases[..|cases|] == cases;
      return true;
    }
  }

  predicate BooleansFit(es: seq<Boolean>, room: int, limits: Limits) {
    forall i :: 0 <= i < |es| ==> ShapeBoolean(es[i], limits) && DepthBoolean(es[i]) <= room
  }

  predicate ValuesFit(vs: seq<Value>, room: int, limits: Limits) {
    forall i :: 0 <= i < |vs| ==> ShapeValue(vs[i], limits) && DepthValue(vs[i]) <= room
  }

  predicate CasesFit(cases: seq<CaseBranch>, room: int, limits: Limits) {
    forall i :: 0 <= i < |cases| ==> ShapeCase(cases[i], limits) && DepthCase(cases[i]) <= room
  }

  function DepthCase(b: CaseBranch): nat {
    Max(DepthBoolean(b.when), DepthValue(b.then_))
  }

  lemma DeepestBoolean(es: seq<Boolean>)
    ensures forall i :: 0 <= i < |es| ==> DepthBoolean(es[i]) <= DepthBooleans(es)
    ensures DepthBooleans(es) == 0 || exists i :: 0 <= i < |es| && DepthBooleans(es) == DepthBoolean(es[i])
  {
    if es != [] {
      DeepestBoolean(es[1..]);
      assert forall i :: 1 <= i < |es| ==> es[i] == es[1..][i - 1];
      if DepthBooleans(es) != DepthBoolean(es[0]) && DepthBooleans(es[1..]) != 0 {
        var i :| 0 <= i < |es[1..]| && DepthBooleans(es[1..]) == DepthBoolean(es[1..][i]);
        assert es[i + 1] == es[1..][i];
      }
    }
  }

  lemma DeepestValue(vs: seq<Value>)
    ensures forall i :: 0 <= i < |vs| ==> DepthValue(vs[i]) <= DepthValues(vs)
    ensures DepthValues(vs) == 0 || exists i :: 0 <= i < |vs| && DepthValues(vs) == DepthValue(vs[i])
  {
    if vs != [] {
      DeepestValue(vs[1..]);
      assert forall i :: 1 <= i < |vs| ==> vs[i] == vs[1..][i - 1];
      if DepthValues(vs) != DepthValue(vs[0]) && DepthValues(vs[1..]) != 0 {
        var i :| 0 <= i < |vs[1..]| && DepthValues(vs[1..]) == DepthValue(vs[1..][i]);
        assert vs[i + 1] == vs[1..][i];
      }
    }
  }

  lemma DeepestCase(cases: seq<CaseBranch>)
    ensures forall i :: 0 <= i < |cases| ==> DepthCase(cases[i]) <= DepthCases(cases)
    ensures DepthCases(cases) == 0 || exists i :: 0 <= i < |cases| && DepthCases(cases) == DepthCase(cases[i])
  {
    if cases != [] {
      DeepestCase(cases[1..]);
      assert forall i :: 1 <= i < |cases| ==> cases[i] == cases[1..][i - 1];
      if DepthCases(cases) != DepthCase(cases[0]) && DepthCases(cases[1..]) != 0 {
        var i :| 0 <= i < |cases[1..]| && DepthCases(cases[1..]) == DepthCase(cases[1..][i]);
        assert cases[i + 1] == cases[1..][i];
      }
    }
  }

  /** Validation succeeds exactly on the acceptable expressions. */
  method ValidateBoolean(e: Boolean, limits: Limits) returns (ok: bool)
    ensures ok <==> AcceptedBoolean(e, limits)
  {
    if !PositiveLimits(limits) { return false; }
    var v := new Validator(limits);
    ok := v.CheckBoolean(e, 1);
  }

  method ValidateValue(e: Value, limits: Limits) returns (ok: bool)
    ensures ok <==> AcceptedValue(e, limits)
  {
    if !PositiveLimits(limits) { return false; }
    var v := new Validator(limits);
    ok := v.CheckValue(e, 1);
  }

  // ----- accepted expressions evaluate -----------------------------------------------------------

  lemma {:induction false} ShapeEvaluates(e: Boolean, limits: Limits)
    requires ShapeBoolean(e, limits)
    ensures EvaluableBoolean(e)
    decreases e, 1
  {
    forall i | 0 <= i < |e.children| ensures EvaluableBoolean(e.children[i]) { ShapeEvaluates(e.children[i], limits); }
    forall i | 0 <= i < |e.values| ensures EvaluableValue(e.values[i]) { ValueShapeEvaluates(e.values[i], limits); }
    if e.operand.Some? { ShapeEvaluates(e.operand.value, limits); }
    if e.left.Some? { ValueShapeEvaluates(e.left.value, limits); }
    if e.right.Some? { ValueShapeEvaluates(e.right.value, limits); }
  }

  lemma {:induction false} ValueShapeEvaluates(v: Value, limits: Limits)
    requires ShapeValue(v, limits)
    ensures EvaluableValue(v)
    decreases v, 1
  {
    forall i | 0 <= i < |v.cases| ensures EvaluableCase(v.cases[i]) {
      assert v.cases[i].when < v.cases[i] && v.cases[i].then_ < v.cases[i];
      assert ShapeCase(v.cases[i], limits);
      ShapeEvaluates(v.cases[i].when, limits);
      ValueShapeEvaluates(v.cases[i].then_, limits);
    }
    if v.otherwise.Some? { ValueShapeEvaluates(v.otherwise.value, limits); }
  }

  /** An accepted expression evaluates without error in every context. */
  lemma AcceptedEvaluates(e: Boolean, limits: Limits, c: Context)
    requires AcceptedBoolean(e, limits)
    ensures EvalBoolean(e, c).Success?
  {
    ShapeEvaluates(e, limits);
    EvaluationAccounts(e, c);
  }

  lemma AcceptedValueEvaluates(v: Value, limits: Limits, c: Context)
    requires AcceptedValue(v, limits)
    ensures EvalValue(v, c).Success?
  {
    ValueShapeEvaluates(v, limits);
    ValueAccounts(v, c);
  }
}
