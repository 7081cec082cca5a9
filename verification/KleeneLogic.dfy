/** Where the evaluator departs from three-valued logic. A part that is UNKNOWN but misses nothing (a comparison with
    null, or an ordering of incomparable values) counts for nothing in `and`, `or`, `in` and in the combination of an
    edge; Kleene's connectives would make the whole UNKNOWN. */
module KleeneLogic {
  import opened Wrappers
  import opened Conditions
  import opened ConditionTheorems
  import opened EdgeEvaluation
  import References
  import opened Validation

  // ----- Kleene's connectives --------------------------------------------------------------------

  function KleeneAnd(ts: seq<Truth>): Truth {
    if False in ts then False else if Unknown in ts then Unknown else True
  }

  function KleeneOr(ts: seq<Truth>): Truth {
    if True in ts then True else if Unknown in ts then Unknown else False
  }

  function KleeneNot(t: Truth): Truth {
    match t
    case True => False
    case False => True
    case Unknown => Unknown
  }

  function TruthsOf(parts: seq<Evaluation>): seq<Truth> {
    seq(|parts|, i requires 0 <= i < |parts| => parts[i].truth)
  }

  /** No part settles the connective, some part is unknown, and no unknown part names anything that is missing. */
  predicate Swallowed(parts: seq<Evaluation>, settling: Truth) {
    && (forall i :: 0 <= i < |parts| ==> parts[i].truth != settling)
    && (exists i :: 0 <= i < |parts| && parts[i].truth == Unknown)
    && (forall i :: 0 <= i < |parts| && parts[i].truth == Unknown ==> parts[i].missing == [])
  }

  /** An unknown part that names something missing. */
  predicate Wanting(parts: seq<Evaluation>) {
    exists i :: 0 <= i < |parts| && parts[i].truth == Unknown && parts[i].missing != []
  }

  predicate Settles(parts: seq<Evaluation>, settling: Truth) {
    exists i :: 0 <= i < |parts| && parts[i].truth == settling
  }

  /** A connective that answers UNKNOWN only for want of a reference is Kleene's exactly when nothing is swallowed. */
  lemma DepartsOnlyWhenSwallowed(parts: seq<Evaluation>)
    ensures (if Settles(parts, False) then False else if Wanting(parts) then Unknown else True) == KleeneAnd(TruthsOf(parts))
      <==> !Swallowed(parts, False)
    ensures (if Settles(parts, True) then True else if Wanting(parts) then Unknown else False) == KleeneOr(TruthsOf(parts))
      <==> !Swallowed(parts, True)
  {
    var ts := TruthsOf(parts);
    forall t ensures t in ts <==> Settles(parts, t) {
      if Settles(parts, t) {
        var i :| 0 <= i < |parts| && parts[i].truth == t;
        assert ts[i] == t;
      }
    }
  }

  // ----- conjunction and disjunction -------------------------------------------------------------

  predicate AllEvaluate(es: seq<Boolean>, c: Context) {
    forall i :: 0 <= i < |es| ==> EvalBoolean(es[i], c).Success?
  }

  function PartsOf(es: seq<Boolean>, c: Context): seq<Evaluation>
    requires AllEvaluate(es, c)
  {
    seq(|es|, i requires 0 <= i < |es| => EvalBoolean(es[i], c).value)
  }

  lemma {:induction false} AndTruth(es: seq<Boolean>, c: Context, missing: seq<Reference>)
    requires AllEvaluate(es, c)
    ensures EvalAnd(es, c, missing).Success?
    ensures EvalAnd(es, c, missing).value.truth ==
      if Settles(PartsOf(es, c), False) then False
      else if missing != [] || Wanting(PartsOf(es, c)) then Unknown else True
  {
    if es != [] {
      var parts := PartsOf(es, c);
      FirstPart(es, c, False);
      if parts[0].truth != False {
        AndTruth(es[1..], c, if parts[0].truth == Unknown then missing + parts[0].missing else missing);
      }
    }
  }

  lemma {:induction false} OrTruth(es: seq<Boolean>, c: Context, missing: seq<Reference>)
    requires AllEvaluate(es, c)
    ensures EvalOr(es, c, missing).Success?
    ensures EvalOr(es, c, missing).value.truth ==
      if Settles(PartsOf(es, c), True) then True
      else if missing != [] || Wanting(PartsOf(es, c)) then Unknown else False
  {
    if es != [] {
      var parts := PartsOf(es, c);
      FirstPart(es, c, True);
      if parts[0].truth != True {
        OrTruth(es[1..], c, if parts[0].truth == Unknown then missing + parts[0].missing else missing);
      }
    }
  }

  lemma FirstPart(es: seq<Boolean>, c: Context, t: Truth)
    requires AllEvaluate(es, c) && es != []
    ensures AllEvaluate(es[1..], c) && PartsOf(es, c) == [EvalBoolean(es[0], c).value] + PartsOf(es[1..], c)
    ensures Settles(PartsOf(es, c), t) <==> PartsOf(es, c)[0].truth == t || Settles(PartsOf(es[1..], c), t)
    ensures Wanting(PartsOf(es, c)) <==>
      (PartsOf(es, c)[0].truth == Unknown && PartsOf(es, c)[0].missing != []) || Wanting(PartsOf(es[1..], c))
  {
    var parts, rest := PartsOf(es, c), PartsOf(es[1..], c);
    assert parts == [parts[0]] + rest;
    FirstOfParts(parts, rest, t);
  }

  lemma FirstOfParts(parts: seq<Evaluation>, rest: seq<Evaluation>, t: Truth)
    requires parts != [] && rest == parts[1..]
    ensures Settles(parts, t) <==> parts[0].truth == t || Settles(rest, t)
    ensures Wanting(parts) <==> (parts[0].truth == Unknown && parts[0].missing != []) || Wanting(rest)
  {
    if Settles(rest, t) {
      var i :| 0 <= i < |rest| && rest[i].truth == t;
      assert parts[i + 1].truth == t;
    }
    if Wanting(rest) {
      var i :| 0 <= i < |rest| && rest[i].truth == Unknown && rest[i].missing != [];
      assert parts[i + 1] == rest[i];
    }
    forall i | 0 < i < |parts| ensures parts[i] == rest[i - 1] {}
  }

  /** `and` is Kleene's conjunction of its operands' truths exactly when nothing is swallowed; then it is TRUE. */
  lemma AndIsKleene(es: seq<Boolean>, c: Context)
    requires AllEvaluate(es, c)
    ensures EvalBoolean(AndOf(es), c).Success?
    ensures EvalBoolean(AndOf(es), c).value.truth == KleeneAnd(TruthsOf(PartsOf(es, c))) <==> !Swallowed(PartsOf(es, c), False)
    ensures Swallowed(PartsOf(es, c), False) ==> EvalBoolean(AndOf(es), c) == Success(Evaluation(True, []))
  {
    AndTruth(es, c, []);
    DepartsOnlyWhenSwallowed(PartsOf(es, c));
    if Swallowed(PartsOf(es, c), False) { AndTrueIsBare(es, c, []); }
  }

  lemma {:induction false} AndTrueIsBare(es: seq<Boolean>, c: Context, missing: seq<Reference>)
    requires EvalAnd(es, c, missing).Success? && EvalAnd(es, c, missing).value.truth == True
    ensures EvalAnd(es, c, missing) == Success(Evaluation(True, []))
  {
    if es != [] {
      var r := EvalBoolean(es[0], c).value;
      AndTrueIsBare(es[1..], c, if r.truth == Unknown then missing + r.missing else missing);
    }
  }

  lemma {:induction false} OrFalseIsBare(es: seq<Boolean>, c: Context, missing: seq<Reference>)
    requires EvalOr(es, c, missing).Success? && EvalOr(es, c, missing).value.truth == False
    ensures EvalOr(es, c, missing) == Success(Evaluation(False, []))
  {
    if es != [] {
      var r := EvalBoolean(es[0], c).value;
      OrFalseIsBare(es[1..], c, if r.truth == Unknown then missing + r.missing else missing);
    }
  }

  /** The dual: a swallowed disjunction is FALSE. */
  lemma OrIsKleene(es: seq<Boolean>, c: Context)
    requires AllEvaluate(es, c)
    ensures EvalBoolean(OrOf(es), c).Success?
    ensures EvalBoolean(OrOf(es), c).value.truth == KleeneOr(TruthsOf(PartsOf(es, c))) <==> !Swallowed(PartsOf(es, c), True)
    ensures Swallowed(PartsOf(es, c), True) ==> EvalBoolean(OrOf(es), c) == Success(Evaluation(False, []))
  {
    OrTruth(es, c, []);
    DepartsOnlyWhenSwallowed(PartsOf(es, c));
    if Swallowed(PartsOf(es, c), True) { OrFalseIsBare(es, c, []); }
  }

  /** Negation is always Kleene's. */
  lemma NotIsKleene(e: Boolean, c: Context)
    requires EvalBoolean(e, c).Success?
    ensures EvalBoolean(NotOf(e), c).Success?
    ensures EvalBoolean(NotOf(e), c).value.truth == KleeneNot(EvalBoolean(e, c).value.truth)
  {
    EvalNot(e, c);
  }

  // ----- membership ------------------------------------------------------------------------------

  predicate ItemsEvaluate(vs: seq<Value>, c: Context) {
    forall i :: 0 <= i < |vs| ==> EvalValue(vs[i], c).Success?
  }

  /** Whether the left side equals an item, for all that is known of it. */
  function EqualityTruth(l: Scalar, item: Resolved): Truth {
    if item.Unresolved? || l.Null? || item.value.Null? then Unknown
    else TruthOf(CompareScalars(l, item.value) == Some(0))
  }

  function EqualityTruths(l: Scalar, vs: seq<Value>, c: Context): seq<Truth>
    requires ItemsEvaluate(vs, c)
  {
    seq(|vs|, i requires 0 <= i < |vs| => EqualityTruth(l, EvalValue(vs[i], c).value))
  }

  /** No item equals the left side, some comparison is with null or with an item that does not resolve, and no item
      names anything that is missing. */
  predicate NullSwallowed(l: Scalar, vs: seq<Value>, c: Context)
    requires ItemsEvaluate(vs, c)
  {
    && (forall i :: 0 <= i < |vs| ==> EqualityTruth(l, EvalValue(vs[i], c).value) != True)
    && (exists i :: 0 <= i < |vs| && EqualityTruth(l, EvalValue(vs[i], c).value) == Unknown)
    && (forall i :: 0 <= i < |vs| ==> MissingOf(EvalValue(vs[i], c).value) == [])
  }

  lemma EqualityPart(l: Value, v: Value, c: Context)
    requires EvalValue(l, c).Success? && EvalValue(l, c).value.Known? && EvalValue(v, c).Success?
    ensures EvalBoolean(EqualsOf(l, v), c)
         == Success(Evaluation(EqualityTruth(EvalValue(l, c).value.value, EvalValue(v, c).value), MissingOf(EvalValue(v, c).value)))
  {
    var a, b := EvalValue(l, c).value, EvalValue(v, c).value;
    assert EvalBoolean(EqualsOf(l, v), c) == EvalCompare(a, b, Eq);
    if b.Unresolved? { assert [] + b.missing == b.missing; }
  }

  lemma EqualityParts(l: Value, vs: seq<Value>, c: Context)
    requires EvalValue(l, c).Success? && EvalValue(l, c).value.Known? && ItemsEvaluate(vs, c)
    ensures AllEvaluate(EqualsEach(l, vs), c)
    ensures TruthsOf(PartsOf(EqualsEach(l, vs), c)) == EqualityTruths(EvalValue(l, c).value.value, vs, c)
    ensures Swallowed(PartsOf(EqualsEach(l, vs), c), True) <==> NullSwallowed(EvalValue(l, c).value.value, vs, c)
  {
    var left, es := EvalValue(l, c).value.value, EqualsEach(l, vs);
    forall i | 0 <= i < |vs|
      ensures EvalBoolean(es[i], c)
           == Success(Evaluation(EqualityTruth(left, EvalValue(vs[i], c).value), MissingOf(EvalValue(vs[i], c).value)))
    {
      EqualityPart(l, vs[i], c);
    }
    var parts := PartsOf(es, c);
    assert forall i :: 0 <= i < |vs| ==> parts[i].truth == EqualityTruth(left, EvalValue(vs[i], c).value);
    assert forall i :: 0 <= i < |vs| ==> parts[i].missing == MissingOf(EvalValue(vs[i], c).value);
    assert TruthsOf(parts) == EqualityTruths(left, vs, c);
  }

  /** `in` is Kleene's disjunction of the equalities exactly when no null is swallowed; then it is FALSE. */
  lemma InIsKleene(l: Value, vs: seq<Value>, c: Context)
    requires EvalValue(l, c).Success? && EvalValue(l, c).value.Known? && ItemsEvaluate(vs, c)
    ensures var left := EvalValue(l, c).value.value; var r := EvalBoolean(MembershipOf(In, l, vs), c);
      && r.Success?
      && (r.value.truth == KleeneOr(EqualityTruths(left, vs, c)) <==> !NullSwallowed(left, vs, c))
      && (NullSwallowed(left, vs, c) ==> r == Success(Evaluation(False, [])))
  {
    InIsDisjunction(l, vs, c);
    EqualityParts(l, vs, c);
    OrIsKleene(EqualsEach(l, vs), c);
  }

  /** `not_in` departs in the same cases, and is then TRUE. */
  lemma NotInIsKleene(l: Value, vs: seq<Value>, c: Context)
    requires EvalValue(l, c).Success? && EvalValue(l, c).value.Known? && ItemsEvaluate(vs, c)
    ensures var left := EvalValue(l, c).value.value; var r := EvalBoolean(MembershipOf(NotIn, l, vs), c);
      && r.Success?
      && (r.value.truth == KleeneNot(KleeneOr(EqualityTruths(left, vs, c))) <==> !NullSwallowed(left, vs, c))
      && (NullSwallowed(left, vs, c) ==> r == Success(Evaluation(True, [])))
  {
    InIsKleene(l, vs, c);
    NotInIsNegatedIn(l, vs, c);
    NotIsKleene(MembershipOf(In, l, vs), c);
    EvalNot(MembershipOf(In, l, vs), c);
  }

  // ----- where such parts come from --------------------------------------------------------------

  /** A comparison is unknown with nothing missing exactly when both sides are known and one is null, or they are of
      different types and the operator is an ordering. */
  lemma SilentComparison(l: Resolved, r: Resolved, op: Operator)
    requires KnownOperator(op) && l.Known? && r.Known?
    ensures EvalCompare(l, r, op) == Success(Evaluation(Unknown, [])) <==>
      l.value.Null? || r.value.Null? || (CompareScalars(l.value, r.value).None? && op != Eq && op != Ne)
  {
  }

  predicate HasType(kind: LiteralType, value: Scalar) {
    match kind
    case Integer => value.NumberScalar?
    case Decimal => value.NumberScalar?
    case Text => value.TextScalar?
    case Bool => value.BoolScalar?
    case NullType => value.Null?
    case OtherLiteral(_) => false
  }

  /** An accepted literal evaluates to a value of its declared type exactly unless it is a string or boolean literal
      whose payload is null; that one evaluates to null, and silences every comparison it takes part in. */
  lemma LiteralHasItsType(literal: Literal, limits: Limits)
    requires LiteralFits(literal, limits)
    ensures DecodeScalar(literal.value).Success?
    ensures HasType(literal.kind, DecodeScalar(literal.value).value) <==>
      !(literal.value == JsonNull && (literal.kind == Text || literal.kind == Bool))
    ensures !HasType(literal.kind, DecodeScalar(literal.value).value) ==> DecodeScalar(literal.value) == Success(Null)
  {
  }

  // ----- edges -----------------------------------------------------------------------------------

  lemma {:induction false} CombineTruth(parts: seq<Evaluation>, missing: seq<Reference>)
    ensures Combine(parts, missing).truth ==
      if Settles(parts, False) then False else if missing != [] || Wanting(parts) then Unknown else True
  {
    if parts != [] {
      FirstOfParts(parts, parts[1..], False);
      if parts[0].truth != False {
        CombineTruth(parts[1..], if parts[0].truth == Unknown then missing + parts[0].missing else missing);
      }
    }
  }

  /** An edge is the conjunction of its guard, selector and transform exactly when nothing is swallowed; then it is
      traversed as TRUE although a condition on it is unknown. */
  lemma EdgeIsKleene(content: References.Content, c: Context)
    requires PartEvaluations(content, c).Success?
    ensures var parts := PartEvaluations(content, c).value; var r := EvalEdge(content, c);
      && r.Success?
      && (r.value.truth == KleeneAnd(TruthsOf(parts)) <==> !Swallowed(parts, False))
      && (Swallowed(parts, False) ==> r.value.truth == True)
  {
    var parts := PartEvaluations(content, c).value;
    CombineTruth(parts, []);
    DepartsOnlyWhenSwallowed(parts);
  }

  // ----- instances -------------------------------------------------------------------------------

  function NumberOf(n: real): Value {
    Value(LiteralValue, 0, "", Some(Literal(Integer, JsonNumber(n, true))), [], None)
  }

  const NullValue := Value(LiteralValue, 0, "", Some(Literal(NullType, JsonNull)), [], None)

  lemma LiteralsAccepted()
    ensures ShapeValue(NumberOf(1.0), DefaultLimits) && DepthValue(NumberOf(1.0)) == 1 && SizeValue(NumberOf(1.0)) == 1
    ensures ShapeValue(NumberOf(2.0), DefaultLimits) && DepthValue(NumberOf(2.0)) == 1 && SizeValue(NumberOf(2.0)) == 1
    ensures ShapeValue(NullValue, DefaultLimits) && DepthValue(NullValue) == 1 && SizeValue(NullValue) == 1
  {
  }

  lemma EqualityAccepted(l: Value, r: Value)
    requires ShapeValue(l, DefaultLimits) && DepthValue(l) == 1 && SizeValue(l) == 1
    requires ShapeValue(r, DefaultLimits) && DepthValue(r) == 1 && SizeValue(r) == 1
    ensures ShapeBoolean(EqualsOf(l, r), DefaultLimits) && DepthBoolean(EqualsOf(l, r)) == 2 && SizeBoolean(EqualsOf(l, r)) == 3
  {
  }

  lemma PairAccepted(a: Boolean, b: Boolean)
    requires ShapeBoolean(a, DefaultLimits) && DepthBoolean(a) == 2 && SizeBoolean(a) == 3
    requires ShapeBoolean(b, DefaultLimits) && DepthBoolean(b) == 2 && SizeBoolean(b) == 3
    ensures AcceptedBoolean(AndOf([a, b]), DefaultLimits) && AcceptedBoolean(OrOf([a, b]), DefaultLimits)
  {
    assert [a, b][1..] == [b] && [b][1..] == [];
    assert SizeBooleans([a, b]) == SizeBoolean(a) + SizeBooleans([b]) && SizeBooleans([b]) == SizeBoolean(b) + SizeBooleans([]);
    assert DepthBooleans([a, b]) == Max(DepthBoolean(a), DepthBooleans([b]));
    assert DepthBooleans([b]) == Max(DepthBoolean(b), DepthBooleans([]));
  }

  lemma ChoiceAccepted(l: Value, a: Value, b: Value)
    requires ShapeValue(l, DefaultLimits) && DepthValue(l) == 1 && SizeValue(l) == 1
    requires ShapeValue(a, DefaultLimits) && DepthValue(a) == 1 && SizeValue(a) == 1
    requires ShapeValue(b, DefaultLimits) && DepthValue(b) == 1 && SizeValue(b) == 1
    ensures AcceptedBoolean(MembershipOf(In, l, [a, b]), DefaultLimits)
  {
    assert [a, b][1..] == [b] && [b][1..] == [];
    assert SizeValues([a, b]) == SizeValue(a) + SizeValues([b]) && SizeValues([b]) == SizeValue(b) + SizeValues([]);
    assert DepthValues([a, b]) == Max(DepthValue(a), DepthValues([b]));
    assert DepthValues([b]) == Max(DepthValue(b), DepthValues([]));
  }

  lemma InstancesAccepted()
    ensures var one, two := NumberOf(1.0), NumberOf(2.0);
      && AcceptedBoolean(AndOf([EqualsOf(one, NullValue), EqualsOf(one, one)]), DefaultLimits)
      && AcceptedBoolean(OrOf([EqualsOf(one, NullValue), EqualsOf(one, two)]), DefaultLimits)
      && AcceptedBoolean(MembershipOf(In, one, [NullValue, two]), DefaultLimits)
  {
    LiteralsAccepted();
    var one, two := NumberOf(1.0), NumberOf(2.0);
    EqualityAccepted(one, NullValue);
    EqualityAccepted(one, one);
    EqualityAccepted(one, two);
    PairAccepted(EqualsOf(one, NullValue), EqualsOf(one, one));
    PairAccepted(EqualsOf(one, NullValue), EqualsOf(one, two));
    ChoiceAccepted(one, NullValue, two);
  }

  lemma InstancesEvaluate(c: Context)
    ensures var one, two := NumberOf(1.0), NumberOf(2.0);
      && EvalBoolean(EqualsOf(one, NullValue), c) == Success(Evaluation(Unknown, []))
      && EvalBoolean(EqualsOf(one, one), c) == Success(Evaluation(True, []))
      && EvalBoolean(EqualsOf(one, two), c) == Success(Evaluation(False, []))
      && EvalValue(one, c) == Success(Known(NumberScalar(1.0)))
      && EvalValue(two, c) == Success(Known(NumberScalar(2.0))) && EvalValue(NullValue, c) == Success(Known(Null))
  {
    var one, two := NumberOf(1.0), NumberOf(2.0);
    assert EvalValue(one, c) == Success(Known(NumberScalar(1.0)));
    assert EvalValue(two, c) == Success(Known(NumberScalar(2.0)));
    assert EvalValue(NullValue, c) == Success(Known(Null));
    EqualityPart(one, NullValue, c);
    EqualityPart(one, one, c);
    EqualityPart(one, two, c);
  }

  /** Accepted expressions, in any context: `1 = null and 1 = 1` is TRUE, `1 = null or 1 = 2` and `1 in (null, 2)` are
      FALSE; by Kleene's tables all three are UNKNOWN. */
  lemma NullsAreSwallowed(c: Context)
    ensures var one, two := NumberOf(1.0), NumberOf(2.0);
      var both := [EqualsOf(one, NullValue), EqualsOf(one, one)];
      var either := [EqualsOf(one, NullValue), EqualsOf(one, two)];
      && AcceptedBoolean(AndOf(both), DefaultLimits) && AcceptedBoolean(OrOf(either), DefaultLimits)
      && AcceptedBoolean(MembershipOf(In, one, [NullValue, two]), DefaultLimits)
      && AllEvaluate(both, c) && KleeneAnd(TruthsOf(PartsOf(both, c))) == Unknown
      && EvalBoolean(AndOf(both), c) == Success(Evaluation(True, []))
      && AllEvaluate(either, c) && KleeneOr(TruthsOf(PartsOf(either, c))) == Unknown
      && EvalBoolean(OrOf(either), c) == Success(Evaluation(False, []))
      && ItemsEvaluate([NullValue, two], c) && KleeneOr(EqualityTruths(NumberScalar(1.0), [NullValue, two], c)) == Unknown
      && EvalBoolean(MembershipOf(In, one, [NullValue, two]), c) == Success(Evaluation(False, []))
  {
    InstancesAccepted();
    InstancesEvaluate(c);
    var one, two := NumberOf(1.0), NumberOf(2.0);
    var both := [EqualsOf(one, NullValue), EqualsOf(one, one)];
    var either := [EqualsOf(one, NullValue), EqualsOf(one, two)];
    hide AcceptedBoolean, EvalBoolean, EvalValue, NumberOf, EqualsOf;
    assert TruthsOf(PartsOf(both, c)) == [Unknown, True];
    assert TruthsOf(PartsOf(either, c)) == [Unknown, False];
    assert EqualityTruths(NumberScalar(1.0), [NullValue, two], c) == [Unknown, False];
    AndIsKleene(both, c);
    OrIsKleene(either, c);
    InIsKleene(one, [NullValue, two], c);
  }
}
