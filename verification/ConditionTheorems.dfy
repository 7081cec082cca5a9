/** What the answers of the evaluator mean: `missing` is a sufficient certificate for an answer, and
    evaluation is preserved by the usual rewrites. */
module ConditionTheorems {
  import opened Wrappers
  import opened Conditions

  // ----- expressions that evaluate ---------------------------------------------------------------

  predicate KnownOperator(op: Operator) {
    !op.NoOperator? && !op.OtherOperator?
  }

  /** The part of well-formedness that evaluation depends on. */
  predicate EvaluableBoolean(e: Boolean)
    decreases e
  {
    match e.kind
    case And => forall i :: 0 <= i < |e.children| ==> EvaluableBoolean(e.children[i])
    case Or => forall i :: 0 <= i < |e.children| ==> EvaluableBoolean(e.children[i])
    case Not => e.operand.Some? && EvaluableBoolean(e.operand.value)
    case Compare =>
      && e.left.Some? && e.right.Some? && KnownOperator(e.operator)
      && EvaluableValue(e.left.value) && EvaluableValue(e.right.value)
    case In => EvaluableMembership(e)
    case NotIn => EvaluableMembership(e)
    case IsNull => e.left.Some? && EvaluableValue(e.left.value)
    case IsNotNull => e.left.Some? && EvaluableValue(e.left.value)
    case OtherBoolean(_) => false
  }

  predicate EvaluableMembership(e: Boolean)
    decreases e, 0
  {
    && e.left.Some? && EvaluableValue(e.left.value)
    && forall i :: 0 <= i < |e.values| ==> EvaluableValue(e.values[i])
  }

  predicate EvaluableValue(v: Value)
    decreases v
  {
    match v.kind
    case Column => v.nodeID > 0
    case ColumnCopy => v.nodeID > 0
    case Parameter => true
    case LiteralValue => v.literal.Some? && DecodeScalar(v.literal.value.value).Success?
    case Conditional =>
      && (forall i :: 0 <= i < |v.cases| ==> EvaluableCase(v.cases[i]))
      && v.otherwise.Some? && EvaluableValue(v.otherwise.value)
    case OtherValue(_) => false
  }

  predicate EvaluableCase(b: CaseBranch)
    decreases b
  {
    EvaluableBoolean(b.when) && EvaluableValue(b.then_)
  }

  // ----- the columns an expression mentions ------------------------------------------------------

  /** Columns in the order the program collects them; fields an expression kind ignores are included. */
  function BooleanColumns(e: Boolean): seq<int>
    decreases e, 1
  {
    BooleansColumns(e.children)
    + (if e.operand.Some? then BooleanColumns(e.operand.value) else [])
    + (if e.left.Some? then ValueColumns(e.left.value) else [])
    + (if e.right.Some? then ValueColumns(e.right.value) else [])
    + ValuesColumns(e.values)
  }

  function BooleansColumns(es: seq<Boolean>): seq<int>
    decreases es, 0
  {
    if es == [] then [] else BooleanColumns(es[0]) + BooleansColumns(es[1..])
  }

  function ValueColumns(v: Value): seq<int>
    decreases v, 1
  {
    (if (v.kind.Column? || v.kind.ColumnCopy?) && v.nodeID > 0 then [v.nodeID] else [])
    + CasesColumns(v.cases)
    + (if v.otherwise.Some? then ValueColumns(v.otherwise.value) else [])
  }

  function ValuesColumns(vs: seq<Value>): seq<int>
    decreases vs, 0
  {
    if vs == [] then [] else ValueColumns(vs[0]) + ValuesColumns(vs[1..])
  }

  function CasesColumns(cases: seq<CaseBranch>): seq<int>
    decreases cases, 0
  {
    if cases == [] then []
    else
      assert cases[0].when < cases[0] && cases[0].then_ < cases[0];
      BooleanColumns(cases[0].when) + ValueColumns(cases[0].then_) + CasesColumns(cases[1..])
  }

  // ----- contexts --------------------------------------------------------------------------------

  predicate Bound(c: Context, r: Reference) {
    if r.nodeID != 0 then r.nodeID in c.columns else r.parameter in c.parameters
  }

  ghost predicate Extends(c: Context, d: Context) {
    && (forall n :: n in c.columns ==> n in d.columns && d.columns[n] == c.columns[n])
    && (forall p :: p in c.parameters ==> p in d.parameters && d.parameters[p] == c.parameters[p])
  }

  /** `d` still binds none of the references in `missing`. */
  ghost predicate Avoids(d: Context, missing: seq<Reference>) {
    forall i :: 0 <= i < |missing| ==> !Bound(d, missing[i])
  }

  /** Every reference is unbound, and the columns are among `columns`. */
  ghost predicate Accounted(c: Context, missing: seq<Reference>, columns: seq<int>) {
    forall i :: 0 <= i < |missing| ==>
      !Bound(c, missing[i]) && (missing[i].nodeID != 0 ==> missing[i].nodeID in columns)
  }

  ghost predicate Settled(e: Evaluation) {
    e.truth != Unknown ==> e.missing == []
  }

  // ----- evaluation succeeds and accounts for what is missing ------------------------------------

  lemma {:induction false} EvaluationAccounts(e: Boolean, c: Context)
    requires EvaluableBoolean(e)
    ensures EvalBoolean(e, c).Success?
    ensures Settled(EvalBoolean(e, c).value)
    ensures Accounted(c, EvalBoolean(e, c).value.missing, BooleanColumns(e))
    decreases e, 1
  {
    match e.kind
    case And =>
      AndAccounts(e.children, c, []);
      assert Accounted(c, [], []) && [] + BooleansColumns(e.children) == BooleansColumns(e.children);
    case Or =>
      OrAccounts(e.children, c, []);
      assert Accounted(c, [], []) && [] + BooleansColumns(e.children) == BooleansColumns(e.children);
    case Not => EvaluationAccounts(e.operand.value, c);
    case Compare =>
      ValueAccounts(e.left.value, c);
      ValueAccounts(e.right.value, c);
    case In => MembershipAccounts(e, c, false);
    case NotIn => MembershipAccounts(e, c, true);
    case IsNull => ValueAccounts(e.left.value, c);
    case IsNotNull => ValueAccounts(e.left.value, c);
  }

  lemma {:induction false} MembershipAccounts(e: Boolean, c: Context, negated: bool)
    requires EvaluableMembership(e)
    ensures EvalMembership(e, c, negated).Success?
    ensures Settled(EvalMembership(e, c, negated).value)
    ensures Accounted(c, EvalMembership(e, c, negated).value.missing, BooleanColumns(e))
    decreases e, 0
  {
    ValueAccounts(e.left.value, c);
    var left := EvalValue(e.left.value, c).value;
    if left.Known? {
      ItemsAccount(left.value, e.values, c, [], negated);
      assert Accounted(c, [], []) && [] + ValuesColumns(e.values) == ValuesColumns(e.values);
    }
  }

  lemma {:induction false} AndAccounts(es: seq<Boolean>, c: Context, missing: seq<Reference>)
    requires forall i :: 0 <= i < |es| ==> EvaluableBoolean(es[i])
    ensures EvalAnd(es, c, missing).Success?
    ensures Settled(EvalAnd(es, c, missing).value)
    ensures forall columns :: Accounted(c, missing, columns) ==>
      Accounted(c, EvalAnd(es, c, missing).value.missing, columns + BooleansColumns(es))
    decreases es, 0
  {
    if es != [] {
      EvaluationAccounts(es[0], c);
      var r := EvalBoolean(es[0], c).value;
      var next := if r.truth == Unknown then missing + r.missing else missing;
      AndAccounts(es[1..], c, next);
      forall columns | Accounted(c, missing, columns)
        ensures Accounted(c, EvalAnd(es, c, missing).value.missing, columns + BooleansColumns(es))
      {
        assert Accounted(c, next, columns + BooleanColumns(es[0]));
        assert columns + BooleansColumns(es) == columns + BooleanColumns(es[0]) + BooleansColumns(es[1..]);
      }
    }
  }

  lemma {:induction false} OrAccounts(es: seq<Boolean>, c: Context, missing: seq<Reference>)
    requires forall i :: 0 <= i < |es| ==> EvaluableBoolean(es[i])
    ensures EvalOr(es, c, missing).Success?
    ensures Settled(EvalOr(es, c, missing).value)
    ensures forall columns :: Accounted(c, missing, columns) ==>
      Accounted(c, EvalOr(es, c, missing).value.missing, columns + BooleansColumns(es))
    decreases es, 0
  {
    if es != [] {
      EvaluationAccounts(es[0], c);
      var r := EvalBoolean(es[0], c).value;
      var next := if r.truth == Unknown then missing + r.missing else missing;
      OrAccounts(es[1..], c, next);
      forall columns | Accounted(c, missing, columns)
        ensures Accounted(c, EvalOr(es, c, missing).value.missing, columns + BooleansColumns(es))
      {
        assert Accounted(c, next, columns + BooleanColumns(es[0]));
        assert columns + BooleansColumns(es) == columns + BooleanColumns(es[0]) + BooleansColumns(es[1..]);
      }
    }
  }

  lemma {:induction false} ItemsAccount(
    l: Scalar, items: seq<Value>, c: Context, missing: seq<Reference>, negated: bool)
    requires forall i :: 0 <= i < |items| ==> EvaluableValue(items[i])
    ensures EvalItems(l, items, c, missing, negated).Success?
    ensures Settled(EvalItems(l, items, c, missing, negated).value)
    ensures forall columns :: Accounted(c, missing, columns) ==>
      Accounted(c, EvalItems(l, items, c, missing, negated).value.missing, columns + ValuesColumns(items))
    decreases items, 0
  {
    if items != [] {
      ValueAccounts(items[0], c);
      var next := missing + MissingOf(EvalValue(items[0], c).value);
      ItemsAccount(l, items[1..], c, next, negated);
      assert next == missing || EvalValue(items[0], c).value.Unresolved?;
      forall columns | Accounted(c, missing, columns)
        ensures Accounted(c, EvalItems(l, items, c, missing, negated).value.missing,
                          columns + ValuesColumns(items))
      {
        assert Accounted(c, next, columns + ValueColumns(items[0]));
        assert columns + ValuesColumns(items) == columns + ValueColumns(items[0]) + ValuesColumns(items[1..]);
      }
    }
  }

  lemma {:induction false} ValueAccounts(v: Value, c: Context)
    requires EvaluableValue(v)
    ensures EvalValue(v, c).Success?
    ensures Accounted(c, MissingOf(EvalValue(v, c).value), ValueColumns(v))
    decreases v, 1
  {
    if v.kind.Conditional? {
      CasesAccount(v.cases, c);
      ValueAccounts(v.otherwise.value, c);
    }
  }

  lemma {:induction false} CasesAccount(cases: seq<CaseBranch>, c: Context)
    requires forall i :: 0 <= i < |cases| ==> EvaluableCase(cases[i])
    ensures EvalCases(cases, c).Success?
    ensures EvalCases(cases, c).value.Some? ==>
      Accounted(c, MissingOf(EvalCases(cases, c).value.value), CasesColumns(cases))
    decreases cases, 0
  {
    if cases != [] {
      assert cases[0].when < cases[0] && cases[0].then_ < cases[0];
      assert EvaluableCase(cases[0]);
      EvaluationAccounts(cases[0].when, c);
      ValueAccounts(cases[0].then_, c);
      CasesAccount(cases[1..], c);
    }
  }

  // ----- the certificate -------------------------------------------------------------------------

  /** The certificate theorem: an extension of the context that binds none of the missing references
      leaves the evaluation exactly as it was. A definite answer has nothing missing, so it is final. */
  lemma {:induction false} MissingIsCertificate(e: Boolean, c: Context, d: Context)
    requires EvaluableBoolean(e) && Extends(c, d)
    requires EvalBoolean(e, c).Success? && Avoids(d, EvalBoolean(e, c).value.missing)
    ensures EvalBoolean(e, d) == EvalBoolean(e, c)
    decreases e, 1
  {
    match e.kind
    case And => AndCertificate(e.children, c, d, []);
    case Or => OrCertificate(e.children, c, d, []);
    case Not =>
      EvaluationAccounts(e.operand.value, c);
      MissingIsCertificate(e.operand.value, c, d);
    case Compare =>
      ValueAccounts(e.left.value, c);
      ValueAccounts(e.right.value, c);
      var l, r := EvalValue(e.left.value, c).value, EvalValue(e.right.value, c).value;
      if l.Unresolved? || r.Unresolved? {
        AvoidsParts(d, MissingOf(l), MissingOf(r));
      }
      ValueCertificate(e.left.value, c, d);
      ValueCertificate(e.right.value, c, d);
    case In => MembershipCertificate(e, c, d, false);
    case NotIn => MembershipCertificate(e, c, d, true);
    case IsNull =>
      ValueAccounts(e.left.value, c);
      ValueCertificate(e.left.value, c, d);
    case IsNotNull =>
      ValueAccounts(e.left.value, c);
      ValueCertificate(e.left.value, c, d);
  }

  lemma AvoidsParts(d: Context, a: seq<Reference>, b: seq<Reference>)
    requires Avoids(d, a + b)
    ensures Avoids(d, a) && Avoids(d, b)
  {
    forall i | 0 <= i < |a| ensures !Bound(d, a[i]) { assert (a + b)[i] == a[i]; }
    forall i | 0 <= i < |b| ensures !Bound(d, b[i]) { assert (a + b)[|a| + i] == b[i]; }
  }

  /** Avoiding a list means avoiding what was appended to build one of its prefixes. */
  lemma AvoidsExtension(
    d: Context, base: seq<Reference>, added: seq<Reference>, next: seq<Reference>, whole: seq<Reference>)
    requires next == base + added || added == []
    requires next <= whole && Avoids(d, whole)
    ensures Avoids(d, added)
  {
    if added != [] {
      assert whole == next + whole[|next|..];
      AvoidsParts(d, next, whole[|next|..]);
      AvoidsParts(d, base, added);
    }
  }

  lemma {:induction false} MembershipCertificate(e: Boolean, c: Context, d: Context, negated: bool)
    requires EvaluableMembership(e) && Extends(c, d)
    requires EvalMembership(e, c, negated).Success? && Avoids(d, EvalMembership(e, c, negated).value.missing)
    ensures EvalMembership(e, d, negated) == EvalMembership(e, c, negated)
    decreases e, 0
  {
    ValueAccounts(e.left.value, c);
    ValueCertificate(e.left.value, c, d);
    var l := EvalValue(e.left.value, c).value;
    if l.Known? {
      ItemsCertificate(l.value, e.values, c, d, [], negated);
    }
  }

  /** Whatever an unknown child collected, a conjunction with a false child stays false. */
  lemma {:induction false} AndStaysFalse(
    es: seq<Boolean>, c: Context, d: Context, missing: seq<Reference>, other: seq<Reference>)
    requires forall i :: 0 <= i < |es| ==> EvaluableBoolean(es[i])
    requires Extends(c, d)
    requires EvalAnd(es, c, missing).Success? && EvalAnd(es, c, missing).value.truth == False
    ensures EvalAnd(es, d, other) == Success(Evaluation(False, []))
    decreases es, 0
  {
    if es != [] {
      EvaluationAccounts(es[0], c);
      EvaluationAccounts(es[0], d);
      var r, s := EvalBoolean(es[0], c).value, EvalBoolean(es[0], d).value;
      if r.truth == False {
        MissingIsCertificate(es[0], c, d);
      } else if s.truth != False {
        AndStaysFalse(es[1..], c, d,
                      if r.truth == Unknown then missing + r.missing else missing,
                      if s.truth == Unknown then other + s.missing else other);
      }
    }
  }

  lemma {:induction false} AndCertificate(es: seq<Boolean>, c: Context, d: Context, missing: seq<Reference>)
    requires forall i :: 0 <= i < |es| ==> EvaluableBoolean(es[i])
    requires Extends(c, d)
    requires EvalAnd(es, c, missing).Success? && Avoids(d, EvalAnd(es, c, missing).value.missing)
    ensures EvalAnd(es, d, missing) == EvalAnd(es, c, missing)
    decreases es, 1
  {
    AndAccounts(es, c, missing);
    if EvalAnd(es, c, missing).value.truth == False {
      AndStaysFalse(es, c, d, missing, missing);
    } else if es != [] {
      EvaluationAccounts(es[0], c);
      var r := EvalBoolean(es[0], c).value;
      var next := if r.truth == Unknown then missing + r.missing else missing;
      AndKeepsMissing(es[1..], c, next);
      AvoidsExtension(d, missing, r.missing, next, EvalAnd(es, c, missing).value.missing);
      MissingIsCertificate(es[0], c, d);
      AndCertificate(es[1..], c, d, next);
    }
  }

  /** What was missing before a child stays missing unless the conjunction turns out false. */
  lemma {:induction false} AndKeepsMissing(es: seq<Boolean>, c: Context, missing: seq<Reference>)
    requires EvalAnd(es, c, missing).Success? && EvalAnd(es, c, missing).value.truth != False
    ensures missing <= EvalAnd(es, c, missing).value.missing
    decreases es, 0
  {
    if es != [] {
      var r := EvalBoolean(es[0], c).value;
      AndKeepsMissing(es[1..], c, if r.truth == Unknown then missing + r.missing else missing);
    }
  }

  lemma {:induction false} OrStaysTrue(
    es: seq<Boolean>, c: Context, d: Context, missing: seq<Reference>, other: seq<Reference>)
    requires forall i :: 0 <= i < |es| ==> EvaluableBoolean(es[i])
    requires Extends(c, d)
    requires EvalOr(es, c, missing).Success? && EvalOr(es, c, missing).value.truth == True
    ensures EvalOr(es, d, other) == Success(Evaluation(True, []))
    decreases es, 0
  {
    if es != [] {
      EvaluationAccounts(es[0], c);
      EvaluationAccounts(es[0], d);
      var r, s := EvalBoolean(es[0], c).value, EvalBoolean(es[0], d).value;
      if r.truth == True {
        MissingIsCertificate(es[0], c, d);
      } else if s.truth != True {
        OrStaysTrue(es[1..], c, d,
                    if r.truth == Unknown then missing + r.missing else missing,
                    if s.truth == Unknown then other + s.missing else other);
      }
    }
  }

  lemma {:induction false} OrCertificate(es: seq<Boolean>, c: Context, d: Context, missing: seq<Reference>)
    requires forall i :: 0 <= i < |es| ==> EvaluableBoolean(es[i])
    requires Extends(c, d)
    requires EvalOr(es, c, missing).Success? && Avoids(d, EvalOr(es, c, missing).value.missing)
    ensures EvalOr(es, d, missing) == EvalOr(es, c, missing)
    decreases es, 1
  {
    OrAccounts(es, c, missing);
    if EvalOr(es, c, missing).value.truth == True {
      OrStaysTrue(es, c, d, missing, missing);
    } else if es != [] {
      EvaluationAccounts(es[0], c);
      var r := EvalBoolean(es[0], c).value;
      var next := if r.truth == Unknown then missing + r.missing else missing;
      OrKeepsMissing(es[1..], c, next);
      AvoidsExtension(d, missing, r.missing, next, EvalOr(es, c, missing).value.missing);
      MissingIsCertificate(es[0], c, d);
      OrCertificate(es[1..], c, d, next);
    }
  }

  lemma {:induction false} OrKeepsMissing(es: seq<Boolean>, c: Context, missing: seq<Reference>)
    requires EvalOr(es, c, missing).Success? && EvalOr(es, c, missing).value.truth != True
    ensures missing <= EvalOr(es, c, missing).value.missing
    decreases es, 0
  {
    if es != [] {
      var r := EvalBoolean(es[0], c).value;
      OrKeepsMissing(es[1..], c, if r.truth == Unknown then missing + r.missing else missing);
    }
  }

  /** A membership test that found an equal item keeps its answer: later bindings can only find an
      equal item sooner. */
  lemma {:induction false} ItemsStayMatched(
    l: Scalar, items: seq<Value>, c: Context, d: Context,
    missing: seq<Reference>, other: seq<Reference>, negated: bool)
    requires forall i :: 0 <= i < |items| ==> EvaluableValue(items[i])
    requires Extends(c, d)
    requires EvalItems(l, items, c, missing, negated) == Success(Evaluation(TruthOf(!negated), []))
    ensures EvalItems(l, items, d, other, negated) == Success(Evaluation(TruthOf(!negated), []))
    decreases items, 0
  {
    if items != [] {
      ValueAccounts(items[0], c);
      ValueAccounts(items[0], d);
      var r, s := EvalValue(items[0], c).value, EvalValue(items[0], d).value;
      if r.Known? {
        ValueCertificate(items[0], c, d);
      }
      if !(r.Known? && CompareRuntime(l, r.value, Eq).value == True)
         && !(s.Known? && CompareRuntime(l, s.value, Eq).value == True)
      {
        assert EvalItems(l, items, c, missing, negated)
            == EvalItems(l, items[1..], c, if r.Unresolved? then missing + r.missing else missing, negated);
        ItemsStayMatched(l, items[1..], c, d,
                         if r.Unresolved? then missing + r.missing else missing,
                         if s.Unresolved? then other + s.missing else other, negated);
      }
    }
  }

  lemma {:induction false} ItemsCertificate(
    l: Scalar, items: seq<Value>, c: Context, d: Context, missing: seq<Reference>, negated: bool)
    requires forall i :: 0 <= i < |items| ==> EvaluableValue(items[i])
    requires Extends(c, d)
    requires EvalItems(l, items, c, missing, negated).Success?
    requires Avoids(d, EvalItems(l, items, c, missing, negated).value.missing)
    ensures EvalItems(l, items, d, missing, negated) == EvalItems(l, items, c, missing, negated)
    decreases items, 1
  {
    if EvalItems(l, items, c, missing, negated) == Success(Evaluation(TruthOf(!negated), [])) {
      ItemsStayMatched(l, items, c, d, missing, missing, negated);
    } else if items != [] {
      ValueAccounts(items[0], c);
      var r := EvalValue(items[0], c).value;
      var next := if r.Unresolved? then missing + r.missing else missing;
      assert EvalItems(l, items, c, missing, negated) == EvalItems(l, items[1..], c, next, negated);
      ItemsKeepMissing(l, items[1..], c, next, negated);
      AvoidsExtension(d, missing, MissingOf(r), next, EvalItems(l, items, c, missing, negated).value.missing);
      ValueCertificate(items[0], c, d);
      ItemsCertificate(l, items[1..], c, d, next, negated);
    }
  }

  lemma {:induction false} ItemsKeepMissing(
    l: Scalar, items: seq<Value>, c: Context, missing: seq<Reference>, negated: bool)
    requires EvalItems(l, items, c, missing, negated).Success?
    requires EvalItems(l, items, c, missing, negated) != Success(Evaluation(TruthOf(!negated), []))
    ensures missing <= EvalItems(l, items, c, missing, negated).value.missing
    decreases items, 0
  {
    if items != [] {
      var r := EvalValue(items[0], c).value;
      ItemsKeepMissing(l, items[1..], c, if r.Unresolved? then missing + r.missing else missing, negated);
    }
  }

  lemma {:induction false} ValueCertificate(v: Value, c: Context, d: Context)
    requires EvaluableValue(v) && Extends(c, d)
    requires EvalValue(v, c).Success? && Avoids(d, MissingOf(EvalValue(v, c).value))
    ensures EvalValue(v, d) == EvalValue(v, c)
    decreases v, 1
  {
    match v.kind
    case Column => UnboundColumn(v.nodeID, c, d);
    case ColumnCopy => UnboundColumn(v.nodeID, c, d);
    case Parameter =>
      if v.parameter !in c.parameters { assert !Bound(d, [Reference(0, v.parameter)][0]); }
    case LiteralValue =>
    case Conditional =>
      CasesAccount(v.cases, c);
      CasesCertificate(v.cases, c, d);
      if EvalCases(v.cases, c).value.None? {
        ValueAccounts(v.otherwise.value, c);
        ValueCertificate(v.otherwise.value, c, d);
      }
  }

  lemma UnboundColumn(nodeID: int, c: Context, d: Context)
    requires nodeID > 0 && Extends(c, d)
    requires Avoids(d, MissingOf(LookupColumn(nodeID, c)))
    ensures LookupColumn(nodeID, d) == LookupColumn(nodeID, c)
  {
    if nodeID !in c.columns { assert !Bound(d, [Reference(nodeID, "")][0]); }
  }

  lemma {:induction false} CasesCertificate(cases: seq<CaseBranch>, c: Context, d: Context)
    requires forall i :: 0 <= i < |cases| ==> EvaluableCase(cases[i])
    requires Extends(c, d) && EvalCases(cases, c).Success?
    requires EvalCases(cases, c).value.Some? ==> Avoids(d, MissingOf(EvalCases(cases, c).value.value))
    ensures EvalCases(cases, d) == EvalCases(cases, c)
    decreases cases, 0
  {
    if cases != [] {
      assert cases[0].when < cases[0] && cases[0].then_ < cases[0];
      assert EvaluableCase(cases[0]);
      EvaluationAccounts(cases[0].when, c);
      MissingIsCertificate(cases[0].when, c, d);
      match EvalBoolean(cases[0].when, c).value.truth
      case Unknown =>
      case True =>
        ValueAccounts(cases[0].then_, c);
        ValueCertificate(cases[0].then_, c, d);
      case False => CasesCertificate(cases[1..], c, d);
    }
  }

  /** A definite answer is final: no amount of further context changes it. */
  lemma DefiniteAnswersAreFinal(e: Boolean, c: Context, d: Context)
    requires EvaluableBoolean(e) && Extends(c, d)
    requires EvalBoolean(e, c).Success? && EvalBoolean(e, c).value.truth != Unknown
    ensures EvalBoolean(e, d) == EvalBoolean(e, c)
  {
    EvaluationAccounts(e, c);
    MissingIsCertificate(e, c, d);
  }

  // ----- rewrites --------------------------------------------------------------------------------

  function NotOf(e: Boolean): Boolean {
    Boolean(Not, NoOperator, [], Some(e), None, None, [])
  }

  function AndOf(es: seq<Boolean>): Boolean {
    Boolean(And, NoOperator, es, None, None, None, [])
  }

  function OrOf(es: seq<Boolean>): Boolean {
    Boolean(Or, NoOperator, es, None, None, None, [])
  }

  function EqualsOf(l: Value, r: Value): Boolean {
    Boolean(Compare, Eq, [], None, Some(l), Some(r), [])
  }

  function MembershipOf(kind: BooleanKind, l: Value, vs: seq<Value>): Boolean {
    Boolean(kind, NoOperator, [], None, Some(l), None, vs)
  }

  function NotEach(es: seq<Boolean>): seq<Boolean> {
    seq(|es|, i requires 0 <= i < |es| => NotOf(es[i]))
  }

  function EqualsEach(l: Value, vs: seq<Value>): seq<Boolean> {
    seq(|vs|, i requires 0 <= i < |vs| => EqualsOf(l, vs[i]))
  }

  function NegateOutcome(r: Outcome<Evaluation>): Outcome<Evaluation> {
    if r.Failure? then r else Success(Negate(r.value))
  }

  lemma EvalNot(e: Boolean, c: Context)
    ensures EvalBoolean(NotOf(e), c) == NegateOutcome(EvalBoolean(e, c))
  {
  }

  /** De Morgan, in truth, missing references and failures, for every list of operands. */
  lemma DeMorgan(es: seq<Boolean>, c: Context)
    ensures EvalBoolean(NotOf(AndOf(es)), c) == EvalBoolean(OrOf(NotEach(es)), c)
    ensures EvalBoolean(NotOf(OrOf(es)), c) == EvalBoolean(AndOf(NotEach(es)), c)
  {
    DeMorganLoop(es, c, []);
    EvalNot(AndOf(es), c);
    EvalNot(OrOf(es), c);
  }

  lemma {:induction false} DeMorganLoop(es: seq<Boolean>, c: Context, missing: seq<Reference>)
    ensures NegateOutcome(EvalAnd(es, c, missing)) == EvalOr(NotEach(es), c, missing)
    ensures NegateOutcome(EvalOr(es, c, missing)) == EvalAnd(NotEach(es), c, missing)
  {
    if es != [] {
      EvalNot(es[0], c);
      assert NotEach(es)[1..] == NotEach(es[1..]);
      var r := EvalBoolean(es[0], c);
      if r.Success? {
        DeMorganLoop(es[1..], c, if r.value.truth == Unknown then missing + r.value.missing else missing);
      }
    }
  }

  lemma DoubleNegation(e: Boolean, c: Context)
    ensures EvalBoolean(NotOf(NotOf(e)), c) == EvalBoolean(e, c)
  {
    EvalNot(NotOf(e), c);
    EvalNot(e, c);
  }

  lemma NotInIsNegatedIn(l: Value, vs: seq<Value>, c: Context)
    ensures EvalBoolean(MembershipOf(NotIn, l, vs), c) == EvalBoolean(NotOf(MembershipOf(In, l, vs)), c)
  {
    EvalNot(MembershipOf(In, l, vs), c);
    var left := EvalValue(l, c);
    if left.Success? && left.value.Known? {
      NegatedItems(left.value.value, vs, c, []);
    }
  }

  lemma {:induction false} NegatedItems(l: Scalar, vs: seq<Value>, c: Context, missing: seq<Reference>)
    ensures EvalItems(l, vs, c, missing, true) == NegateOutcome(EvalItems(l, vs, c, missing, false))
  {
    if vs != [] {
      var item := EvalValue(vs[0], c);
      if item.Success? {
        NegatedItems(l, vs[1..], c, if item.value.Unresolved? then missing + item.value.missing else missing);
      }
    }
  }

  /** Membership is a disjunction of equalities as soon as the left side resolves. */
  lemma InIsDisjunction(l: Value, vs: seq<Value>, c: Context)
    requires EvalValue(l, c).Success? && EvalValue(l, c).value.Known?
    ensures EvalBoolean(MembershipOf(In, l, vs), c) == EvalBoolean(OrOf(EqualsEach(l, vs)), c)
  {
    ItemsAreDisjuncts(l, vs, c, []);
  }

  lemma {:induction false} ItemsAreDisjuncts(l: Value, vs: seq<Value>, c: Context, missing: seq<Reference>)
    requires EvalValue(l, c).Success? && EvalValue(l, c).value.Known?
    ensures EvalItems(EvalValue(l, c).value.value, vs, c, missing, false) == EvalOr(EqualsEach(l, vs), c, missing)
  {
    if vs != [] {
      assert EqualsEach(l, vs)[1..] == EqualsEach(l, vs[1..]);
      var item := EvalValue(vs[0], c);
      assert EvalBoolean(EqualsOf(l, vs[0]), c)
          == if item.Failure? then Failure(item.error) else EvalCompare(EvalValue(l, c).value, item.value, Eq);
      if item.Success? {
        if item.value.Unresolved? {
          assert [] + item.value.missing == item.value.missing;
          ItemsAreDisjuncts(l, vs[1..], c, missing + item.value.missing);
        } else {
          assert missing + [] == missing;
          ItemsAreDisjuncts(l, vs[1..], c, missing);
        }
      }
    }
  }
}
