/** How a traversal evaluates one effective edge, with its per-version cache. */
module EdgeEvaluation {
  import opened Wrappers
  import opened Conditions
  import opened ConditionTheorems
  import opened Validation
  import opened Evaluator
  import opened References
  import opened Ordering
  import opened Text

  /** One row of `effective_edges`. `rowBytes` is what loading the row charges to the load budget. */
  datatype Edge = Edge(
    relationID: int, versionID: int, source: int, target: int, content: Content, rowBytes: nat)

  /** The evaluations that are present, guard first, then selector, then transform. */
  function PartEvaluations(content: Content, c: Context): Outcome<seq<Evaluation>> {
    var guard :- OptionalEvaluation(content.guard, c);
    var selector :- OptionalEvaluation(content.selector, c);
    var transform :- TransformEvaluation(content.transform, c);
    Success(guard + selector + transform)
  }

  /** A transform without a kind is not evaluated. */
  function TransformEvaluation(v: Value, c: Context): Outcome<seq<Evaluation>> {
    if v.kind == OtherValue("") then Success([])
    else
      var r :- EvaluatedValue(v, c);
      Success([r])
  }

  function OptionalEvaluation(e: Option<Boolean>, c: Context): Outcome<seq<Evaluation>> {
    if e.None? then Success([])
    else
      var r :- EvaluatedBoolean(e.value, c);
      Success([r])
  }

  /** Any false part makes the edge false; otherwise everything missing is collected. */
  function Combine(parts: seq<Evaluation>, missing: seq<Reference>): Evaluation {
    if parts == [] then
      if missing == [] then Evaluation(True, []) else Evaluation(Unknown, Normal(missing))
    else if parts[0].truth == False then Evaluation(False, [])
    else Combine(parts[1..], if parts[0].truth == Unknown then missing + parts[0].missing else missing)
  }

  function EvalEdge(content: Content, c: Context): Outcome<Evaluation> {
    var parts :- PartEvaluations(content, c);
    Success(Combine(parts, []))
  }

  method EvaluateParts(content: Content, c: Context) returns (r: Outcome<seq<Evaluation>>)
    ensures r == PartEvaluations(content, c)
  {
    var guard: seq<Evaluation> := [];
    if content.guard.Some? {
      var evaluation :- EvaluateBooleanPrepared(content.guard.value, c);
      guard := [evaluation];
    }
    var selector: seq<Evaluation> := [];
    if content.selector.Some? {
      var evaluation :- EvaluateBooleanPrepared(content.selector.value, c);
      selector := [evaluation];
    }
    var transform: seq<Evaluation> := [];
    if content.transform.kind != OtherValue("") {
      var evaluation :- EvaluateValuePrepared(content.transform, c);
      transform := [evaluation];
    }
    return Success(guard + selector + transform);
  }

  method EvaluateEdge(edge: Edge, c: Context) returns (r: Outcome<Evaluation>)
    ensures r == EvalEdge(edge.content, c)
  {
    var evaluations :- EvaluateParts(edge.content, c);
    var missing: seq<Reference> := [];
    for i := 0 to |evaluations|
      invariant Combine(evaluations[i..], missing) == Combine(evaluations, [])
    {
      assert evaluations[i..][1..] == evaluations[i + 1..];
      if evaluations[i].truth == False { return Success(Evaluation(False, [])); }
      if evaluations[i].truth == Unknown { missing := missing + evaluations[i].missing; }
    }
    if |missing| == 0 { return Success(Evaluation(True, [])); }
    var kept := NormalizeMissing(missing);
    return Success(Evaluation(Unknown, kept));
  }

  // ----- the certificate, for a whole edge -------------------------------------------------------

  predicate Usable(content: Content, c: Context) {
    EvalEdge(content, c).Success? && EvalEdge(content, c).value.truth != False
  }

  ghost predicate PartStable(p: Evaluation, q: Evaluation, d: Context) {
    && Settled(p)
    && (Avoids(d, p.missing) ==> q == p)
  }

  ghost predicate PartsStable(ps: seq<Evaluation>, qs: seq<Evaluation>, d: Context) {
    |ps| == |qs| && forall i :: 0 <= i < |ps| ==> PartStable(ps[i], qs[i], d)
  }

  lemma StableConcatenation(
    ps: seq<Evaluation>, qs: seq<Evaluation>, rs: seq<Evaluation>, ss: seq<Evaluation>, d: Context)
    requires PartsStable(ps, qs, d) && PartsStable(rs, ss, d)
    ensures PartsStable(ps + rs, qs + ss, d)
  {
  }

  lemma StableTail(ps: seq<Evaluation>, qs: seq<Evaluation>, d: Context)
    requires PartsStable(ps, qs, d) && ps != []
    ensures PartStable(ps[0], qs[0], d) && PartsStable(ps[1..], qs[1..], d)
  {
  }

  lemma OptionalIsStable(e: Option<Boolean>, c: Context, d: Context)
    requires OptionalEvaluation(e, c).Success?
    ensures OptionalEvaluation(e, d).Success?
    ensures Extends(c, d) ==> PartsStable(OptionalEvaluation(e, c).value, OptionalEvaluation(e, d).value, d)
  {
    if e.Some? { PreparedCertificate(e.value, c, d); }
  }

  lemma TransformIsStable(v: Value, c: Context, d: Context)
    requires TransformEvaluation(v, c).Success?
    ensures TransformEvaluation(v, d).Success?
    ensures Extends(c, d) ==> PartsStable(TransformEvaluation(v, c).value, TransformEvaluation(v, d).value, d)
  {
    if v.kind != OtherValue("") { PreparedValueCertificate(v, c, d); }
  }

  lemma PartsAreStable(content: Content, c: Context, d: Context)
    requires PartEvaluations(content, c).Success?
    ensures PartEvaluations(content, d).Success?
    ensures Extends(c, d) ==>
      PartsStable(PartEvaluations(content, c).value, PartEvaluations(content, d).value, d)
  {
    OptionalIsStable(content.guard, c, d);
    OptionalIsStable(content.selector, c, d);
    TransformIsStable(content.transform, c, d);
    if Extends(c, d) {
      var g, h := OptionalEvaluation(content.guard, c).value, OptionalEvaluation(content.guard, d).value;
      var s, t := OptionalEvaluation(content.selector, c).value, OptionalEvaluation(content.selector, d).value;
      StableConcatenation(g, h, s, t, d);
      StableConcatenation(g + s, h + t, TransformEvaluation(content.transform, c).value,
                          TransformEvaluation(content.transform, d).value, d);
    }
  }

  /** Whether an edge evaluates at all does not depend on the context. */
  lemma EvaluabilityIsContextFree(content: Content, c: Context, d: Context)
    ensures EvalEdge(content, c).Success? <==> EvalEdge(content, d).Success?
  {
    if EvalEdge(content, c).Success? { PartsAreStable(content, c, d); }
    if EvalEdge(content, d).Success? { PartsAreStable(content, d, c); }
  }

  lemma {:induction false} CombineFalse(
    ps: seq<Evaluation>, qs: seq<Evaluation>, d: Context, m: seq<Reference>, n: seq<Reference>)
    requires PartsStable(ps, qs, d) && Combine(ps, m).truth == False
    ensures Combine(qs, n) == Evaluation(False, [])
  {
    if ps == [] {
    } else if ps[0].truth == False {
      assert PartStable(ps[0], qs[0], d);
    } else if qs[0].truth != False {
      StableTail(ps, qs, d);
      CombineFalse(ps[1..], qs[1..], d,
                   if ps[0].truth == Unknown then m + ps[0].missing else m,
                   if qs[0].truth == Unknown then n + qs[0].missing else n);
    }
  }

  /** What a not-false combination has collected is exactly what its parts are missing. */
  lemma {:induction false} CombineMissing(ps: seq<Evaluation>, m: seq<Reference>)
    requires Combine(ps, m).truth != False
    ensures forall r :: r in m ==> r in Combine(ps, m).missing
    ensures forall i :: 0 <= i < |ps| ==>
      ps[i].truth == Unknown ==> forall r :: r in ps[i].missing ==> r in Combine(ps, m).missing
    ensures Combine(ps, m).truth == True <==> Combine(ps, m).missing == []
  {
    NormalElements(m);
    if ps != [] {
      var next := if ps[0].truth == Unknown then m + ps[0].missing else m;
      CombineMissing(ps[1..], next);
      forall i | 0 <= i < |ps| && ps[i].truth == Unknown
        ensures forall r :: r in ps[i].missing ==> r in Combine(ps, m).missing
      {
        if i > 0 { assert ps[1..][i - 1] == ps[i]; }
      }
    }
  }

  lemma {:induction false} CombineSame(
    ps: seq<Evaluation>, qs: seq<Evaluation>, d: Context, m: seq<Reference>)
    requires PartsStable(ps, qs, d) && Combine(ps, m).truth != False
    requires Avoids(d, Combine(ps, m).missing)
    ensures Combine(qs, m) == Combine(ps, m)
  {
    if ps != [] {
      CombineMissing(ps, m);
      StableTail(ps, qs, d);
      forall i | 0 <= i < |ps[0].missing| ensures !Bound(d, ps[0].missing[i]) {
        assert ps[0].missing[i] in ps[0].missing;
        assert ps[0].missing[i] in Combine(ps, m).missing;
      }
      CombineSame(ps[1..], qs[1..], d, if ps[0].truth == Unknown then m + ps[0].missing else m);
    }
  }

  /** More context never revives a false edge and never takes back a true one; an unknown edge keeps its
      evaluation for as long as nothing it is missing is supplied. */
  lemma EdgeCertificate(content: Content, c: Context, d: Context)
    requires Extends(c, d) && EvalEdge(content, c).Success?
    ensures EvalEdge(content, d).Success?
    ensures var r := EvalEdge(content, c).value;
      && (r.truth != Unknown ==> r.missing == [] && EvalEdge(content, d) == EvalEdge(content, c))
      && (Avoids(d, r.missing) ==> EvalEdge(content, d) == EvalEdge(content, c))
  {
    PartsAreStable(content, c, d);
    var ps, qs := PartEvaluations(content, c).value, PartEvaluations(content, d).value;
    if Combine(ps, []).truth == False {
      CombineFalse(ps, qs, d, [], []);
      CombineFalseIsBare(ps, []);
    } else {
      CombineMissing(ps, []);
      if Avoids(d, Combine(ps, []).missing) {
        CombineSame(ps, qs, d, []);
      }
    }
  }

  lemma CombineFalseIsBare(ps: seq<Evaluation>, m: seq<Reference>)
    requires Combine(ps, m).truth == False
    ensures Combine(ps, m) == Evaluation(False, [])
  {
  }

  // ----- the per-version cache -------------------------------------------------------------------

  datatype CacheKey = CacheKey(relationID: int, versionID: int)

  /** Rows with the same relation and version carry the same content: versions are immutable rows. */
  ghost predicate VersionsDetermineContent(rows: seq<Edge>) {
    forall i, j :: 0 <= i < |rows| && 0 <= j < |rows|
      && rows[i].relationID == rows[j].relationID && rows[i].versionID == rows[j].versionID
      ==> rows[i].content == rows[j].content
  }

  class EdgeEvaluator {
    const context: Context
    ghost const rows: seq<Edge>
    var cache: map<CacheKey, Evaluation>

    /** Every cached evaluation is the evaluation of every row under that key. */
    ghost predicate Valid()
      reads this
    {
      && VersionsDetermineContent(rows)
      && forall k, e :: k in cache && e in rows && CacheKey(e.relationID, e.versionID) == k ==>
        EvalEdge(e.content, context) == Success(cache[k])
    }

    constructor (context: Context, ghost rows: seq<Edge>)
      requires VersionsDetermineContent(rows)
      ensures Valid() && this.context == context && this.rows == rows
    {
      this.context := context;
      this.rows := rows;
      cache := map[];
    }

    /** The cache is invisible: the answer is the evaluation of this edge. */
    method Evaluate(edge: Edge) returns (r: Outcome<Evaluation>)
      requires Valid() && edge in rows
      modifies this
      ensures Valid()
      ensures r == EvalEdge(edge.content, context)
    {
      var key := CacheKey(edge.relationID, edge.versionID);
      var cacheable := key.relationID > 0 && key.versionID > 0;
      if cacheable && key in cache { return Success(cache[key]); }
      var evaluation :- EvaluateEdge(edge, context);
      if cacheable { cache := cache[key := evaluation]; }
      return Success(evaluation);
    }
  }
}
