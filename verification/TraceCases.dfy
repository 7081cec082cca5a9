/** Two queries that show what the mark on a result does not say: that something is missing, or that the other traversal
    would set it too. */
module TraceCases {
  import opened Wrappers
  import opened Conditions
  import opened EdgeEvaluation
  import opened Evaluator
  import References
  import V = Validation
  import opened ConditionTheorems
  import opened KleeneLogic
  import opened Graph
  import opened GraphRepository
  import opened LayeredTrace
  import opened SearchSpace
  import opened RecursiveTrace
  import opened Trace
  import opened WalkCost

  // ----- search spaces that fit ------------------------------------------------------------------

  /** These are all the simple paths, and these are all that are expanded, layer by layer. */
  ghost predicate Enumerated(q: Query, limits: Limits, paths: seq<Path>, layers: seq<seq<Path>>) {
    && Distinct(paths) && (forall p :: SimplePath(q, p) ==> p in paths)
    && ExpandableLayers(q, layers)
    && forall p: Path :: Extensible(q, |p.steps|, p) && |p.steps| < limits.maxDepth ==>
         |p.steps| < |layers| && p in layers[|p.steps|]
  }

  lemma EnumeratedFits(q: Query, limits: Limits, sizeOf: CacheKey -> nat, paths: seq<Path>, layers: seq<seq<Path>>)
    requires Enumerated(q, limits, paths, layers)
    requires |NodesOf(q)| <= limits.maxNodes && PathsFit(limits, sizeOf, paths) && |paths| <= MAXIMUM_FRONTIER_STATES
    requires TotalDegree(q, layers) < MAXIMUM_EDGE_EXPANSIONS && TotalLoad(q, layers) < MAXIMUM_LOADED_EDGE_BYTES
    ensures !Exceeded(q, limits, sizeOf)
  {
    EnumeratedIsNotTooMuch(q, limits, sizeOf, paths, layers);
    EnumeratedIsNotCostly(q, limits, paths, layers);
  }

  lemma EnumeratedIsNotTooMuch(q: Query, limits: Limits, sizeOf: CacheKey -> nat, paths: seq<Path>, layers: seq<seq<Path>>)
    requires Enumerated(q, limits, paths, layers)
    requires |NodesOf(q)| <= limits.maxNodes && PathsFit(limits, sizeOf, paths) && |paths| <= MAXIMUM_FRONTIER_STATES
    ensures !TooMuch(q, limits, sizeOf)
  {
    hide SimplePath, ExpandableLayers;
    SubsetCardinality(ReachedWithin(q, limits.maxDepth), NodesOf(q));
    var all := set p | p in paths;
    ElementsAtMost(paths);
    forall part ensures !Bulky(q, limits, sizeOf, part) {
      if PathsSound(q, limits.maxDepth, part) { PartOfFitting(limits, sizeOf, paths, part); }
    }
    forall s ensures !Crowded(q, limits.maxDepth, s) {
      if SimpleSet(q, limits.maxDepth, s) { SubsetCardinality(s, all); }
    }
    forall d, layer ensures !Wide(q, limits, d, layer) {
      if LayerOf(q, d, layer) {
        DistinctCardinality(layer);
        assert forall p :: p in layer ==> Extensible(q, d, p);
        SubsetCardinality((set p | p in layer), all);
      }
    }
  }

  lemma EnumeratedIsNotCostly(q: Query, limits: Limits, paths: seq<Path>, layers: seq<seq<Path>>)
    requires Enumerated(q, limits, paths, layers)
    requires TotalDegree(q, layers) < MAXIMUM_EDGE_EXPANSIONS && TotalLoad(q, layers) < MAXIMUM_LOADED_EDGE_BYTES
    ensures !TooCostly(q, limits)
  {
    hide SimplePath, TotalDegree, TotalLoad;
    forall part | |part| <= limits.maxDepth && ExpandableLayers(q, part) ensures !Excessive(q, part) {
      forall i | 0 <= i < |part| ensures WithinLayer(part[i], if i < |layers| then layers[i] else []) {
        assert LayerOf(q, i, part[i]);
        if i < |layers| { assert LayerOf(q, i, layers[i]); }
        forall p | p in part[i] ensures i < |layers| && p in layers[i] {
          assert Extensible(q, i, p);
        }
      }
      CostsOfPart(q, part, layers);
      if part != [] { CostsOfPrefix(q, part, |part| - 1); }
    }
  }

  lemma NodeCount(q: Query)
    ensures |NodesOf(q)| <= |q.rows| + 1
  {
    NextNodeCount(q.rows, q.upstream);
  }

  lemma {:induction false} NextNodeCount(rows: seq<Edge>, upstream: bool)
    ensures |set e | e in rows :: NextNode(e, upstream)| <= |rows|
  {
    if rows != [] {
      var front, last := rows[..|rows| - 1], rows[|rows| - 1];
      NextNodeCount(front, upstream);
      assert (set e | e in rows :: NextNode(e, upstream)) == (set e | e in front :: NextNode(e, upstream)) + {NextNode(last, upstream)};
    }
  }

  // ----- rules -----------------------------------------------------------------------------------

  const Always := References.Content(None, None, NumberOf(1.0))

  /** Guarded by `1 = 2`. */
  const Never := References.Content(Some(EqualsOf(NumberOf(1.0), NumberOf(2.0))), None, NumberOf(1.0))

  lemma RulesEvaluate(c: Context)
    ensures EvalEdge(Always, c) == Success(Evaluation(True, []))
    ensures EvalEdge(Never, c) == Success(Evaluation(False, []))
  {
    var one, two := NumberOf(1.0), NumberOf(2.0);
    LiteralsAccepted();
    EqualityAccepted(one, two);
    InstancesEvaluate(c);
    hide V.AcceptedBoolean, EvalBoolean, EvalValue, EqualsOf;
    assert EvaluatedValue(one, c) == Success(Evaluation(True, [])) by { assert V.AcceptedValue(one, V.DefaultLimits); }
    var none: seq<Evaluation> := [];
    assert none + none + [Evaluation(True, [])] == [Evaluation(True, [])];
    assert PartEvaluations(Always, c) == Success([Evaluation(True, [])]);
    assert [Evaluation(True, [])][1..] == [];
    assert EvaluatedBoolean(EqualsOf(one, two), c).value.truth == False by {
      assert V.AcceptedBoolean(EqualsOf(one, two), V.DefaultLimits) by { EqualityPasses(one, two); }
    }
  }

  lemma EqualityPasses(l: Value, r: Value)
    requires V.ShapeBoolean(EqualsOf(l, r), V.DefaultLimits)
    requires V.DepthBoolean(EqualsOf(l, r)) == 2 && V.SizeBoolean(EqualsOf(l, r)) == 3
    ensures V.AcceptedBoolean(EqualsOf(l, r), V.DefaultLimits)
  {
  }

  // ----- whole, and marked -----------------------------------------------------------------------

  /** One edge, from 1 to 2, asked for one step deep. */
  const Arrow := Edge(10, 11, 1, 2, Always, 100)
  const OneEdge := Query([Arrow], false, 1, 0, EmptyContext)
  const OneStep := Limits(1, 1000, 1000)
  const ArrowPath := Path([1, 2], [Step(Arrow, Evaluation(True, []))])

  lemma OneEdgePaths()
    ensures SimplePath(OneEdge, ArrowPath)
    ensures forall p :: SimplePath(OneEdge, p) ==> p == Root(OneEdge) || p == ArrowPath
  {
    RulesEvaluate(EmptyContext);
    hide EvalEdge;
    assert StepJoins(OneEdge, ArrowPath.steps[0], 1, 2);
    forall p | SimplePath(OneEdge, p) ensures p == Root(OneEdge) || p == ArrowPath {
      assert |p.steps| > 0 ==> StepJoins(OneEdge, p.steps[0], p.nodes[0], p.nodes[1]);
      assert |p.steps| > 1 ==> StepJoins(OneEdge, p.steps[1], p.nodes[1], p.nodes[2]);
      assert |p.steps| <= 1;
      assert p.nodes == if |p.steps| == 0 then [1] else [1, 2];
    }
  }

  /** The one path is at the depth limit and would be expanded, although no edge leaves its end. */
  lemma OneEdgeIsDeepAndWhole(sizeOf: CacheKey -> nat)
    requires sizeOf(CacheKey(10, 11)) <= 1000000
    ensures Deep(OneEdge, OneStep) && !Exceeded(OneEdge, OneStep, sizeOf) && NothingBeyond(OneEdge, 1)
    ensures !SomeEdgeFails(OneEdge) && UniqueRelations(OneEdge.rows)
  {
    OneEdgePaths();
    RulesEvaluate(EmptyContext);
    assert TooDeep(OneEdge, OneStep, ArrowPath);
    OneEdgeFits(sizeOf);
    hide SimplePath, EvalEdge, Exceeded;
    forall n | n in ReachedNodes(OneEdge) ensures n in ReachedWithin(OneEdge, 1) {
      var p :| Reaches(OneEdge, p, n);
    }
    assert ReachedWithin(OneEdge, 1) == ReachedNodes(OneEdge);
    forall p, s ensures !Closes(OneEdge, p, s) {}
  }

  lemma OneEdgeFits(sizeOf: CacheKey -> nat)
    requires sizeOf(CacheKey(10, 11)) <= 1000000
    ensures !Exceeded(OneEdge, OneStep, sizeOf)
  {
    OneEdgePaths();
    RootIsSimple(OneEdge);
    var paths, layers := [Root(OneEdge), ArrowPath], [[Root(OneEdge)]];
    assert PathsFit(OneStep, sizeOf, paths) by { OneEdgeWeighs(sizeOf); }
    NodeCount(OneEdge);
    hide SimplePath, PathsFit;
    assert LayerOf(OneEdge, 0, layers[0]);
    OneEdgeCosts();
    EnumeratedFits(OneEdge, OneStep, sizeOf, paths, layers);
  }

  lemma OneEdgeWeighs(sizeOf: CacheKey -> nat)
    requires sizeOf(CacheKey(10, 11)) <= 1000000
    ensures PathsFit(OneStep, sizeOf, [Root(OneEdge), ArrowPath])
  {
    var root := Root(OneEdge);
    assert [root, ArrowPath] == [] + [root] + [ArrowPath];
    TotalStepsAppend([], root);
    TotalStepsAppend([root], ArrowPath);
    TotalBytesAppend(sizeOf, [], root);
    TotalBytesAppend(sizeOf, [root], ArrowPath);
    assert ArrowPath.steps[..0] == [];
    assert StepBytes(sizeOf, ArrowPath.steps) == StepBytes(sizeOf, []) + sizeOf(CacheKey(10, 11)) + 32;
  }

  lemma OneEdgeCosts()
    ensures TotalDegree(OneEdge, [[Root(OneEdge)]]) <= 1 && TotalLoad(OneEdge, [[Root(OneEdge)]]) <= 100
  {
    LayerCosts(OneEdge, [Arrow]);
  }

  /** What the first layer costs, when these are the edges out of the start. */
  lemma LayerCosts(q: Query, out: seq<Edge>)
    requires Distinct(q.rows) && (forall e :: e in out <==> e in q.rows && CurrentNode(e, q.upstream) == q.start)
    requires |out| == 1
    ensures TotalDegree(q, [[Root(q)]]) == 1 && TotalLoad(q, [[Root(q)]]) == out[0].rowBytes
  {
    var layer := [Root(q)];
    assert EndNodes(layer) == {q.start};
    EdgesFromMembers(q.rows, q.upstream, q.start);
    EdgesFromDistinct(q.rows, q.upstream, q.start);
    MatchingMembers(q.rows, q.upstream, {q.start});
    MatchingDistinct(q.rows, q.upstream, {q.start});
    OnlyMember(EdgesFrom(q.rows, q.upstream, q.start), out[0]);
    OnlyMember(Matching(q.rows, q.upstream, {q.start}), out[0]);
    TotalAppend(DegreeWeight(q), [], Root(q));
    CostsAppend(q, [], layer);
    assert [] + [layer] == [layer] && [] + [Root(q)] == layer;
    assert [out[0]][..0] == [];
    assert RowBytes([out[0]]) == RowBytes([]) + out[0].rowBytes;
  }

  lemma OnlyMember(s: seq<Edge>, e: Edge)
    requires Distinct(s) && e in s && forall x :: x in s ==> x == e
    ensures s == [e]
  {
    DistinctSubsequence(s, [e]);
    assert s[0] in s;
  }

  /** The layered traversal marks this answer truncated, and the answer is whole. */
  method WholeYetMarked(encodedSize: Step -> nat) returns (r: Result<TraceResult, TraceError>)
    requires forall s :: encodedSize(s) <= 1000000
    ensures r.Success? && r.value.truncated && Exact(OneEdge, r.value)
  {
    hide SizesOf, Exact, ExactWithin, Exceeded, Deep, NothingBeyond, WithinLimits, SomeEdgeFails;
    ghost var sizeOf := SizesOf(OneEdge, encodedSize);
    SizesAreBounded(OneEdge, encodedSize, 1000000, CacheKey(10, 11));
    OneEdgeIsDeepAndWhole(sizeOf);
    var repository := new Repository(OneEdge.rows);
    r := TraceLayered(OneEdge, OneStep, repository, encodedSize);
    WholeWhenNothingBeyond(OneEdge, 1, r.value);
  }

  lemma SizesAreBounded(q: Query, encodedSize: Step -> nat, bound: nat, k: CacheKey)
    requires forall s :: encodedSize(s) <= bound
    ensures SizesOf(q, encodedSize)(k) <= bound
  {
  }

  // ----- marked by one traversal only ------------------------------------------------------------

  const HEAVY_ROWS := 65
  const HEAVY_BYTES := 262144

  /** An edge from 1 to 2 that is always false, and behind it more bytes of conditions than one trace may load. */
  const Dead := Edge(10, 11, 1, 2, Never, 100)

  function Heavy(n: nat): seq<Edge> {
    seq(n, i requires 0 <= i < n => Edge(20 + i, 120 + i, 2, 3 + i, Always, HEAVY_BYTES))
  }

  const DeadEnd := Query([Dead] + Heavy(HEAVY_ROWS), false, 1, 0, EmptyContext)

  lemma DeadEndRows()
    ensures UniqueRelations(DeadEnd.rows) && !SomeEdgeFails(DeadEnd) && PositiveNodes(DeadEnd)
    ensures forall e :: e in DeadEnd.rows && e.source == 1 ==> e == Dead
  {
    RulesEvaluate(EmptyContext);
  }

  lemma DeadEndPaths()
    ensures forall p :: SimplePath(DeadEnd, p) ==> p == Root(DeadEnd)
  {
    RulesEvaluate(EmptyContext);
    DeadEndRows();
    hide EvalEdge;
    forall p | SimplePath(DeadEnd, p) ensures p == Root(DeadEnd) {
      assert |p.steps| > 0 ==> StepJoins(DeadEnd, p.steps[0], p.nodes[0], p.nodes[1]);
      assert |p.steps| == 0;
      assert p.nodes == [1];
    }
  }

  lemma DeadEndFits(limits: Limits, sizeOf: CacheKey -> nat)
    requires ValidLimits(limits) && limits.maxNodes >= 100
    ensures !Overflow(DeadEnd, limits, sizeOf)
  {
    DeadEndPaths();
    DeadEndRows();
    RootIsSimple(DeadEnd);
    var root := Root(DeadEnd);
    NodeCount(DeadEnd);
    assert PathsFit(limits, sizeOf, [root]) by {
      TotalStepsAppend([], root);
      TotalBytesAppend(sizeOf, [], root);
      assert [] + [root] == [root];
    }
    UniqueRowsDetermine(DeadEnd.rows);
    assert Dead in DeadEnd.rows by { assert DeadEnd.rows[0] == Dead; }
    LayerCosts(DeadEnd, [Dead]);
    hide SimplePath, PathsFit, NodesOf, TotalDegree, TotalLoad;
    assert LayerOf(DeadEnd, 0, [root]);
    EnumeratedFits(DeadEnd, limits, sizeOf, [root], [[root]]);
    forall p ensures !TooDeep(DeadEnd, limits, p) {}
  }

  lemma {:induction false} HeavyBytes(n: nat)
    ensures RowBytes(Heavy(n)) == n * HEAVY_BYTES
  {
    if n > 0 {
      HeavyBytes(n - 1);
      assert Heavy(n)[..n - 1] == Heavy(n - 1);
    }
  }

  /** The walk follows the false edge and is charged for everything behind it. */
  lemma DeadEndWalk(maxDepth: int, rows: seq<Candidate>, trails: seq<seq<Edge>>)
    requires maxDepth >= 2 && ParentFirst(DeadEnd, maxDepth, rows, trails)
    ensures WalkTooLong(rows)
  {
    var heavy := Heavy(HEAVY_ROWS);
    var part := Appended([Dead], heavy);
    AppendedDistinct([Dead], heavy);
    assert WalkTrail(DeadEnd, maxDepth, [Dead]) by {
      assert DeadEnd.rows[0] == Dead;
      WalkStep(DeadEnd, maxDepth, [], Dead);
      assert [] + [Dead] == [Dead];
    }
    forall x | x in part ensures WalkTrail(DeadEnd, maxDepth, x) {
      var i :| 0 <= i < |heavy| && x == [Dead] + [heavy[i]];
      assert heavy[i] == DeadEnd.rows[i + 1];
      assert [Dead][..0] == [];
      WalkStep(DeadEnd, maxDepth, [Dead], heavy[i]);
    }
    hide WalkTrail, ParentFirst;
    WalkCostsAtLeast(DeadEnd, maxDepth, rows, trails, part);
    FanBytes([Dead], heavy);
    HeavyBytes(HEAVY_ROWS);
  }

  /** The layered traversal answers this query in full and says so; the recursive one marks its answer, although
      there is nothing more to find. */
  method MarksDiffer(
    limits: Limits, rows: seq<Candidate>, encodedSize: Step -> nat, ghost trails: seq<seq<Edge>>)
    returns (layered: Result<TraceResult, TraceError>, recursive: Result<TraceResult, TraceError>)
    requires ValidLimits(limits) && limits.maxDepth >= 2 && limits.maxNodes >= 100
    requires ParentFirst(DeadEnd, limits.maxDepth, rows, trails)
    ensures layered.Success? && recursive.Success?
    ensures !layered.value.truncated && Exact(DeadEnd, layered.value) && recursive.value.truncated
  {
    hide SizesOf, Exact, ExactWithin, Overflow, TooMuch, Deep, WithinLimits, SomeEdgeFails, WalkTooLong, ParentFirst;
    DeadEndRows();
    DeadEndFits(limits, SizesOf(DeadEnd, encodedSize));
    DeadEndWalk(limits.maxDepth, rows, trails);
    var repository := new Repository(DeadEnd.rows);
    layered, recursive := TraversalsAgree(DeadEnd, limits, repository, rows, encodedSize, trails);
  }
}
