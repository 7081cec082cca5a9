/** The trace service: request validation, the choice of traversal, and how the two traversals compare. */
module Trace {
  import opened Wrappers
  import opened Conditions
  import opened ConditionTheorems
  import opened Evaluator
  import opened EdgeEvaluation
  import opened Graph
  import opened GraphRepository
  import opened LayeredTrace
  import opened SearchSpace
  import opened RecursiveTrace

  datatype Direction = Downstream | Upstream | OtherDirection

  datatype TraceRequest = TraceRequest(
    start: int, target: int, direction: Direction, context: RawContext, limits: Limits)

  const DefaultTraceLimits := Limits(8, 1000, 1000)

  function EffectiveLimits(limits: Limits): Limits {
    if limits == Limits(0, 0, 0) then DefaultTraceLimits else limits
  }

  predicate ValidRequest(request: TraceRequest) {
    && request.start > 0 && request.target >= 0 && !request.direction.OtherDirection?
    && ValidLimits(request.limits)
    && |request.context.columns| <= 1000 && |request.context.parameters| <= 1000
  }

  /** The query a request denotes over the current effective edges. */
  function QueryOf(request: TraceRequest, rows: seq<Edge>): Query {
    Query(rows, request.direction.Upstream?, request.start, request.target,
          ContextOf(request.context, DefaultContextLimits))
  }

  predicate EmptyInput(context: RawContext) {
    |context.columns| == 0 && |context.parameters| == 0
  }

  predicate TakesWalk(request: TraceRequest, walk: Option<seq<Candidate>>) {
    walk.Some? && EmptyInput(request.context)
  }

  ghost predicate FaithfulWalk(q: Query, maxDepth: int, rows: seq<Candidate>, trails: seq<seq<Edge>>) {
    ParentFirst(q, maxDepth, rows, trails) && PositiveNodes(q)
  }

  /** What the layered traversal answers: marked exactly when the search space does not fit, exact as far as the depth
      limit goes unless another limit is exceeded, and whole when unmarked. */
  ghost predicate LayeredAnswer(q: Query, limits: Limits, sizeOf: CacheKey -> nat, r: TraceResult) {
    && WithinLimits(q, limits, r) && ShortestFirst(r.paths)
    && (r.truncated <==> Overflow(q, limits, sizeOf))
    && (!Exceeded(q, limits, sizeOf) ==> ExactWithin(q, limits.maxDepth, r))
    && (!r.truncated ==> Exact(q, r))
  }

  /** What the recursive traversal answers, given that the rows are the query's own walk. */
  ghost predicate RecursiveAnswer(q: Query, limits: Limits, sizeOf: CacheKey -> nat, tooLong: bool, r: TraceResult) {
    && WithinLimits(q, limits, r)
    && (r.truncated <==> TooLarge(q, limits, sizeOf) || tooLong)
    && (!TooMuch(q, limits, sizeOf) && !tooLong ==> ExactWithin(q, limits.maxDepth, r))
    && (!r.truncated ==> Exact(q, r))
  }

  // ----- what a request asks for, told by the request and the edges alone ------------------------

  /** The edge leads from one node to the other in the direction of the trace. */
  predicate Leads(direction: Direction, e: Edge, from: int, to: int) {
    match direction
    case Downstream => e.source == from && e.target == to
    case Upstream => e.target == from && e.source == to
    case OtherDirection => false
  }

  /** A way from the start along edges that are not FALSE, through no node twice and not beyond the target. */
  ghost predicate Route(request: TraceRequest, rows: seq<Edge>, p: Path) {
    var c := ContextOf(request.context, DefaultContextLimits);
    && |p.nodes| == |p.steps| + 1 && p.nodes[0] == request.start
    && (forall i :: 0 <= i < |p.steps| ==>
          && p.steps[i].edge in rows && Leads(request.direction, p.steps[i].edge, p.nodes[i], p.nodes[i + 1])
          && EvalEdge(p.steps[i].edge.content, c) == Success(p.steps[i].evaluation) && p.steps[i].evaluation.truth != False)
    && (forall i, j :: 0 <= i < j < |p.nodes| ==> p.nodes[i] != p.nodes[j])
    && (forall i :: 0 < i < |p.steps| ==> request.target == 0 || p.nodes[i] != request.target)
  }

  /** A route to the target, or to anywhere when there is none. */
  ghost predicate Wanted(request: TraceRequest, rows: seq<Edge>, p: Path) {
    Route(request, rows, p) && |p.steps| > 0 && (request.target == 0 || p.nodes[|p.steps|] == request.target)
  }

  /** The edge is not FALSE and leads from the end of a route, which is not the end of the search, back into it. */
  ghost predicate ClosesRoute(request: TraceRequest, rows: seq<Edge>, p: Path, e: Edge, back: int) {
    && Route(request, rows, p) && e in rows && back in p.nodes && Leads(request.direction, e, p.nodes[|p.steps|], back)
    && (|p.steps| == 0 || request.target == 0 || p.nodes[|p.steps|] != request.target)
    && var v := EvalEdge(e.content, ContextOf(request.context, DefaultContextLimits)); v.Success? && v.value.truth != False
  }

  ghost predicate RouteTo(request: TraceRequest, rows: seq<Edge>, n: int) {
    exists p :: Route(request, rows, p) && p.nodes[|p.steps|] == n
  }

  ghost predicate ReachedByRoutes(request: TraceRequest, rows: seq<Edge>, nodes: set<int>) {
    forall n :: n in nodes <==> RouteTo(request, rows, n)
  }

  /** The answer is all that was asked for: the wanted routes once each, how many nodes routes lead to, and whether
      one of them closes a cycle. */
  ghost predicate Answers(request: TraceRequest, rows: seq<Edge>, r: TraceResult) {
    && (forall p :: p in r.paths <==> Wanted(request, rows, p))
    && (forall i, j :: 0 <= i < j < |r.paths| ==> r.paths[i] != r.paths[j])
    && (exists nodes :: ReachedByRoutes(request, rows, nodes) && |nodes| == r.visitedNodes)
    && (r.cycleDetected <==> exists p, e, back :: ClosesRoute(request, rows, p, e, back))
  }

  lemma RoutesAreSimplePaths(request: TraceRequest, rows: seq<Edge>, p: Path)
    requires !request.direction.OtherDirection?
    ensures Route(request, rows, p) <==> SimplePath(QueryOf(request, rows), p)
    ensures Wanted(request, rows, p) <==> Reported(QueryOf(request, rows), p)
  {
    hide EvalEdge, ContextOf;
    var q := QueryOf(request, rows);
    if Route(request, rows, p) {
      forall i | 0 <= i < |p.steps| ensures StepJoins(q, p.steps[i], p.nodes[i], p.nodes[i + 1]) {
        assert Leads(request.direction, p.steps[i].edge, p.nodes[i], p.nodes[i + 1]);
      }
    }
    if SimplePath(q, p) {
      forall i | 0 <= i < |p.steps|
        ensures p.steps[i].edge in rows && Leads(request.direction, p.steps[i].edge, p.nodes[i], p.nodes[i + 1])
        ensures EvalEdge(p.steps[i].edge.content, q.context) == Success(p.steps[i].evaluation)
        ensures p.steps[i].evaluation.truth != False
      {
        assert StepJoins(q, p.steps[i], p.nodes[i], p.nodes[i + 1]);
      }
    }
  }

  lemma RoutesReach(request: TraceRequest, rows: seq<Edge>, n: int)
    requires !request.direction.OtherDirection?
    ensures n in ReachedNodes(QueryOf(request, rows)) <==> RouteTo(request, rows, n)
  {
    hide EvalEdge, ContextOf, QueryOf, NodesOf;
    var q := QueryOf(request, rows);
    if RouteTo(request, rows, n) {
      var p :| Route(request, rows, p) && p.nodes[|p.steps|] == n;
      RoutesAreSimplePaths(request, rows, p);
      EndIsNode(q, p);
      assert Reaches(q, p, n);
    }
    if n in ReachedNodes(q) {
      var p :| Reaches(q, p, n);
      RoutesAreSimplePaths(request, rows, p);
    }
  }

  lemma RoutesClose(request: TraceRequest, rows: seq<Edge>)
    requires !request.direction.OtherDirection?
    ensures CycleReachable(QueryOf(request, rows)) <==> exists p, e, back :: ClosesRoute(request, rows, p, e, back)
  {
    hide EvalEdge, ContextOf;
    var q := QueryOf(request, rows);
    if CycleReachable(q) {
      var p, s :| Closes(q, p, s);
      RoutesAreSimplePaths(request, rows, p);
      hide Route, SimplePath;
      assert ClosesRoute(request, rows, p, s.edge, if q.upstream then s.edge.source else s.edge.target);
    }
    if p, e, back :| ClosesRoute(request, rows, p, e, back) {
      RoutesAreSimplePaths(request, rows, p);
      hide Route;
      assert Closes(q, p, Step(e, EvalEdge(e.content, q.context).value));
    }
  }

  /** The exact answer to the query of a request is all that the request asks for. */
  lemma ExactAnswers(request: TraceRequest, rows: seq<Edge>, r: TraceResult)
    requires !request.direction.OtherDirection?
    ensures Exact(QueryOf(request, rows), r) <==> Answers(request, rows, r)
  {
    hide Route, SimplePath, QueryOf;
    var q := QueryOf(request, rows);
    forall p ensures Wanted(request, rows, p) <==> Reported(q, p) { RoutesAreSimplePaths(request, rows, p); }
    forall n ensures n in ReachedNodes(q) <==> RouteTo(request, rows, n) { RoutesReach(request, rows, n); }
    RoutesClose(request, rows);
    hide Wanted, Reported, RouteTo, ClosesRoute, CycleReachable, ReachedNodes;
    assert ReachedByRoutes(request, rows, ReachedNodes(q));
    if Answers(request, rows, r) {
      var nodes :| ReachedByRoutes(request, rows, nodes) && |nodes| == r.visitedNodes;
      assert forall n :: n in nodes <==> n in ReachedNodes(q);
      assert nodes == ReachedNodes(q);
    }
  }

  /** Every step goes from the source of its edge to the target. */
  ghost predicate AlongEdges(p: Path) {
    && |p.nodes| == |p.steps| + 1
    && forall i :: 0 <= i < |p.steps| ==> p.steps[i].edge.source == p.nodes[i] && p.steps[i].edge.target == p.nodes[i + 1]
  }

  /** Every step goes from the target of its edge to the source. */
  ghost predicate AgainstEdges(p: Path) {
    && |p.nodes| == |p.steps| + 1
    && forall i :: 0 <= i < |p.steps| ==> p.steps[i].edge.target == p.nodes[i] && p.steps[i].edge.source == p.nodes[i + 1]
  }

  lemma RouteStep(request: TraceRequest, rows: seq<Edge>, p: Path, i: nat)
    requires Route(request, rows, p) && i < |p.steps|
    ensures Leads(request.direction, p.steps[i].edge, p.nodes[i], p.nodes[i + 1])
  {
    hide EvalEdge, ContextOf, Leads;
  }

  lemma RouteHasDirection(request: TraceRequest, rows: seq<Edge>, p: Path)
    requires Route(request, rows, p)
    ensures request.direction == Downstream ==> AlongEdges(p)
    ensures request.direction == Upstream ==> AgainstEdges(p)
  {
    assert |p.nodes| == |p.steps| + 1;
    hide Route;
    if request.direction == Downstream {
      forall i | 0 <= i < |p.steps| ensures p.steps[i].edge.source == p.nodes[i] && p.steps[i].edge.target == p.nodes[i + 1] {
        RouteStep(request, rows, p, i);
      }
    }
    if request.direction == Upstream {
      forall i | 0 <= i < |p.steps| ensures p.steps[i].edge.target == p.nodes[i] && p.steps[i].edge.source == p.nodes[i + 1] {
        RouteStep(request, rows, p, i);
      }
    }
  }

  lemma PathFollowsRequest(request: TraceRequest, rows: seq<Edge>, p: Path)
    requires !request.direction.OtherDirection? && Reported(QueryOf(request, rows), p)
    ensures Wanted(request, rows, p)
    ensures if request.direction == Downstream then AlongEdges(p) else AgainstEdges(p)
  {
    hide QueryOf, Route, AlongEdges, AgainstEdges;
    RoutesAreSimplePaths(request, rows, p);
    RouteHasDirection(request, rows, p);
  }

  /** A full answer upstream without a target has a path of one step for every edge that is not FALSE and ends at the
      start; downstream for every one that begins there. */
  lemma NeighboursAreReported(request: TraceRequest, rows: seq<Edge>, r: TraceResult, e: Edge, v: Evaluation)
    requires request.target == 0 && Answers(request, rows, r)
    requires e in rows && e.source != e.target
    requires EvalEdge(e.content, ContextOf(request.context, DefaultContextLimits)) == Success(v) && v.truth != False
    ensures request.direction == Upstream && e.target == request.start ==> Path([e.target, e.source], [Step(e, v)]) in r.paths
    ensures request.direction == Downstream && e.source == request.start ==> Path([e.source, e.target], [Step(e, v)]) in r.paths
  {
    hide EvalEdge, ContextOf;
    if request.direction == Upstream && e.target == request.start {
      assert Wanted(request, rows, Path([e.target, e.source], [Step(e, v)]));
    }
    if request.direction == Downstream && e.source == request.start {
      assert Wanted(request, rows, Path([e.source, e.target], [Step(e, v)]));
    }
  }

  /** Which requests are valid, and how deep they may look, with the defaults of a request that gives no limits. */
  lemma RequestLimits(given: TraceRequest)
    ensures var none, limits := given.limits == Limits(0, 0, 0), EffectiveLimits(given.limits);
      && (ValidRequest(given.(limits := limits)) <==>
           && given.start >= 1 && given.target >= 0 && (given.direction == Downstream || given.direction == Upstream)
           && |given.context.columns| <= 1000 && |given.context.parameters| <= 1000
           && (none || (0 < limits.maxDepth <= 64 && 0 < limits.maxNodes <= 10000 && 0 < limits.maxPaths <= 10000)))
      && (none ==> limits.maxDepth == 8 && limits.maxNodes == 1000 && limits.maxPaths == 1000)
      && (!none ==> limits == given.limits)
  {
  }

  lemma AnswerFollowsRequest(request: TraceRequest, rows: seq<Edge>, limits: Limits, r: TraceResult)
    requires !request.direction.OtherDirection? && WithinLimits(QueryOf(request, rows), limits, r)
    ensures forall p :: p in r.paths ==> Wanted(request, rows, p) && |p.steps| <= limits.maxDepth
    ensures request.direction == Downstream ==> forall p :: p in r.paths ==> AlongEdges(p)
    ensures request.direction == Upstream ==> forall p :: p in r.paths ==> AgainstEdges(p)
    ensures Exact(QueryOf(request, rows), r) ==> Answers(request, rows, r)
  {
    forall p | p in r.paths
      ensures Wanted(request, rows, p) && |p.steps| <= limits.maxDepth
      ensures if request.direction == Downstream then AlongEdges(p) else AgainstEdges(p)
    {
      PathFollowsRequest(request, rows, p);
      hide AlongEdges, AgainstEdges, Wanted, Reported;
    }
    hide AlongEdges, AgainstEdges, Wanted, WithinLimits, QueryOf, Exact, Answers;
    ExactAnswers(request, rows, r);
  }

  /** Serves a request. `walk` holds the rows of the recursive query when the repository supports it; that
      path is taken for an empty context only. A valid request fails only if some edge does not evaluate or the walk
      is not the query's own. */
  method Serve(
    given: TraceRequest, repository: Repository, walk: Option<seq<Candidate>>, encodedSize: Step -> nat,
    ghost trails: seq<seq<Edge>>)
    returns (r: Result<TraceResult, TraceError>)
    requires UniqueRelations(repository.rows)
    requires walk.Some? ==> forall i :: 0 <= i < |walk.value| ==>
      RowShape(QueryOf(given, repository.rows), walk.value[i])
    ensures var request := given.(limits := EffectiveLimits(given.limits));
      var q := QueryOf(given, repository.rows);
      r.Success? ==>
        && ValidRequest(request) && Admissible(given.context, DefaultContextLimits)
        && WithinLimits(q, request.limits, r.value)
        && (!TakesWalk(given, walk) ==> LayeredAnswer(q, request.limits, SizesOf(q, encodedSize), r.value))
        && (TakesWalk(given, walk) && ParentFirst(q, request.limits.maxDepth, walk.value, trails) ==>
             RecursiveAnswer(q, request.limits, SizesOf(q, encodedSize), WalkTooLong(walk.value), r.value))
        && (TakesWalk(given, walk) && r.value.truncated ==>
             TooLarge(q, request.limits, SizesOf(q, encodedSize)) || WalkTooLong(walk.value))
    ensures var request := given.(limits := EffectiveLimits(given.limits));
      var q := QueryOf(given, repository.rows);
      r.Failure? && ValidRequest(request) && Admissible(given.context, DefaultContextLimits) ==>
        SomeEdgeFails(q) || (TakesWalk(given, walk) && !FaithfulWalk(q, request.limits.maxDepth, walk.value, trails))
    ensures var limits := EffectiveLimits(given.limits); var q := QueryOf(given, repository.rows);
      r.Success? && (walk.None? || |given.context.columns| > 0 || |given.context.parameters| > 0) ==>
        LayeredAnswer(q, limits, SizesOf(q, encodedSize), r.value)
    ensures var limits := EffectiveLimits(given.limits); var q := QueryOf(given, repository.rows);
      r.Success? && walk.Some? && |given.context.columns| == 0 && |given.context.parameters| == 0
      && ParentFirst(q, limits.maxDepth, walk.value, trails) ==>
        RecursiveAnswer(q, limits, SizesOf(q, encodedSize), WalkTooLong(walk.value), r.value)
    ensures r.Success? ==> forall p :: p in r.value.paths ==> Wanted(given, repository.rows, p)
    ensures r.Success? && given.direction == Downstream ==> forall p :: p in r.value.paths ==> AlongEdges(p)
    ensures r.Success? && given.direction == Upstream ==> forall p :: p in r.value.paths ==> AgainstEdges(p)
    ensures var request := given.(limits := EffectiveLimits(given.limits));
      r.Success? && !r.value.truncated
      && (TakesWalk(given, walk) ==>
           ParentFirst(QueryOf(given, repository.rows), request.limits.maxDepth, walk.value, trails)) ==>
        Answers(given, repository.rows, r.value)
  {
    var request := given.(limits := EffectiveLimits(given.limits));
    if !ValidRequest(request) { return Failure(InvalidTrace); }
    var prepared := PrepareContext(request.context, DefaultContextLimits);
    if prepared.Failure? { return Failure(InvalidTrace); }
    var q := Query(repository.rows, request.direction.Upstream?, request.start, request.target, prepared.value);
    assert q == QueryOf(given, repository.rows);
    if walk.Some? && EmptyInput(request.context) {
      r := TraceRecursive(q, request.limits, walk.value, encodedSize, trails);
    } else {
      r := TraceLayered(q, request.limits, repository, encodedSize);
    }
    if r.Success? {
      hide SizesOf, ContextOf, ParentFirst, SomeEdgeFails, Overflow, TooLarge, TooMuch, Exceeded, WithinLimits, Exact, ExactWithin;
      hide Wanted, Answers, FaithfulWalk, WalkTooLong, AlongEdges, AgainstEdges;
      AnswerFollowsRequest(given, repository.rows, request.limits, r.value);
    }
  }

  // ----- the two traversals agree ----------------------------------------------------------------

  /** The same paths in some order, the same node count and the same cycle flag. */
  predicate SameAnswer(a: TraceResult, b: TraceResult) {
    multiset(a.paths) == multiset(b.paths) && a.visitedNodes == b.visitedNodes && a.cycleDetected == b.cycleDetected
  }

  /** Two exact answers to one query are the same answer; so whenever neither traversal truncated, the recursive one
      returns a reordering of the layered one. */
  lemma ExactAnswersAgree(q: Query, layered: TraceResult, recursive: TraceResult)
    requires Exact(q, layered) && Exact(q, recursive)
    ensures SameAnswer(layered, recursive)
  {
    SameMultiset(layered.paths, recursive.paths);
  }

  /** And so are two answers exact as far as one depth goes. */
  lemma AnswersWithinAgree(q: Query, depth: int, layered: TraceResult, recursive: TraceResult)
    requires ExactWithin(q, depth, layered) && ExactWithin(q, depth, recursive)
    ensures SameAnswer(layered, recursive)
  {
    SameMultiset(layered.paths, recursive.paths);
  }

  lemma SameMultiset<T(!new)>(s: seq<T>, u: seq<T>)
    requires Distinct(s) && Distinct(u) && forall x :: x in s <==> x in u
    ensures multiset(s) == multiset(u)
  {
    forall x ensures multiset(s)[x] == multiset(u)[x] {
      DistinctMultiplicity(s, x);
      DistinctMultiplicity(u, x);
    }
  }

  /** Runs both traversals of one query. They fail only if some edge does not evaluate. Their marks differ exactly when
      what there is to find fits, no path is cut by the depth limit, and just one of the two is charged too much: the
      layered one for the layers it expands, the recursive one for the rows of its walk. When neither is and there is
      not too much to find, they return the same answer with the same mark. */
  method TraversalsAgree(
    q: Query, limits: Limits, repository: Repository, rows: seq<Candidate>, encodedSize: Step -> nat,
    ghost trails: seq<seq<Edge>>)
    returns (layered: Result<TraceResult, TraceError>, recursive: Result<TraceResult, TraceError>)
    requires ValidLimits(limits) && repository.rows == q.rows && UniqueRelations(q.rows)
    requires FaithfulWalk(q, limits.maxDepth, rows, trails)
    ensures layered.Failure? || recursive.Failure? ==> SomeEdgeFails(q)
    ensures var sizeOf := SizesOf(q, encodedSize);
      layered.Success? && recursive.Success? ==>
        && LayeredAnswer(q, limits, sizeOf, layered.value)
        && RecursiveAnswer(q, limits, sizeOf, WalkTooLong(rows), recursive.value)
        && (layered.value.truncated != recursive.value.truncated <==>
             !TooLarge(q, limits, sizeOf) && (TooCostly(q, limits) <==> !WalkTooLong(rows)))
        && (!Exceeded(q, limits, sizeOf) && !WalkTooLong(rows) ==>
             SameAnswer(layered.value, recursive.value) && layered.value.truncated == recursive.value.truncated)
  {
    hide TooMuch, TooCostly, Deep, SizesOf, WalkTooLong, Exact, ExactWithin, SomeEdgeFails, WithinLimits, ParentFirst, SameAnswer;
    layered := TraceLayered(q, limits, repository, encodedSize);
    RowsFollowShape(q, limits.maxDepth, rows, trails);
    recursive := TraceRecursive(q, limits, rows, encodedSize, trails);
    ghost var sizeOf := SizesOf(q, encodedSize);
    if layered.Success? && recursive.Success? && !Exceeded(q, limits, sizeOf) && !WalkTooLong(rows) {
      AnswersWithinAgree(q, limits.maxDepth, layered.value, recursive.value);
    }
  }

  lemma RowsFollowShape(q: Query, maxDepth: int, rows: seq<Candidate>, trails: seq<seq<Edge>>)
    requires ParentFirst(q, maxDepth, rows, trails)
    ensures forall i :: 0 <= i < |rows| ==> RowShape(q, rows[i])
  {
    forall i | 0 <= i < |rows| ensures RowShape(q, rows[i]) {
      assert RowInOrder(q, maxDepth, rows, trails, i);
      RowsHaveShape(q, maxDepth, trails[i]);
    }
  }

  lemma {:induction false} DistinctMultiplicity<T>(s: seq<T>, x: T)
    requires Distinct(s)
    ensures multiset(s)[x] == if x in s then 1 else 0
  {
    if s != [] {
      var front := s[..|s| - 1];
      DistinctMultiplicity(front, x);
      assert s == front + [s[|s| - 1]];
      assert s[|s| - 1] !in front;
    }
  }

  /** The same nodes over the same edges, and every step true in `w` is true in `p`. */
  ghost predicate SameRoute(p: Path, w: Path) {
    && w.nodes == p.nodes && |w.steps| == |p.steps|
    && (forall i :: 0 <= i < |p.steps| ==> w.steps[i].edge == p.steps[i].edge)
    && (forall i :: 0 <= i < |p.steps| && w.steps[i].evaluation.truth == True ==> p.steps[i].evaluation.truth == True)
  }

  /** More context never adds a path: of two exact answers, every path under the larger context is, over the
      same nodes and edges, a path under the smaller one, and the steps true there stay true. */
  lemma MoreContextNeverAdds(q: Query, d: Context, small: TraceResult, large: TraceResult)
    requires Extends(q.context, d)
    requires Exact(q, small) && Exact(q.(context := d), large)
    ensures forall p :: p in large.paths ==>
      Reevaluated(p, q.context) in small.paths && SameRoute(p, Reevaluated(p, q.context))
  {
    forall p | p in large.paths
      ensures Reevaluated(p, q.context) in small.paths && SameRoute(p, Reevaluated(p, q.context))
    {
      assert Reported(q.(context := d), p);
      MoreContextOnlyRemoves(q, d, p);
    }
  }

  // ----- the query's own enumeration is parent first ---------------------------------------------

  predicate Walkable(q: Query, maxDepth: int, trail: seq<Edge>) {
    trail == [] ||
    (|trail| < maxDepth && EndOf(q, trail) !in PathOf(q, trail[..|trail| - 1]).nodes
     && (q.target == 0 || EndOf(q, trail) != q.target))
  }

  function Appended(trail: seq<Edge>, edges: seq<Edge>): seq<seq<Edge>> {
    seq(|edges|, i requires 0 <= i < |edges| => trail + [edges[i]])
  }

  /** The rows the recursive part of the query adds below a list of rows. */
  function Successors(q: Query, maxDepth: int, trails: seq<seq<Edge>>): seq<seq<Edge>> {
    if trails == [] then []
    else
      var t := trails[|trails| - 1];
      Successors(q, maxDepth, trails[..|trails| - 1])
      + if Walkable(q, maxDepth, t) then Appended(t, EdgesFrom(q.rows, q.upstream, EndOf(q, t))) else []
  }

  function WalkLevel(q: Query, maxDepth: int, depth: nat): seq<seq<Edge>> {
    if depth == 0 then [[]] else Successors(q, maxDepth, WalkLevel(q, maxDepth, depth - 1))
  }

  /** The depth-ordered enumeration. */
  function WalkUpTo(q: Query, maxDepth: int, depth: nat): seq<seq<Edge>> {
    if depth == 0 then [] else WalkUpTo(q, maxDepth, depth - 1) + WalkLevel(q, maxDepth, depth)
  }

  lemma {:induction false} SuccessorsMembers(q: Query, maxDepth: int, trails: seq<seq<Edge>>, x: seq<Edge>)
    ensures x in Successors(q, maxDepth, trails) <==>
      && x != [] && x[..|x| - 1] in trails && Walkable(q, maxDepth, x[..|x| - 1])
      && x[|x| - 1] in q.rows && CurrentNode(x[|x| - 1], q.upstream) == EndOf(q, x[..|x| - 1])
  {
    if trails != [] {
      var front, t := trails[..|trails| - 1], trails[|trails| - 1];
      SuccessorsMembers(q, maxDepth, front, x);
      assert trails == front + [t];
      var edges := EdgesFrom(q.rows, q.upstream, EndOf(q, t));
      EdgesFromMembers(q.rows, q.upstream, EndOf(q, t));
      AppendedMembers(t, edges, x);
    }
  }

  lemma AppendedMembers(t: seq<Edge>, edges: seq<Edge>, x: seq<Edge>)
    ensures x in Appended(t, edges) <==> x != [] && x[..|x| - 1] == t && x[|x| - 1] in edges
  {
    if x in Appended(t, edges) {
      var i :| 0 <= i < |edges| && Appended(t, edges)[i] == x;
      assert x[..|x| - 1] == t;
    }
    if x != [] && x[..|x| - 1] == t && x[|x| - 1] in edges {
      var i :| 0 <= i < |edges| && edges[i] == x[|x| - 1];
      assert Appended(t, edges)[i] == x;
    }
  }

  /** Level `depth` of the enumeration holds exactly the trails of that length. */
  lemma {:induction false} LevelMembers(q: Query, maxDepth: int, depth: nat, x: seq<Edge>)
    ensures x in WalkLevel(q, maxDepth, depth) <==>
      |x| == depth && (depth == 0 || WalkTrail(q, maxDepth, x))
    decreases depth
  {
    hide Successors;
    if depth > 0 {
      SuccessorsMembers(q, maxDepth, WalkLevel(q, maxDepth, depth - 1), x);
      if x != [] { LevelMembers(q, maxDepth, depth - 1, x[..|x| - 1]); }
    }
  }

  lemma {:induction false} UpToMembers(q: Query, maxDepth: int, depth: nat, x: seq<Edge>)
    ensures x in WalkUpTo(q, maxDepth, depth) <==> 1 <= |x| <= depth && WalkTrail(q, maxDepth, x)
    decreases depth
  {
    hide WalkTrail, WalkLevel;
    if depth > 0 {
      UpToMembers(q, maxDepth, depth - 1, x);
      LevelMembers(q, maxDepth, depth, x);
      assert WalkUpTo(q, maxDepth, depth) == WalkUpTo(q, maxDepth, depth - 1) + WalkLevel(q, maxDepth, depth);
    }
  }

  lemma UpToSplit(q: Query, maxDepth: int, depth: nat)
    requires depth > 0
    ensures WalkUpTo(q, maxDepth, depth) == WalkUpTo(q, maxDepth, depth - 1) + WalkLevel(q, maxDepth, depth)
  {
  }

  lemma {:induction false} UpToInOrder(q: Query, maxDepth: int, depth: nat, i: nat)
    requires i < |WalkUpTo(q, maxDepth, depth)|
    ensures var t := WalkUpTo(q, maxDepth, depth)[i];
      && WalkTrail(q, maxDepth, t)
      && (|t| == 1 || t[..|t| - 1] in WalkUpTo(q, maxDepth, depth)[..i])
    decreases depth
  {
    hide PathOf, WalkTrail, WalkUpTo, WalkLevel;
    var all := WalkUpTo(q, maxDepth, depth);
    var t := all[i];
    UpToMembers(q, maxDepth, depth, t);
    UpToSplit(q, maxDepth, depth);
    var before := WalkUpTo(q, maxDepth, depth - 1);
    if i < |before| {
      UpToInOrder(q, maxDepth, depth - 1, i);
      assert before[..i] == all[..i] && before[i] == t;
    } else if |t| > 1 {
      FrontOfLevel(q, maxDepth, depth, t, i - |before|);
      assert before == all[..|before|];
      EarlierContains(before, all, i, t[..|t| - 1]);
    }
  }

  /** The front of a trail of one level is listed in an earlier one. */
  lemma FrontOfLevel(q: Query, maxDepth: int, depth: nat, t: seq<Edge>, k: nat)
    requires depth > 0 && k < |WalkLevel(q, maxDepth, depth)| && WalkLevel(q, maxDepth, depth)[k] == t && |t| > 1
    ensures t[..|t| - 1] in WalkUpTo(q, maxDepth, depth - 1)
  {
    hide PathOf, EndOf, WalkLevel, WalkUpTo;
    LevelMembers(q, maxDepth, depth, t);
    UpToMembers(q, maxDepth, depth - 1, t[..|t| - 1]);
  }

  lemma EarlierContains<T>(before: seq<T>, all: seq<T>, i: nat, x: T)
    requires |before| <= i <= |all| && before == all[..|before|] && x in before
    ensures x in all[..i]
  {
    var j :| 0 <= j < |before| && before[j] == x;
    assert all[..i][j] == x;
  }

  lemma {:induction false} SuccessorsDistinct(q: Query, maxDepth: int, trails: seq<seq<Edge>>)
    requires Distinct(trails) && Distinct(q.rows)
    ensures Distinct(Successors(q, maxDepth, trails))
  {
    if trails != [] {
      var front, t := trails[..|trails| - 1], trails[|trails| - 1];
      SuccessorsDistinct(q, maxDepth, front);
      var edges := EdgesFrom(q.rows, q.upstream, EndOf(q, t));
      EdgesFromDistinct(q.rows, q.upstream, EndOf(q, t));
      AppendedDistinct(t, edges);
      forall x | x in Appended(t, edges) ensures x !in Successors(q, maxDepth, front) {
        AppendedMembers(t, edges, x);
        SuccessorsMembers(q, maxDepth, front, x);
        assert t !in front;
      }
      hide Walkable, EndOf;
      DistinctConcatenation(Successors(q, maxDepth, front), Appended(t, edges));
    }
  }

  lemma AppendedDistinct(t: seq<Edge>, edges: seq<Edge>)
    requires Distinct(edges)
    ensures Distinct(Appended(t, edges))
  {
    forall i, j | 0 <= i < j < |edges| ensures Appended(t, edges)[i] != Appended(t, edges)[j] {
      assert Appended(t, edges)[i][|t|] == edges[i] && Appended(t, edges)[j][|t|] == edges[j];
    }
  }

  lemma DistinctConcatenation<T(!new)>(a: seq<T>, b: seq<T>)
    requires Distinct(a) && Distinct(b) && forall x :: x in b ==> x !in a
    ensures Distinct(a + b)
  {
    forall i, j | 0 <= i < j < |a + b| ensures (a + b)[i] != (a + b)[j] {
      if i < |a| <= j {
        assert b[j - |a|] in b && a[i] in a;
      }
    }
  }

  lemma {:induction false} LevelDistinct(q: Query, maxDepth: int, depth: nat)
    requires Distinct(q.rows)
    ensures Distinct(WalkLevel(q, maxDepth, depth))
  {
    if depth > 0 {
      LevelDistinct(q, maxDepth, depth - 1);
      SuccessorsDistinct(q, maxDepth, WalkLevel(q, maxDepth, depth - 1));
    }
  }

  lemma LevelIsNew(q: Query, maxDepth: int, depth: nat)
    requires depth > 0
    ensures forall x :: x in WalkLevel(q, maxDepth, depth) ==> x !in WalkUpTo(q, maxDepth, depth - 1)
  {
    hide WalkTrail, WalkLevel, WalkUpTo;
    forall x | x in WalkLevel(q, maxDepth, depth) ensures x !in WalkUpTo(q, maxDepth, depth - 1) {
      LevelMembers(q, maxDepth, depth, x);
      UpToMembers(q, maxDepth, depth - 1, x);
    }
  }

  lemma {:induction false} UpToDistinct(q: Query, maxDepth: int, depth: nat)
    requires Distinct(q.rows)
    ensures Distinct(WalkUpTo(q, maxDepth, depth))
    decreases depth
  {
    if depth > 0 {
      hide WalkTrail, WalkLevel, WalkUpTo, Distinct;
      UpToDistinct(q, maxDepth, depth - 1);
      LevelDistinct(q, maxDepth, depth);
      LevelIsNew(q, maxDepth, depth);
      UpToSplit(q, maxDepth, depth);
      DistinctConcatenation(WalkUpTo(q, maxDepth, depth - 1), WalkLevel(q, maxDepth, depth));
    }
  }

  /** Enumerating level by level, as the query orders its rows, is a parent-first enumeration. */
  lemma DepthOrderIsParentFirst(q: Query, maxDepth: nat)
    requires maxDepth >= 1 && UniqueRelations(q.rows)
    ensures var trails := WalkUpTo(q, maxDepth, maxDepth);
      && (forall i :: 0 <= i < |trails| ==> trails[i] != [])
      && ParentFirst(q, maxDepth, seq(|trails|, i requires 0 <= i < |trails| && trails[i] != [] => RowOf(q, trails[i])), trails)
  {
    var trails := WalkUpTo(q, maxDepth, maxDepth);
    UniqueRowsDetermine(q.rows);
    UpToDistinct(q, maxDepth, maxDepth);
    forall i | 0 <= i < |trails| ensures trails[i] != [] { UpToInOrder(q, maxDepth, maxDepth, i); }
    var rows := seq(|trails|, i requires 0 <= i < |trails| && trails[i] != [] => RowOf(q, trails[i]));
    forall i | 0 <= i < |rows| ensures RowInOrder(q, maxDepth, rows, trails, i) {
      UpToInOrder(q, maxDepth, maxDepth, i);
    }
    forall t | WalkTrail(q, maxDepth, t) ensures t in trails {
      WalkIsBounded(q, maxDepth, t);
      UpToMembers(q, maxDepth, maxDepth, t);
    }
  }
}
