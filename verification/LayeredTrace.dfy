/** The layered breadth-first traversal with its budgets. */
module LayeredTrace {
  import opened Wrappers
  import opened Conditions
  import opened EdgeEvaluation
  import opened Graph
  import opened GraphRepository
  import opened SearchSpace

  datatype TraceError = InvalidTrace | EvaluationError(error: Error) | RepositoryError

  // ----- what the loops keep ---------------------------------------------------------------------

  function Front(p: Path): Path
    requires |p.nodes| == |p.steps| + 1 && |p.steps| > 0
  {
    Take(p, |p.steps| - 1)
  }

  /** Which parent a path of the layer under construction came from. */
  ghost predicate Origin(p: Path, done: seq<Path>, state: Path, tried: seq<Edge>) {
    && |p.nodes| == |p.steps| + 1 && |p.steps| > 0
    && (Front(p) in done || (Front(p) == state && p.steps[|p.steps| - 1].edge in tried))
  }

  /** The collected output: paths up to the given depth, shortest first, and nodes and cycles that exist. */
  ghost predicate OutputSound(q: Query, maxNodes: int, depth: int, t: Tally) {
    && PathsSound(q, depth, t.paths) && ShortestFirst(t.paths)
    && VisitedSound(q, depth, maxNodes, t.visited) && CycleSound(q, depth, t.cycle)
  }

  ghost predicate LayerSound(
    q: Query, maxNodes: int, depth: int, done: seq<Path>, state: Path, tried: seq<Edge>, t: Tally)
  {
    && LayerOf(q, depth + 1, t.frontier) && OutputSound(q, maxNodes, depth + 1, t)
    && AllFrom(t.frontier, depth, done, state, tried) && AllFrom(t.paths, depth, done, state, tried)
  }

  lemma OriginGrows(p: Path, done: seq<Path>, state: Path, tried: seq<Edge>, e: Edge)
    requires Origin(p, done, state, tried)
    ensures Origin(p, done, state, tried + [e])
  {
  }

  /** The path a new edge adds is new: no earlier path of the layer has the same parent and edge. */
  lemma StepPathIsFresh(q: Query, done: seq<Path>, state: Path, tried: seq<Edge>, e: Edge)
    requires |state.nodes| == |state.steps| + 1 && state !in done && e !in tried
    ensures var p := StepPath(q, state, e);
      && |p.steps| == |state.steps| + 1
      && !Origin(p, done, state, tried) && Origin(p, done, state, tried + [e])
  {
    var p := StepPath(q, state, e);
    assert Front(p) == state && p.steps[|p.steps| - 1].edge == e;
  }

  ghost predicate AllFrom(paths: seq<Path>, depth: int, done: seq<Path>, state: Path, tried: seq<Edge>) {
    forall p :: p in paths && |p.steps| == depth + 1 ==> Origin(p, done, state, tried)
  }

  /** Appending the path of an untried edge keeps the list duplicate-free and its origins known. */
  lemma AppendFresh(
    q: Query, depth: int, done: seq<Path>, state: Path, tried: seq<Edge>, e: Edge,
    paths: seq<Path>, more: seq<Path>)
    requires |state.nodes| == |state.steps| + 1 && |state.steps| == depth && state !in done && e !in tried
    requires Distinct(paths) && AllFrom(paths, depth, done, state, tried)
    requires more == paths || more == paths + [StepPath(q, state, e)]
    ensures Distinct(more) && AllFrom(more, depth, done, state, tried + [e])
  {
    StepPathIsFresh(q, done, state, tried, e);
    forall x | x in paths && |x.steps| == depth + 1 ensures Origin(x, done, state, tried + [e]) {
      OriginGrows(x, done, state, tried, e);
    }
    assert StepPath(q, state, e) !in paths;
  }

  lemma StepKeepsLayer(
    q: Query, maxNodes: int, depth: int, done: seq<Path>, state: Path, tried: seq<Edge>, e: Edge, t: Tally)
    requires LayerSound(q, maxNodes, depth, done, state, tried, t)
    requires Extensible(q, depth, state) && state !in done
    requires e in q.rows && CurrentNode(e, q.upstream) == Last(state) && e !in tried
    ensures LayerSound(q, maxNodes, depth, done, state, tried + [e], StepTally(q, maxNodes, state, e, t))
  {
    var u := StepTally(q, maxNodes, state, e, t);
    StepSound(q, depth + 1, maxNodes, state, e, t);
    StepPathIsFresh(q, done, state, tried, e);
    hide SimplePath, Expandable, StepTally, VisitedSound, CycleSound, Reported, Origin, StepPath;
    AppendFresh(q, depth, done, state, tried, e, t.frontier, u.frontier);
    AppendFresh(q, depth, done, state, tried, e, t.paths, u.paths);
    hide Distinct;
  }

  lemma NextState(
    q: Query, maxNodes: int, depth: int, done: seq<Path>, state: Path, tried: seq<Edge>, next: Path, t: Tally)
    requires LayerSound(q, maxNodes, depth, done, state, tried, t)
    ensures LayerSound(q, maxNodes, depth, done + [state], next, [], t)
  {
    forall x | Origin(x, done, state, tried) ensures Origin(x, done + [state], next, []) {}
  }

  lemma SwitchState(
    q: Query, maxNodes: int, depth: int, done: seq<Path>, state: Path, next: Path, t: Tally)
    requires LayerSound(q, maxNodes, depth, done, state, [], t)
    ensures LayerSound(q, maxNodes, depth, done, next, [], t)
  {
    forall x | Origin(x, done, state, []) ensures Origin(x, done, next, []) {}
  }

  /** Nothing of the answer up to the given depth is missing. */
  ghost predicate LevelComplete(q: Query, depth: nat, frontier: seq<Path>, t: Tally) {
    && (forall p :: Extensible(q, depth, p) ==> p in frontier)
    && (forall p :: Reported(q, p) && |p.steps| <= depth ==> p in t.paths)
    && (forall p :: SimplePath(q, p) && |p.steps| <= depth ==> Last(p) in t.visited)
    && (forall p, s :: Closes(q, p, s) && |p.steps| < depth ==> t.cycle)
  }

  ghost predicate StateCovered(q: Query, state: Path, t: Tally)
    requires state.nodes != []
  {
    forall e :: e in q.rows && CurrentNode(e, q.upstream) == Last(state) ==> Covered(q, state, e, t)
  }

  lemma RootLevel(q: Query)
    ensures LevelComplete(q, 0, [Root(q)], Tally([], [], {q.start}, false, false))
    ensures OutputSound(q, 1, 0, Tally([], [], {q.start}, false, false))
    ensures LayerOf(q, 0, [Root(q)])
  {
    RootIsSimple(q);
    assert Reaches(q, Root(q), q.start);
    forall p | Extensible(q, 0, p) ensures p in [Root(q)] {
      assert p.nodes == [q.start] && p.steps == [];
    }
  }

  /** Covering every state of a complete level completes the next one. */
  lemma NextLevel(q: Query, depth: nat, frontier: seq<Path>, t: Tally, u: Tally)
    requires LevelComplete(q, depth, frontier, t) && Grows(t.(frontier := []), u)
    requires forall i :: 0 <= i < |frontier| ==> frontier[i].nodes != [] && StateCovered(q, frontier[i], u)
    ensures LevelComplete(q, depth + 1, u.frontier, u)
  {
    forall p | SimplePath(q, p) && |p.steps| == depth + 1
      ensures Last(p) in u.visited
      ensures Reported(q, p) ==> p in u.paths
      ensures Expandable(q, p) ==> p in u.frontier
    {
      LastStepCovered(q, depth, frontier, u, p);
    }
    forall p, s | Closes(q, p, s) && |p.steps| < depth + 1
      ensures u.cycle
    {
      if |p.steps| == depth {
        assert Extensible(q, depth, p) && p in frontier;
        assert Covered(q, p, s.edge, u);
      }
    }
  }

  lemma LastStepCovered(q: Query, depth: nat, frontier: seq<Path>, u: Tally, p: Path)
    requires forall x :: Extensible(q, depth, x) ==> x in frontier
    requires forall i :: 0 <= i < |frontier| ==> frontier[i].nodes != [] && StateCovered(q, frontier[i], u)
    requires SimplePath(q, p) && |p.steps| == depth + 1
    ensures Last(p) in u.visited
    ensures Reported(q, p) ==> p in u.paths
    ensures Expandable(q, p) ==> p in u.frontier
  {
    FrontOfSimple(q, p);
    var state, s := Take(p, depth), p.steps[depth];
    assert Extensible(q, depth, state) && state in frontier;
    assert Covered(q, state, s.edge, u);
    assert Extend(state, Step(s.edge, s.evaluation), Last(p)) == p;
  }

  /** A complete level holds the answer as far as its paths go. */
  lemma LevelIsExact(q: Query, maxNodes: int, depth: nat, t: Tally, truncated: bool)
    requires LevelComplete(q, depth, t.frontier, t) && OutputSound(q, maxNodes, depth, t)
    ensures ExactWithin(q, depth, Finish(t, truncated))
  {
    assert CycleWithin(q, depth) ==> t.cycle;
    CompleteIsExact(q, maxNodes, depth, t, truncated);
  }

  /** When the frontier runs dry at a complete level, no simple path is longer. */
  lemma EmptyFrontierIsDeepest(q: Query, depth: nat, t: Tally)
    requires LevelComplete(q, depth, [], t)
    ensures forall p :: SimplePath(q, p) ==> |p.steps| <= depth && (Expandable(q, p) ==> |p.steps| < depth)
  {
    forall p | SimplePath(q, p) && ReachesBeyond(q, depth, p) ensures false { HasPrefix(q, depth, p); }
    forall p | SimplePath(q, p) ensures |p.steps| <= depth && (Expandable(q, p) ==> |p.steps| < depth) {
      assert !ReachesBeyond(q, depth, p);
    }
  }

  ghost predicate ReachesBeyond(q: Query, depth: nat, p: Path) {
    |p.steps| > depth || Extensible(q, depth, p)
  }

  lemma HasPrefix(q: Query, depth: nat, p: Path)
    requires SimplePath(q, p) && ReachesBeyond(q, depth, p)
    ensures exists x :: Extensible(q, depth, x)
  {
    if |p.steps| > depth {
      PrefixOfSimple(q, p, depth);
      assert Extensible(q, depth, Take(p, depth));
    }
  }

  // ----- the traversal ---------------------------------------------------------------------------

  datatype Progress = Progress(tally: Tally, pathStates: nat, edgeExpansions: nat, stopped: bool)

  /** A step cut short by a budget leaves each part of the output before or after the full step. */
  ghost predicate Partly(t: Tally, u: Tally, v: Tally) {
    && (v.paths == t.paths || v.paths == u.paths)
    && (v.visited == t.visited || v.visited == u.visited)
    && v.cycle == t.cycle
  }

  /** The edge leads to a new path that the traversal may keep. */
  predicate AddsState(q: Query, maxNodes: int, state: Path, e: Edge, t: Tally) {
    var r := EvalEdge(e.content, q.context);
    && r.Success? && r.value.truth != False && NextNode(e, q.upstream) !in state.nodes
    && (NextNode(e, q.upstream) in t.visited || |t.visited| < maxNodes)
  }

  /** Why a new path cannot be kept: there are too many paths, too large an answer, or too wide a frontier. */
  ghost predicate NoRoomFor(q: Query, limits: Limits, sizeOf: CacheKey -> nat, path: Path, t: Tally)
    requires path.nodes != []
  {
    || (TargetReached(q, Last(path))
        && (|t.paths| >= limits.maxPaths || TotalSteps(t.paths + [path]) > MAXIMUM_RESULT_STEPS
            || TotalBytes(sizeOf, t.paths + [path]) > MAXIMUM_RESULT_BYTES))
    || (Continues(q, Last(path)) && |t.frontier| >= MAXIMUM_FRONTIER_STATES)
  }

  ghost predicate Stops(q: Query, limits: Limits, sizeOf: CacheKey -> nat, state: Path, e: Edge, before: Progress) {
    || before.edgeExpansions >= MAXIMUM_EDGE_EXPANSIONS
    || (AddsState(q, limits.maxNodes, state, e, before.tally)
        && (before.pathStates >= MAXIMUM_PATH_STATES || NoRoomFor(q, limits, sizeOf, StepPath(q, state, e), before.tally)))
  }

  /** Applies one edge to one state; stops exactly when a budget is spent. */
  method FollowEdge(
    q: Query, limits: Limits, state: Path, edge: Edge, before: Progress,
    evaluator: EdgeEvaluator, budget: ResultBudget)
    returns (r: Result<Progress, TraceError>)
    requires evaluator.Valid() && evaluator.context == q.context && edge in evaluator.rows
    requires budget.Valid() && budget.Holds(before.tally.paths)
    requires AddsState(q, limits.maxNodes, state, edge, before.tally) ==>
      SizesAgree(budget.encodedSize, budget.sizeOf, StepPath(q, state, edge).steps)
    requires |before.tally.paths| <= limits.maxPaths && !before.stopped && WithinBudget(before)
    modifies evaluator, budget
    ensures evaluator.Valid() && budget.Valid()
    ensures r.Failure? ==> EvalEdge(edge.content, q.context).Failure?
    ensures r.Success? ==> |r.value.tally.paths| <= limits.maxPaths && budget.Holds(r.value.tally.paths)
    ensures r.Success? ==>
      var u := StepTally(q, limits.maxNodes, state, edge, before.tally);
      if r.value.stopped then Partly(before.tally, u, r.value.tally) else r.value.tally == u
    ensures r.Success? && !r.value.stopped ==>
      && WithinBudget(r.value) && r.value.edgeExpansions == before.edgeExpansions + 1
      && r.value.pathStates == before.pathStates + (if AddsState(q, limits.maxNodes, state, edge, before.tally) then 1 else 0)
    ensures r.Success? && r.value.stopped ==> Stops(q, limits, budget.sizeOf, state, edge, before)
  {
    var t := before.tally;
    if before.edgeExpansions >= MAXIMUM_EDGE_EXPANSIONS { return Success(before.(stopped := true)); }
    var progress := before.(edgeExpansions := before.edgeExpansions + 1);
    var outcome := evaluator.Evaluate(edge);
    if outcome.Failure? { return Failure(EvaluationError(outcome.error)); }
    var evaluation := outcome.value;
    if evaluation.truth == False { return Success(progress); }
    var next := NextNode(edge, q.upstream);
    if next in state.nodes {
      return Success(progress.(tally := t.(cycle := true)));
    }
    var seen := next in t.visited;
    if !seen && |t.visited| >= limits.maxNodes {
      return Success(progress.(tally := t.(truncated := true)));
    }
    if before.pathStates >= MAXIMUM_PATH_STATES { return Success(progress.(stopped := true)); }
    t := t.(visited := t.visited + {next});
    progress := progress.(pathStates := before.pathStates + 1, tally := t);
    progress := EmitPath(q, limits, Extend(state, Step(edge, evaluation), next), progress, budget);
    return Success(progress);
  }

  /** Reports a new path if it ends where the query asks, and queues it unless it ends at the target. */
  method EmitPath(q: Query, limits: Limits, path: Path, before: Progress, budget: ResultBudget)
    returns (progress: Progress)
    requires path.nodes != [] && |path.steps| > 0 && SizesAgree(budget.encodedSize, budget.sizeOf, path.steps)
    requires budget.Valid() && budget.Holds(before.tally.paths)
    requires |before.tally.paths| <= limits.maxPaths && !before.stopped
    modifies budget
    ensures budget.Valid() && budget.Holds(progress.tally.paths)
    ensures |progress.tally.paths| <= limits.maxPaths
    ensures progress.tally.visited == before.tally.visited && progress.tally.cycle == before.tally.cycle
    ensures progress.tally.paths == before.tally.paths
      || (TargetReached(q, Last(path)) && progress.tally.paths == before.tally.paths + [path])
    ensures !progress.stopped ==> progress == before.(tally := before.tally.(
      paths := if TargetReached(q, Last(path)) then before.tally.paths + [path] else before.tally.paths,
      frontier := if Continues(q, Last(path)) then before.tally.frontier + [path] else before.tally.frontier))
    ensures !progress.stopped && |before.tally.frontier| <= MAXIMUM_FRONTIER_STATES ==>
      |progress.tally.frontier| <= MAXIMUM_FRONTIER_STATES
    ensures progress.stopped ==> NoRoomFor(q, limits, budget.sizeOf, path, before.tally)
  {
    var next := Last(path);
    var t := before.tally;
    progress := before;
    TotalStepsAppend(t.paths, path);
    TotalBytesAppend(budget.sizeOf, t.paths, path);
    if q.target == 0 || q.target == next {
      if |t.paths| >= limits.maxPaths { return progress.(stopped := true); }
      var accepted := budget.Accept(path);
      if !accepted { return progress.(stopped := true); }
      t := t.(paths := t.paths + [path]);
      progress := progress.(tally := t);
    }
    if q.target == 0 || q.target != next {
      if |t.frontier| >= MAXIMUM_FRONTIER_STATES { return progress.(stopped := true); }
      t := t.(frontier := t.frontier + [path]);
      progress := progress.(tally := t);
    }
  }

  // ----- counting states: why a stop means that the search space does not fit --------------------

  /** The paths of the given length found so far. */
  ghost function FoundAt(k: nat, t: Tally): set<Path> {
    (set p | p in t.frontier) + (set p | p in t.paths && |p.steps| == k)
  }

  /** What is known when a layer is expanded: the paths found so far, the layers expanded before, and whether all
      edges of this layer were loaded. */
  datatype Ledger = Ledger(known: set<Path>, layers: seq<seq<Path>>, full: bool)

  ghost predicate LedgerSound(q: Query, limits: Limits, sizeOf: CacheKey -> nat, depth: nat, ledger: Ledger) {
    && depth < limits.maxDepth && |ledger.layers| == depth && ExpandableLayers(q, ledger.layers)
    && SimpleSet(q, depth, ledger.known)
    && (ledger.full || Exceeded(q, limits, sizeOf))
  }

  /** The counters against what they count: of this layer, the states in `done` are expanded in full, and `j` edges
      of the next one are tried. */
  ghost predicate Counted(q: Query, depth: nat, ledger: Ledger, done: seq<Path>, j: nat, p: Progress) {
    && p.pathStates == |ledger.known| + |FoundAt(depth + 1, p.tally)|
    && (ledger.full ==> p.edgeExpansions == TotalDegree(q, ledger.layers) + Total(DegreeWeight(q), done) + j)
    && WithinBudget(p)
  }

  ghost predicate WithinBudget(p: Progress) {
    && p.pathStates <= MAXIMUM_PATH_STATES && p.edgeExpansions <= MAXIMUM_EDGE_EXPANSIONS
    && |p.tally.frontier| <= MAXIMUM_FRONTIER_STATES
  }

  /** A progress that gave up anything has a search space that does not fit. */
  ghost predicate Blameless(q: Query, limits: Limits, sizeOf: CacheKey -> nat, p: Progress) {
    p.stopped || p.tally.truncated ==> Exceeded(q, limits, sizeOf)
  }

  ghost predicate Sized(q: Query, budget: ResultBudget) {
    budget.sizeOf == SizesOf(q, budget.encodedSize) && UniqueRelations(q.rows)
  }

  lemma StepPathIsNew(q: Query, depth: nat, done: seq<Path>, state: Path, tried: seq<Edge>, e: Edge, t: Tally)
    requires Extensible(q, depth, state) && state !in done && e !in tried
    requires AllFrom(t.frontier, depth, done, state, tried) && AllFrom(t.paths, depth, done, state, tried)
    ensures StepPath(q, state, e) !in t.frontier && StepPath(q, state, e) !in t.paths
    ensures |StepPath(q, state, e).steps| == depth + 1
  {
    StepPathIsFresh(q, done, state, tried, e);
  }

  lemma StepAdds(q: Query, maxNodes: int, state: Path, e: Edge, t: Tally)
    requires state.nodes != []
    ensures var u, p := StepTally(q, maxNodes, state, e, t), StepPath(q, state, e);
      if AddsState(q, maxNodes, state, e, t) then
        && u.frontier == (if Continues(q, Last(p)) then t.frontier + [p] else t.frontier)
        && u.paths == (if TargetReached(q, Last(p)) then t.paths + [p] else t.paths)
      else u.frontier == t.frontier && u.paths == t.paths
  {
    assert Last(StepPath(q, state, e)) == NextNode(e, q.upstream);
  }

  /** One more state, one more path found. */
  lemma CountStep(q: Query, maxNodes: int, depth: nat, state: Path, e: Edge, t: Tally)
    requires |state.steps| == depth && state.nodes != []
    requires StepPath(q, state, e) !in t.frontier && StepPath(q, state, e) !in t.paths
    ensures |FoundAt(depth + 1, StepTally(q, maxNodes, state, e, t))|
         == |FoundAt(depth + 1, t)| + (if AddsState(q, maxNodes, state, e, t) then 1 else 0)
  {
    var u, p := StepTally(q, maxNodes, state, e, t), StepPath(q, state, e);
    StepAdds(q, maxNodes, state, e, t);
    assert |p.steps| == depth + 1;
    hide StepTally, StepPath, AddsState;
    if AddsState(q, maxNodes, state, e, t) {
      FoundGrows(depth + 1, t, u, p);
    } else {
      assert FoundAt(depth + 1, u) == FoundAt(depth + 1, t);
    }
  }

  lemma FoundGrows(k: nat, t: Tally, u: Tally, p: Path)
    requires |p.steps| == k && p !in t.frontier && p !in t.paths
    requires u.frontier == t.frontier || u.frontier == t.frontier + [p]
    requires u.paths == t.paths || u.paths == t.paths + [p]
    requires u.frontier != t.frontier || u.paths != t.paths
    ensures |FoundAt(k, u)| == |FoundAt(k, t)| + 1
  {
    assert p in u.frontier || p in u.paths;
    assert FoundAt(k, u) == FoundAt(k, t) + {p};
  }

  /** The states of earlier layers and those of this one are different paths. */
  lemma UnionOfStates(q: Query, depth: nat, known: set<Path>, found: set<Path>)
    requires SimpleSet(q, depth, known)
    requires forall p :: p in found ==> SimplePath(q, p) && |p.steps| == depth + 1
    ensures SimpleSet(q, depth + 1, known + found) && |known + found| == |known| + |found|
  {
    assert known !! found;
  }

  lemma FoundAreSimple(q: Query, maxNodes: int, depth: nat, t: Tally)
    requires LayerOf(q, depth + 1, t.frontier) && OutputSound(q, maxNodes, depth + 1, t)
    ensures forall p :: p in FoundAt(depth + 1, t) ==> SimplePath(q, p) && |p.steps| == depth + 1
  {
  }

  /** The edge limit is reached before the last edge of a state. */
  lemma TooManyExpansions(
    q: Query, limits: Limits, sizeOf: CacheKey -> nat, depth: nat, ledger: Ledger, done: seq<Path>, state: Path, j: nat, p: Progress)
    requires LedgerSound(q, limits, sizeOf, depth, ledger) && Counted(q, depth, ledger, done, j, p)
    requires LayerOf(q, depth, done) && Extensible(q, depth, state) && state !in done && j < Degree(q, state)
    requires p.edgeExpansions >= MAXIMUM_EDGE_EXPANSIONS
    ensures Exceeded(q, limits, sizeOf)
  {
    if ledger.full {
      hide TooMuch, SimplePath, Expandable;
      var layer := done + [state];
      var layers := ledger.layers + [layer];
      LayersAppend(q, ledger.layers, layer);
      TotalAppend(DegreeWeight(q), done, state);
      CostsAppend(q, ledger.layers, layer);
      assert CostlyLayers(q, limits, layers);
    }
  }

  lemma TooManyStates(q: Query, limits: Limits, sizeOf: CacheKey -> nat, depth: nat, s: set<Path>)
    requires SimpleSet(q, depth, s) && depth <= limits.maxDepth && |s| > MAXIMUM_PATH_STATES
    ensures TooMuch(q, limits, sizeOf) && Exceeded(q, limits, sizeOf)
  {
    assert Crowded(q, limits.maxDepth, s);
  }

  lemma TooWide(q: Query, limits: Limits, sizeOf: CacheKey -> nat, depth: nat, frontier: seq<Path>, path: Path)
    requires LayerOf(q, depth, frontier) && Extensible(q, depth, path) && depth <= limits.maxDepth
    requires path !in frontier && |frontier| >= MAXIMUM_FRONTIER_STATES
    ensures TooMuch(q, limits, sizeOf) && Exceeded(q, limits, sizeOf)
  {
    assert Wide(q, limits, depth, frontier + [path]);
  }

  lemma {:induction false} DistinctCardinality<T>(s: seq<T>)
    requires Distinct(s)
    ensures |set x | x in s| == |s|
  {
    if s != [] {
      var front, last := s[..|s| - 1], s[|s| - 1];
      DistinctCardinality(front);
      assert (set x | x in s) == (set x | x in front) + {last};
      assert last !in front;
    }
  }

  lemma TooBulky(q: Query, limits: Limits, sizeOf: CacheKey -> nat, paths: seq<Path>, path: Path)
    requires PathsSound(q, limits.maxDepth, paths) && Reported(q, path) && |path.steps| <= limits.maxDepth && path !in paths
    requires |paths| >= limits.maxPaths || TotalSteps(paths + [path]) > MAXIMUM_RESULT_STEPS
      || TotalBytes(sizeOf, paths + [path]) > MAXIMUM_RESULT_BYTES
    ensures TooMuch(q, limits, sizeOf) && Exceeded(q, limits, sizeOf)
  {
    hide TotalSteps, TotalBytes, Reported;
    OneMoreSound(q, limits.maxDepth, paths, path);
    hide PathsSound;
    assert Bulky(q, limits, sizeOf, paths + [path]);
  }

  lemma OneMoreSound(q: Query, depth: int, paths: seq<Path>, path: Path)
    requires PathsSound(q, depth, paths) && Reported(q, path) && |path.steps| <= depth && path !in paths
    ensures PathsSound(q, depth, paths + [path])
  {
  }

  lemma TooManyNodes(q: Query, limits: Limits, sizeOf: CacheKey -> nat, visited: set<int>, p: Path)
    requires VisitedSound(q, limits.maxDepth, limits.maxNodes, visited) && |visited| >= limits.maxNodes
    requires SimplePath(q, p) && |p.steps| <= limits.maxDepth && Last(p) !in visited
    ensures TooMuch(q, limits, sizeOf) && Exceeded(q, limits, sizeOf)
  {
    assert Reaches(q, p, Last(p));
    assert ReachedBy(q, limits.maxDepth, Last(p));
    VisitedAreWithin(q, limits.maxDepth, visited + {Last(p)});
  }

  lemma PartlySound(q: Query, maxNodes: int, depth: int, t: Tally, u: Tally, v: Tally)
    requires OutputSound(q, maxNodes, depth, t) && OutputSound(q, maxNodes, depth, u) && Partly(t, u, v)
    ensures OutputSound(q, maxNodes, depth, v)
  {
  }

  ghost predicate AllCovered(q: Query, state: Path, edges: seq<Edge>, t: Tally) {
    !t.truncated ==> forall e :: e in edges ==> Covered(q, state, e, t)
  }

  lemma CoverageStep(q: Query, maxNodes: int, state: Path, edges: seq<Edge>, j: nat, t: Tally)
    requires j < |edges| && AllCovered(q, state, edges[..j], t)
    ensures AllCovered(q, state, edges[..j + 1], StepTally(q, maxNodes, state, edges[j], t))
  {
    var u := StepTally(q, maxNodes, state, edges[j], t);
    StepGrows(q, maxNodes, state, edges[j], t);
    if !u.truncated {
      assert !Drops(q, maxNodes, state, edges[j], t);
      StepCovers(q, maxNodes, state, edges[j], t);
      forall e | e in edges[..j + 1] ensures Covered(q, state, e, u) {
        if e != edges[j] { CoveredGrows(q, state, e, t, u); }
      }
    }
  }

  lemma GrowsTransitive(t: Tally, u: Tally, v: Tally)
    requires Grows(t, u) && Grows(u, v)
    ensures Grows(t, v)
  {
  }

  lemma StopOverflows(
    q: Query, limits: Limits, sizeOf: CacheKey -> nat, depth: nat, done: seq<Path>, state: Path, tried: seq<Edge>, e: Edge,
    before: Progress, ledger: Ledger)
    requires Extensible(q, depth, state) && LayerOf(q, depth, done) && state !in done && e !in tried
    requires e in q.rows && CurrentNode(e, q.upstream) == Last(state) && |tried| < Degree(q, state)
    requires LayerSound(q, limits.maxNodes, depth, done, state, tried, before.tally)
    requires Counted(q, depth, ledger, done, |tried|, before) && LedgerSound(q, limits, sizeOf, depth, ledger)
    requires Stops(q, limits, sizeOf, state, e, before)
    ensures Exceeded(q, limits, sizeOf)
  {
    hide Exceeded, DegreeWeight, ExpandableLayers, SimpleSet, TotalDegree, Total;
    var p := StepPath(q, state, e);
    StepPathIsNew(q, depth, done, state, tried, e, before.tally);
    if before.edgeExpansions >= MAXIMUM_EDGE_EXPANSIONS {
      TooManyExpansions(q, limits, sizeOf, depth, ledger, done, state, |tried|, before);
    } else {
      NewPathIsSimple(q, limits.maxNodes, state, e, before.tally);
      hide StepPath, AddsState, AllFrom, SimplePath, Origin;
      if before.pathStates >= MAXIMUM_PATH_STATES {
        FoundAreSimple(q, limits.maxNodes, depth, before.tally);
        var found := FoundAt(depth + 1, before.tally) + {p};
        assert p !in FoundAt(depth + 1, before.tally);
        UnionOfStates(q, depth, ledger.known, found);
        TooManyStates(q, limits, sizeOf, depth + 1, ledger.known + found);
      } else {
        NoRoomOverflows(q, limits, sizeOf, depth, before.tally, p);
      }
    }
  }

  lemma NoRoomOverflows(q: Query, limits: Limits, sizeOf: CacheKey -> nat, depth: nat, t: Tally, p: Path)
    requires SimplePath(q, p) && |p.steps| == depth + 1 <= limits.maxDepth && p !in t.frontier && p !in t.paths
    requires LayerOf(q, depth + 1, t.frontier) && PathsSound(q, depth + 1, t.paths)
    requires NoRoomFor(q, limits, sizeOf, p, t)
    ensures Exceeded(q, limits, sizeOf)
  {
    assert p.nodes != [];
    hide SimplePath, Exceeded, TotalSteps, TotalBytes;
    if Continues(q, Last(p)) && |t.frontier| >= MAXIMUM_FRONTIER_STATES {
      TooWide(q, limits, sizeOf, depth + 1, t.frontier, p);
    } else {
      TooBulky(q, limits, sizeOf, t.paths, p);
    }
  }

  lemma NewPathIsSimple(q: Query, maxNodes: int, state: Path, e: Edge, t: Tally)
    requires SimplePath(q, state) && Expandable(q, state) && e in q.rows && CurrentNode(e, q.upstream) == Last(state)
    requires AddsState(q, maxNodes, state, e, t)
    ensures SimplePath(q, StepPath(q, state, e))
  {
    var s := Step(e, EvalEdge(e.content, q.context).value);
    assert StepJoins(q, s, Last(state), NextNode(e, q.upstream));
    ExtensionIsSimple(q, state, s, NextNode(e, q.upstream));
  }

  /** A step gives up a node only when the limit on nodes is below what can be reached. */
  lemma TruncationOverflows(q: Query, limits: Limits, sizeOf: CacheKey -> nat, depth: nat, state: Path, e: Edge, t: Tally)
    requires Extensible(q, depth, state) && e in q.rows && CurrentNode(e, q.upstream) == Last(state)
    requires depth < limits.maxDepth && VisitedSound(q, limits.maxDepth, limits.maxNodes, t.visited)
    requires Drops(q, limits.maxNodes, state, e, t)
    ensures TooMuch(q, limits, sizeOf) && Exceeded(q, limits, sizeOf)
  {
    var s := Step(e, EvalEdge(e.content, q.context).value);
    assert StepJoins(q, s, Last(state), NextNode(e, q.upstream));
    ExtensionIsSimple(q, state, s, NextNode(e, q.upstream));
    hide SimplePath, Exceeded, TooMuch;
    TooManyNodes(q, limits, sizeOf, t.visited, Extend(state, s, NextNode(e, q.upstream)));
  }

  /** Every step of a new path has the size its key says. */
  lemma StepSizesAgree(q: Query, encodedSize: Step -> nat, state: Path, e: Edge)
    requires UniqueRelations(q.rows) && SimplePath(q, state) && Expandable(q, state)
    requires e in q.rows && CurrentNode(e, q.upstream) == Last(state)
    requires EvalEdge(e.content, q.context).Success? && EvalEdge(e.content, q.context).value.truth != False
    requires NextNode(e, q.upstream) !in state.nodes
    ensures SizesAgree(encodedSize, SizesOf(q, encodedSize), StepPath(q, state, e).steps)
  {
    var s := Step(e, EvalEdge(e.content, q.context).value);
    assert StepJoins(q, s, Last(state), NextNode(e, q.upstream));
    ExtensionIsSimple(q, state, s, NextNode(e, q.upstream));
    SimpleSizesAgree(q, encodedSize, Extend(state, s, NextNode(e, q.upstream)));
  }

  /** One edge of one state: the layer stays sound, the edge is accounted for, and the counters keep counting. */
  method TryEdge(
    q: Query, limits: Limits, state: Path, edges: seq<Edge>, j: nat, before: Progress,
    evaluator: EdgeEvaluator, budget: ResultBudget, ghost depth: nat, ghost done: seq<Path>, ghost ledger: Ledger)
    returns (r: Result<Progress, TraceError>)
    requires Extensible(q, depth, state) && LayerOf(q, depth, done) && state !in done
    requires j < |edges| <= Degree(q, state) && edges[j] !in edges[..j]
    requires edges[j] in q.rows && CurrentNode(edges[j], q.upstream) == Last(state)
    requires evaluator.Valid() && evaluator.context == q.context && evaluator.rows == q.rows
    requires budget.Valid() && budget.Holds(before.tally.paths) && Sized(q, budget)
    requires |before.tally.paths| <= limits.maxPaths && !before.stopped
    requires LayerSound(q, limits.maxNodes, depth, done, state, edges[..j], before.tally)
    requires AllCovered(q, state, edges[..j], before.tally)
    requires Counted(q, depth, ledger, done, j, before) && LedgerSound(q, limits, budget.sizeOf, depth, ledger)
    requires Blameless(q, limits, budget.sizeOf, before)
    modifies evaluator, budget
    ensures evaluator.Valid() && budget.Valid()
    ensures r.Failure? ==> SomeEdgeFails(q)
    ensures r.Success? ==>
      && |r.value.tally.paths| <= limits.maxPaths && budget.Holds(r.value.tally.paths)
      && OutputSound(q, limits.maxNodes, depth + 1, r.value.tally) && Blameless(q, limits, budget.sizeOf, r.value)
    ensures r.Success? && !r.value.stopped ==>
      && LayerSound(q, limits.maxNodes, depth, done, state, edges[..j + 1], r.value.tally)
      && Grows(before.tally, r.value.tally)
      && AllCovered(q, state, edges[..j + 1], r.value.tally)
      && Counted(q, depth, ledger, done, j + 1, r.value)
  {
    hide StepTally, LayerSound, AllCovered, SimplePath, Exceeded, Stops, AddsState, Grows, StepPath;
    hide ExpandableLayers, SimpleSet, LayerOf, TotalDegree, Total, DegreeWeight, Degree;
    ghost var t := before.tally;
    ghost var u := StepTally(q, limits.maxNodes, state, edges[j], t);
    assert edges[..j + 1] == edges[..j] + [edges[j]];
    StepKeepsLayer(q, limits.maxNodes, depth, done, state, edges[..j], edges[j], t);
    StepGrows(q, limits.maxNodes, state, edges[j], t);
    CoverageStep(q, limits.maxNodes, state, edges, j, t);
    NewStateSizes(q, limits.maxNodes, budget.encodedSize, state, edges[j], t);
    r := FollowEdge(q, limits, state, edges[j], before, evaluator, budget);
    if r.Success? {
      if r.value.stopped {
        LayerParts(q, limits.maxNodes, depth, done, state, edges[..j], t);
        LayerParts(q, limits.maxNodes, depth, done, state, edges[..j + 1], u);
        PartlySound(q, limits.maxNodes, depth + 1, t, u, r.value.tally);
        StopOverflows(q, limits, budget.sizeOf, depth, done, state, edges[..j], edges[j], before, ledger);
      } else {
        StepCounts(q, limits, budget.sizeOf, depth, done, state, edges[..j], edges[j], t);
        LayerParts(q, limits.maxNodes, depth, done, state, edges[..j + 1], u);
      }
    }
  }

  lemma LayerParts(q: Query, maxNodes: int, depth: int, done: seq<Path>, state: Path, tried: seq<Edge>, t: Tally)
    requires LayerSound(q, maxNodes, depth, done, state, tried, t)
    ensures OutputSound(q, maxNodes, depth + 1, t) && LayerOf(q, depth + 1, t.frontier)
  {
  }

  lemma NewStateSizes(q: Query, maxNodes: int, encodedSize: Step -> nat, state: Path, e: Edge, t: Tally)
    requires UniqueRelations(q.rows) && SimplePath(q, state) && Expandable(q, state)
    requires e in q.rows && CurrentNode(e, q.upstream) == Last(state)
    ensures AddsState(q, maxNodes, state, e, t) ==> SizesAgree(encodedSize, SizesOf(q, encodedSize), StepPath(q, state, e).steps)
  {
    hide SimplePath, SizesAgree, SizesOf, StepPath;
    if AddsState(q, maxNodes, state, e, t) { StepSizesAgree(q, encodedSize, state, e); }
  }

  lemma OnlyDropsTruncate(q: Query, maxNodes: int, state: Path, e: Edge, t: Tally)
    requires !t.truncated && StepTally(q, maxNodes, state, e, t).truncated
    ensures Drops(q, maxNodes, state, e, t)
  {
  }

  /** A completed step: one state more exactly if it added one, and nothing given up without cause. */
  lemma StepCounts(
    q: Query, limits: Limits, sizeOf: CacheKey -> nat, depth: nat, done: seq<Path>, state: Path, tried: seq<Edge>, e: Edge, t: Tally)
    requires Extensible(q, depth, state) && state !in done && e !in tried
    requires e in q.rows && CurrentNode(e, q.upstream) == Last(state)
    requires LayerSound(q, limits.maxNodes, depth, done, state, tried, t)
    requires depth < limits.maxDepth && (t.truncated ==> Exceeded(q, limits, sizeOf))
    ensures var u := StepTally(q, limits.maxNodes, state, e, t);
      && |FoundAt(depth + 1, u)| == |FoundAt(depth + 1, t)| + (if AddsState(q, limits.maxNodes, state, e, t) then 1 else 0)
      && (u.truncated ==> Exceeded(q, limits, sizeOf))
  {
    assert state.nodes != [];
    hide SimplePath, Exceeded, TooMuch, StepTally, AddsState, StepPath, FoundAt, Origin, Drops;
    StepPathIsNew(q, depth, done, state, tried, e, t);
    CountStep(q, limits.maxNodes, depth, state, e, t);
    if !t.truncated && StepTally(q, limits.maxNodes, state, e, t).truncated {
      OnlyDropsTruncate(q, limits.maxNodes, state, e, t);
      SoundDeeper(q, depth + 1, limits.maxDepth, limits.maxNodes, t.visited, false);
      TruncationOverflows(q, limits, sizeOf, depth, state, e, t);
    }
  }

  /** Expands one state in full. */
  method ExpandState(
    q: Query, limits: Limits, state: Path, edges: seq<Edge>, before: Progress,
    evaluator: EdgeEvaluator, budget: ResultBudget, ghost depth: nat, ghost done: seq<Path>, ghost ledger: Ledger)
    returns (r: Result<Progress, TraceError>)
    requires evaluator.Valid() && evaluator.context == q.context && evaluator.rows == q.rows
    requires budget.Valid() && budget.Holds(before.tally.paths) && Sized(q, budget)
    requires |before.tally.paths| <= limits.maxPaths && !before.stopped
    requires Extensible(q, depth, state) && LayerOf(q, depth, done) && state !in done
    requires LayerSound(q, limits.maxNodes, depth, done, state, [], before.tally)
    requires Distinct(edges) && |edges| <= Degree(q, state) && (ledger.full ==> |edges| == Degree(q, state))
    requires forall e :: e in edges ==> e in q.rows && CurrentNode(e, q.upstream) == Last(state)
    requires Counted(q, depth, ledger, done, 0, before) && LedgerSound(q, limits, budget.sizeOf, depth, ledger)
    requires Blameless(q, limits, budget.sizeOf, before)
    modifies evaluator, budget
    ensures evaluator.Valid() && budget.Valid()
    ensures r.Failure? ==> SomeEdgeFails(q)
    ensures r.Success? ==>
      && |r.value.tally.paths| <= limits.maxPaths && budget.Holds(r.value.tally.paths)
      && OutputSound(q, limits.maxNodes, depth + 1, r.value.tally) && Blameless(q, limits, budget.sizeOf, r.value)
    ensures r.Success? && !r.value.stopped ==>
      && LayerSound(q, limits.maxNodes, depth, done, state, edges, r.value.tally)
      && Grows(before.tally, r.value.tally)
      && AllCovered(q, state, edges, r.value.tally)
      && Counted(q, depth, ledger, done + [state], 0, r.value)
  {
    hide LayerSound, AllCovered, SimplePath, Exceeded, Counted, LedgerSound, LayerOf, OutputSound, FoundAt, SomeEdgeFails;
    hide Degree;
    var progress := before;
    NothingTried(q, limits.maxNodes, depth, done, state, before.tally);
    assert edges[..0] == [];
    hide Grows;
    for j := 0 to |edges|
      invariant evaluator.Valid() && budget.Valid() && budget.Holds(progress.tally.paths) && Sized(q, budget)
      invariant |progress.tally.paths| <= limits.maxPaths && !progress.stopped
      invariant LayerSound(q, limits.maxNodes, depth, done, state, edges[..j], progress.tally)
      invariant Grows(before.tally, progress.tally)
      invariant AllCovered(q, state, edges[..j], progress.tally)
      invariant Counted(q, depth, ledger, done, j, progress) && Blameless(q, limits, budget.sizeOf, progress)
    {
      ghost var t := progress.tally;
      progress :- TryEdge(q, limits, state, edges, j, progress, evaluator, budget, depth, done, ledger);
      if progress.stopped { return Success(progress); }
      GrowsTransitive(before.tally, t, progress.tally);
    }
    assert edges[..|edges|] == edges;
    LayerParts(q, limits.maxNodes, depth, done, state, edges, progress.tally);
    StateExpanded(q, depth, ledger, done, state, |edges|, progress);
    return Success(progress);
  }

  lemma NothingTried(q: Query, maxNodes: int, depth: int, done: seq<Path>, state: Path, t: Tally)
    requires LayerSound(q, maxNodes, depth, done, state, [], t)
    ensures AllCovered(q, state, [], t) && Grows(t, t) && OutputSound(q, maxNodes, depth + 1, t)
  {
  }

  lemma StateExpanded(q: Query, depth: nat, ledger: Ledger, done: seq<Path>, state: Path, n: nat, p: Progress)
    requires Counted(q, depth, ledger, done, n, p) && (ledger.full ==> n == Degree(q, state))
    ensures Counted(q, depth, ledger, done + [state], 0, p)
  {
    TotalAppend(DegreeWeight(q), done, state);
  }

  lemma DistinctSubsequence(s: seq<Edge>, rows: seq<Edge>)
    requires Distinct(s) && forall e :: e in s ==> e in rows
    ensures |s| <= |rows|
  {
    DistinctCardinality(s);
    ElementsAtMost(rows);
    SubsetCardinality((set e | e in s), (set e | e in rows));
  }

  lemma {:induction false} ElementsAtMost<T>(s: seq<T>)
    ensures |set x | x in s| <= |s|
  {
    if s != [] {
      var front, last := s[..|s| - 1], s[|s| - 1];
      ElementsAtMost(front);
      assert (set x | x in s) == (set x | x in front) + {last};
    }
  }

  /** Covering is about what a state can still contribute; a layer covers its states one by one. */
  ghost predicate LayerCovered(q: Query, rows: seq<Edge>, states: seq<Path>, t: Tally) {
    !t.truncated ==> forall i :: 0 <= i < |states| ==>
      && states[i].nodes != []
      && forall e :: e in rows && CurrentNode(e, q.upstream) == Last(states[i]) ==> Covered(q, states[i], e, t)
  }

  lemma LayerCoverage(q: Query, rows: seq<Edge>, states: seq<Path>, i: nat, t: Tally, u: Tally)
    requires i < |states| && states[i].nodes != [] && Grows(t, u)
    requires LayerCovered(q, rows, states[..i], t)
    requires AllCovered(q, states[i], EdgesFrom(rows, q.upstream, Last(states[i])), u)
    ensures LayerCovered(q, rows, states[..i + 1], u)
  {
    if !u.truncated {
      EdgesFromMembers(rows, q.upstream, Last(states[i]));
      forall k, e | 0 <= k < i && e in rows && states[k].nodes != [] && CurrentNode(e, q.upstream) == Last(states[k])
        ensures Covered(q, states[k], e, u)
      {
        assert states[..i][k] == states[k];
        CoveredGrows(q, states[k], e, t, u);
      }
      forall k | 0 <= k < i ensures states[k].nodes != [] { assert states[..i][k] == states[k]; }
    }
  }

  /** What was loaded for a frontier: distinct rows, and, unless the load was cut short, all rows out of it. */
  ghost predicate Loaded(q: Query, frontier: seq<Path>, loaded: seq<Edge>, full: bool) {
    && Distinct(loaded) && (forall e :: e in loaded ==> e in q.rows)
    && (full ==> loaded == Matching(q.rows, q.upstream, EndNodes(frontier)))
  }

  lemma StateEdges(q: Query, frontier: seq<Path>, loaded: seq<Edge>, full: bool, state: Path, edges: seq<Edge>)
    requires Loaded(q, frontier, loaded, full) && state in frontier && state.nodes != []
    requires edges == EdgesFrom(loaded, q.upstream, Last(state))
    ensures |edges| <= Degree(q, state) && (full ==> |edges| == Degree(q, state))
  {
    var n := Last(state);
    if full {
      MatchingKeepsEdges(q.rows, q.upstream, EndNodes(frontier), n);
    } else {
      EdgesFromMembers(loaded, q.upstream, n);
      EdgesFromMembers(q.rows, q.upstream, n);
      EdgesFromDistinct(loaded, q.upstream, n);
      DistinctSubsequence(edges, EdgesFrom(q.rows, q.upstream, n));
    }
  }

  /** Expands the i-th state of the frontier with the edges loaded for its node. */
  method ExpandNext(
    q: Query, limits: Limits, frontier: seq<Path>, i: nat, loaded: seq<Edge>, edgesByNode: map<int, seq<Edge>>,
    before: Progress, evaluator: EdgeEvaluator, budget: ResultBudget, ghost depth: nat, ghost ledger: Ledger)
    returns (r: Result<Progress, TraceError>)
    requires i < |frontier| && LayerOf(q, depth, frontier)
    requires Loaded(q, frontier, loaded, ledger.full)
    requires forall n :: EdgesFrom(loaded, q.upstream, n) == if n in edgesByNode then edgesByNode[n] else []
    requires evaluator.Valid() && evaluator.context == q.context && evaluator.rows == q.rows
    requires budget.Valid() && budget.Holds(before.tally.paths) && Sized(q, budget)
    requires |before.tally.paths| <= limits.maxPaths && !before.stopped
    requires LayerSound(q, limits.maxNodes, depth, frontier[..i], Root(q), [], before.tally)
    requires LayerCovered(q, loaded, frontier[..i], before.tally)
    requires Counted(q, depth, ledger, frontier[..i], 0, before) && LedgerSound(q, limits, budget.sizeOf, depth, ledger)
    requires Blameless(q, limits, budget.sizeOf, before)
    modifies evaluator, budget
    ensures evaluator.Valid() && budget.Valid()
    ensures r.Failure? ==> SomeEdgeFails(q)
    ensures r.Success? ==>
      && |r.value.tally.paths| <= limits.maxPaths && budget.Holds(r.value.tally.paths)
      && OutputSound(q, limits.maxNodes, depth + 1, r.value.tally) && Blameless(q, limits, budget.sizeOf, r.value)
    ensures r.Success? && !r.value.stopped ==>
      && LayerSound(q, limits.maxNodes, depth, frontier[..i + 1], Root(q), [], r.value.tally)
      && Grows(before.tally, r.value.tally)
      && LayerCovered(q, loaded, frontier[..i + 1], r.value.tally)
      && Counted(q, depth, ledger, frontier[..i + 1], 0, r.value)
  {
    hide Counted, LedgerSound, Exceeded, SomeEdgeFails, OutputSound, FoundAt;
    var current := frontier[i];
    assert Extensible(q, depth, current) && current !in frontier[..i];
    var node := Last(current);
    var edges := if node in edgesByNode then edgesByNode[node] else [];
    assert edges == EdgesFrom(loaded, q.upstream, node);
    EdgesFromMembers(loaded, q.upstream, node);
    EdgesFromDistinct(loaded, q.upstream, node);
    StateEdges(q, frontier, loaded, ledger.full, current, edges);
    assert LayerOf(q, depth, frontier[..i]);
    SwitchState(q, limits.maxNodes, depth, frontier[..i], Root(q), current, before.tally);
    r := ExpandState(q, limits, current, edges, before, evaluator, budget, depth, frontier[..i], ledger);
    if r.Success? && !r.value.stopped {
      LayerCoverage(q, loaded, frontier, i, before.tally, r.value.tally);
      assert frontier[..i + 1] == frontier[..i] + [current];
      NextState(q, limits.maxNodes, depth, frontier[..i], current, edges, Root(q), r.value.tally);
    }
  }

  method ExpandLayer(
    q: Query, limits: Limits, frontier: seq<Path>, loaded: seq<Edge>, before: Progress,
    evaluator: EdgeEvaluator, budget: ResultBudget, ghost depth: nat, ghost ledger: Ledger)
    returns (r: Result<Progress, TraceError>)
    requires evaluator.Valid() && evaluator.context == q.context && evaluator.rows == q.rows
    requires budget.Valid() && budget.Holds(before.tally.paths) && Sized(q, budget)
    requires |before.tally.paths| <= limits.maxPaths && !before.stopped && before.tally.frontier == []
    requires Counted(q, depth, ledger, [], 0, before) && LedgerSound(q, limits, budget.sizeOf, depth, ledger)
    requires Blameless(q, limits, budget.sizeOf, before)
    requires LayerOf(q, depth, frontier) && OutputSound(q, limits.maxNodes, depth, before.tally)
    requires Loaded(q, frontier, loaded, ledger.full)
    modifies evaluator, budget
    ensures evaluator.Valid() && budget.Valid()
    ensures r.Failure? ==> SomeEdgeFails(q)
    ensures r.Success? ==>
      && |r.value.tally.paths| <= limits.maxPaths && budget.Holds(r.value.tally.paths)
      && OutputSound(q, limits.maxNodes, depth + 1, r.value.tally) && Blameless(q, limits, budget.sizeOf, r.value)
    ensures r.Success? && !r.value.stopped ==>
      && LayerOf(q, depth + 1, r.value.tally.frontier)
      && Grows(before.tally, r.value.tally)
      && LayerCovered(q, loaded, frontier, r.value.tally)
      && Counted(q, depth, ledger, frontier, 0, r.value)
  {
    hide OutputSound, LayerCovered, Grows, Counted, LedgerSound, Exceeded, SomeEdgeFails, FoundAt, Sized, Blameless, Loaded;
    hide EdgeEvaluator.Valid, ResultBudget.Valid, ResultBudget.Holds, TotalSteps, TotalBytes;
    var edgesByNode := GroupEdges(loaded, q.upstream);
    var progress := before;
    LayerStarts(q, limits.maxNodes, depth, loaded, before.tally);
    assert frontier[..0] == [];
    hide LayerSound, LayerOf;
    for i := 0 to |frontier|
      invariant evaluator.Valid() && budget.Valid() && budget.Holds(progress.tally.paths) && Sized(q, budget)
      invariant |progress.tally.paths| <= limits.maxPaths && !progress.stopped
      invariant LayerSound(q, limits.maxNodes, depth, frontier[..i], Root(q), [], progress.tally)
      invariant Grows(before.tally, progress.tally)
      invariant LayerCovered(q, loaded, frontier[..i], progress.tally)
      invariant Counted(q, depth, ledger, frontier[..i], 0, progress) && Blameless(q, limits, budget.sizeOf, progress)
    {
      ghost var t := progress.tally;
      progress :- ExpandNext(q, limits, frontier, i, loaded, edgesByNode, progress, evaluator, budget, depth, ledger);
      if progress.stopped { return Success(progress); }
      GrowsTransitive(before.tally, t, progress.tally);
    }
    assert frontier[..|frontier|] == frontier;
    LayerEnds(q, limits.maxNodes, depth, frontier, progress.tally);
    return Success(progress);
  }

  lemma LayerStarts(q: Query, maxNodes: int, depth: nat, loaded: seq<Edge>, t: Tally)
    requires OutputSound(q, maxNodes, depth, t) && t.frontier == []
    ensures LayerSound(q, maxNodes, depth, [], Root(q), [], t)
    ensures Grows(t, t) && LayerCovered(q, loaded, [], t)
  {
    SoundDeeper(q, depth, depth + 1, maxNodes, t.visited, t.cycle);
  }

  lemma LayerEnds(q: Query, maxNodes: int, depth: nat, done: seq<Path>, t: Tally)
    requires LayerSound(q, maxNodes, depth, done, Root(q), [], t)
    ensures LayerOf(q, depth + 1, t.frontier) && OutputSound(q, maxNodes, depth + 1, t)
  {
  }

  predicate ValidLimits(limits: Limits) {
    1 <= limits.maxDepth <= 64 && 1 <= limits.maxNodes <= 10000 && 1 <= limits.maxPaths <= 10000
  }

  lemma UniqueRowsDetermine(rows: seq<Edge>)
    requires UniqueRelations(rows)
    ensures Distinct(rows) && VersionsDetermineContent(rows)
  {
  }

  lemma LoadedLayerCovers(q: Query, nodes: set<int>, frontier: seq<Path>, t: Tally)
    requires forall p :: p in frontier ==> p.nodes != [] && Last(p) in nodes
    requires LayerCovered(q, Matching(q.rows, q.upstream, nodes), frontier, t) && !t.truncated
    ensures forall i :: 0 <= i < |frontier| ==> frontier[i].nodes != [] && StateCovered(q, frontier[i], t)
  {
    MatchingMembers(q.rows, q.upstream, nodes);
  }

  function Finish(t: Tally, truncated: bool): TraceResult {
    TraceResult(t.paths, |t.visited|, t.cycle, truncated)
  }

  lemma OutputWithinLimits(q: Query, limits: Limits, depth: nat, t: Tally, truncated: bool)
    requires OutputSound(q, limits.maxNodes, depth, t) && depth <= limits.maxDepth
    requires |t.paths| <= limits.maxPaths
    ensures WithinLimits(q, limits, Finish(t, truncated)) && ShortestFirst(t.paths)
  {
    VisitedAreReached(q, depth, t.visited);
    assert t.cycle ==> CycleReachable(q);
    SubsetCardinality({q.start}, t.visited);
  }

  /** What the traversal knows between two layers. */
  ghost predicate BetweenLayers(q: Query, limits: Limits, depth: nat, progress: Progress, ledger: Ledger) {
    && |progress.tally.paths| <= limits.maxPaths && !progress.stopped
    && LayerOf(q, depth, progress.tally.frontier)
    && OutputSound(q, limits.maxNodes, depth, progress.tally)
    && (!progress.tally.truncated ==>
          LevelComplete(q, depth, progress.tally.frontier, progress.tally) && LedgerComplete(q, depth, ledger))
  }

  /** The counters between two layers: every layer before this one was loaded and expanded in full, and there was
      budget left before each. */
  ghost predicate CountedLayer(q: Query, depth: nat, loadedBytes: int, ledger: Ledger, p: Progress) {
    && ledger.full && |ledger.layers| == depth && ExpandableLayers(q, ledger.layers) && SimpleSet(q, depth, ledger.known)
    && p.pathStates == |ledger.known| && p.edgeExpansions == TotalDegree(q, ledger.layers)
    && loadedBytes == TotalLoad(q, ledger.layers) <= MAXIMUM_LOADED_EDGE_BYTES && WithinBudget(p)
    && (forall i :: 0 <= i < depth ==> Affordable(q, ledger.layers, i))
  }

  /** When layer `i` was loaded, budget was left, and it fitted the frontier. */
  ghost predicate Affordable(q: Query, layers: seq<seq<Path>>, i: nat)
    requires i < |layers|
  {
    |layers[i]| <= MAXIMUM_FRONTIER_STATES && !Spent(q, layers[..i])
  }

  /** No shorter path is missing from what is known. */
  ghost predicate LedgerComplete(q: Query, depth: nat, ledger: Ledger) {
    && (forall p :: SimplePath(q, p) && |p.steps| <= depth ==> p in ledger.known)
    && (forall p: Path :: Extensible(q, |p.steps|, p) && |p.steps| < depth ==>
      |p.steps| < |ledger.layers| && p in ledger.layers[|p.steps|])
  }

  ghost function RootLedger(q: Query): Ledger {
    Ledger({Root(q)}, [], true)
  }

  lemma RootCounted(q: Query)
    ensures CountedLayer(q, 0, 0, RootLedger(q), Progress(Tally([Root(q)], [], {q.start}, false, false), 1, 0, false))
    ensures LedgerComplete(q, 0, RootLedger(q))
  {
    RootIsSimple(q);
    forall p | SimplePath(q, p) && |p.steps| <= 0 ensures p == Root(q) {
      assert p.nodes == [q.start] && p.steps == [];
    }
  }

  /** A layer starts with nothing found. */
  lemma LayerCountStarts(q: Query, limits: Limits, sizeOf: CacheKey -> nat, depth: nat, loadedBytes: int, ledger: Ledger, full: bool, p: Progress)
    requires CountedLayer(q, depth, loadedBytes, ledger, p) && OutputSound(q, limits.maxNodes, depth, p.tally)
    requires depth < limits.maxDepth && (full || Exceeded(q, limits, sizeOf))
    ensures Counted(q, depth, ledger.(full := full), [], 0, p.(tally := p.tally.(frontier := [])))
    ensures LedgerSound(q, limits, sizeOf, depth, ledger.(full := full))
    ensures OutputSound(q, limits.maxNodes, depth, p.tally.(frontier := []))
  {
    assert FoundAt(depth + 1, p.tally.(frontier := [])) == {};
  }

  /** What is known after a layer. */
  ghost function NextLedger(depth: nat, frontier: seq<Path>, ledger: Ledger, p: Progress): Ledger {
    Ledger(ledger.known + FoundAt(depth + 1, p.tally), ledger.layers + [frontier], true)
  }

  /** A layer ends with as many new states as paths found. */
  lemma LayerCountEnds(
    q: Query, maxNodes: int, depth: nat, loadedBytes: int, consumed: int, ledger: Ledger, before: Progress, p: Progress)
    requires CountedLayer(q, depth, loadedBytes, ledger, before) && LayerOf(q, depth, before.tally.frontier)
    requires Counted(q, depth, ledger, before.tally.frontier, 0, p)
    requires LayerOf(q, depth + 1, p.tally.frontier) && OutputSound(q, maxNodes, depth + 1, p.tally)
    requires !Spent(q, ledger.layers)
    requires consumed == LoadOf(q, before.tally.frontier) <= MAXIMUM_LOADED_EDGE_BYTES - loadedBytes
    ensures CountedLayer(q, depth + 1, loadedBytes + consumed, NextLedger(depth, before.tally.frontier, ledger, p), p)
  {
    hide Spent, FoundAt, LoadOf, Total, DegreeWeight, TotalDegree, TotalLoad, SimpleSet, LayerOf, OutputSound, SimplePath;
    hide Affordable, ExpandableLayers;
    var frontier := before.tally.frontier;
    FoundAreSimple(q, maxNodes, depth, p.tally);
    UnionOfStates(q, depth, ledger.known, FoundAt(depth + 1, p.tally));
    CostsAppend(q, ledger.layers, frontier);
    LayersAppend(q, ledger.layers, frontier);
    StillAffordable(q, ledger.layers, frontier);
  }

  lemma StillAffordable(q: Query, layers: seq<seq<Path>>, frontier: seq<Path>)
    requires forall i :: 0 <= i < |layers| ==> Affordable(q, layers, i)
    requires |frontier| <= MAXIMUM_FRONTIER_STATES && !Spent(q, layers)
    ensures forall i :: 0 <= i < |layers| + 1 ==> Affordable(q, layers + [frontier], i)
  {
    hide Spent;
    forall i | 0 <= i < |layers| + 1 ensures Affordable(q, layers + [frontier], i) {
      if i < |layers| {
        assert Affordable(q, layers, i);
        assert (layers + [frontier])[..i] == layers[..i];
      } else {
        assert (layers + [frontier])[..i] == layers;
      }
    }
  }

  /** And with nothing missing, if nothing was given up. */
  lemma LedgerGrows(q: Query, depth: nat, ledger: Ledger, frontier: seq<Path>, p: Progress)
    requires LedgerComplete(q, depth, ledger) && |ledger.layers| == depth
    requires forall x :: Extensible(q, depth, x) ==> x in frontier
    requires LevelComplete(q, depth + 1, p.tally.frontier, p.tally)
    ensures LedgerComplete(q, depth + 1, NextLedger(depth, frontier, ledger, p))
  {
    var next := NextLedger(depth, frontier, ledger, p);
    forall x | SimplePath(q, x) && |x.steps| <= depth + 1 ensures x in next.known {
      if |x.steps| == depth + 1 {
        if Expandable(q, x) { assert Extensible(q, depth + 1, x); } else { assert Reported(q, x); }
        assert x in FoundAt(depth + 1, p.tally);
      }
    }
  }

  /** Before the load, the budgets may be spent already. */
  lemma SpentOverflows(q: Query, limits: Limits, sizeOf: CacheKey -> nat, depth: nat, ledger: Ledger, frontier: seq<Path>)
    requires |ledger.layers| == depth < limits.maxDepth && ExpandableLayers(q, ledger.layers)
    requires LayerOf(q, depth, frontier) && frontier != [] && Spent(q, ledger.layers)
    ensures Exceeded(q, limits, sizeOf)
  {
    hide LayerOf, Spent, TooMuch;
    var layers := ledger.layers + [frontier];
    LayersAppend(q, ledger.layers, frontier);
    assert layers[..|layers| - 1] == ledger.layers;
    assert CostlyLayers(q, limits, layers);
  }

  /** The load is cut short only when the layer costs more than is left. */
  lemma LoadOverflows(
    q: Query, limits: Limits, sizeOf: CacheKey -> nat, depth: nat, loadedBytes: int, ledger: Ledger, p: Progress)
    requires CountedLayer(q, depth, loadedBytes, ledger, p) && depth < limits.maxDepth
    requires LayerOf(q, depth, p.tally.frontier) && p.tally.frontier != []
    requires var matching := Matching(q.rows, q.upstream, EndNodes(p.tally.frontier));
      || Spent(q, ledger.layers) || |matching| > MAXIMUM_EDGE_EXPANSIONS - p.edgeExpansions
      || RowBytes(matching) > MAXIMUM_LOADED_EDGE_BYTES - loadedBytes
    ensures Exceeded(q, limits, sizeOf)
  {
    var frontier := p.tally.frontier;
    if Spent(q, ledger.layers) {
      SpentOverflows(q, limits, sizeOf, depth, ledger, frontier);
    } else {
      hide LayerOf, TooMuch;
      LoadedAtMostTried(q, frontier);
      CostsAppend(q, ledger.layers, frontier);
      LayersAppend(q, ledger.layers, frontier);
      assert CostlyLayers(q, limits, ledger.layers + [frontier]);
    }
  }

  /** The program's counters say whether a budget is spent. */
  lemma CountersOf(q: Query, depth: nat, loadedBytes: int, ledger: Ledger, p: Progress)
    requires CountedLayer(q, depth, loadedBytes, ledger, p)
    ensures 0 <= loadedBytes <= MAXIMUM_LOADED_EDGE_BYTES && p.edgeExpansions <= MAXIMUM_EDGE_EXPANSIONS
    ensures Spent(q, ledger.layers) <==>
      MAXIMUM_EDGE_EXPANSIONS - p.edgeExpansions <= 0 || MAXIMUM_LOADED_EDGE_BYTES - loadedBytes <= 0
    ensures |ledger.layers| == depth && ledger.full
  {
  }

  lemma FrontierNodes(q: Query, depth: int, frontier: seq<Path>)
    requires LayerOf(q, depth, frontier)
    ensures forall p :: p in frontier ==> p.nodes != [] && Last(p) in EndNodes(frontier)
  {
  }

  lemma NodeSet(frontier: seq<Path>, nodeIDs: seq<int>)
    requires forall p :: p in frontier ==> p.nodes != []
    requires forall n :: n in nodeIDs <==> exists i :: 0 <= i < |frontier| && Last(frontier[i]) == n
    ensures (set n | n in nodeIDs) == EndNodes(frontier) && (frontier != [] ==> nodeIDs != [])
  {
    forall n | n in nodeIDs ensures n in EndNodes(frontier) {
      var i :| 0 <= i < |frontier| && Last(frontier[i]) == n;
      assert frontier[i] in frontier;
    }
    forall n | n in EndNodes(frontier) ensures n in nodeIDs {
      var p :| p in frontier && p.nodes != [] && Last(p) == n;
      var i :| 0 <= i < |frontier| && frontier[i] == p;
    }
    if frontier != [] { assert Last(frontier[0]) in nodeIDs; }
  }

  lemma StoppedOutput(q: Query, maxNodes: int, depth: int, t: Tally)
    requires OutputSound(q, maxNodes, depth, t)
    ensures OutputSound(q, maxNodes, depth + 1, t)
  {
    SoundDeeper(q, depth, depth + 1, maxNodes, t.visited, t.cycle);
  }

  lemma FrontierComplete(q: Query, depth: nat, frontier: seq<Path>, t: Tally)
    requires LevelComplete(q, depth, frontier, t)
    ensures forall p :: Extensible(q, depth, p) ==> p in frontier
  {
  }

  /** Loads the edges of the frontier and expands it; stops when a budget ran out on the way. The program also
      checks that the bytes reported by the load are within what it allowed; they always are. */
  method TraceLayer(
    q: Query, limits: Limits, repository: Repository, before: Progress, loadedBytes: int,
    evaluator: EdgeEvaluator, budget: ResultBudget, ghost depth: nat, ghost ledger: Ledger)
    returns (r: Result<Progress, TraceError>, newLoadedBytes: int, ghost newLedger: Ledger)
    requires repository.rows == q.rows && UniqueRelations(q.rows)
    requires evaluator.Valid() && evaluator.context == q.context && evaluator.rows == q.rows
    requires budget.Valid() && budget.Holds(before.tally.paths) && Sized(q, budget)
    requires BetweenLayers(q, limits, depth, before, ledger) && before.tally.frontier != [] && depth < limits.maxDepth
    requires CountedLayer(q, depth, loadedBytes, ledger, before) && Blameless(q, limits, budget.sizeOf, before)
    modifies evaluator, budget
    ensures evaluator.Valid() && budget.Valid()
    ensures r.Failure? ==> SomeEdgeFails(q)
    ensures r.Success? ==>
      && |r.value.tally.paths| <= limits.maxPaths && budget.Holds(r.value.tally.paths)
      && OutputSound(q, limits.maxNodes, depth + 1, r.value.tally) && Blameless(q, limits, budget.sizeOf, r.value)
    ensures r.Success? && !r.value.stopped ==>
      && BetweenLayers(q, limits, depth + 1, r.value, newLedger)
      && CountedLayer(q, depth + 1, newLoadedBytes, newLedger, r.value)
  {
    hide Counted, CountedLayer, LedgerSound, LedgerComplete, Exceeded, SomeEdgeFails, FoundAt, LevelComplete, LayerCovered;
    hide RowBytes, Grows, Spent, NextLedger, LayerOf, OutputSound, Matching, Sized, Distinct, UniqueRelations;
    hide ResultBudget.Valid, ResultBudget.Holds, EdgeEvaluator.Valid;
    newLoadedBytes, newLedger := loadedBytes, ledger;
    UniqueRowsDetermine(q.rows);
    var frontier := before.tally.frontier;
    FrontierNodes(q, depth, frontier);
    var nodeIDs := UniqueFrontierNodes(frontier);
    var remainingBytes := MAXIMUM_LOADED_EDGE_BYTES - loadedBytes;
    ghost var nodes := set n | n in nodeIDs;
    ghost var matching := Matching(q.rows, q.upstream, nodes);
    NodeSet(frontier, nodeIDs);
    CountersOf(q, depth, loadedBytes, ledger, before);
    if remainingBytes <= 0 {
      LoadOverflows(q, limits, budget.sizeOf, depth, loadedBytes, ledger, before);
      StoppedOutput(q, limits.maxNodes, depth, before.tally);
      return Success(before.(stopped := true)), newLoadedBytes, newLedger;
    }
    var edges, edgesTruncated, consumed := repository.LoadEdges(
      nodeIDs, q.upstream, MAXIMUM_EDGE_EXPANSIONS - before.edgeExpansions, remainingBytes);
    newLoadedBytes := loadedBytes + consumed;
    LoadedRows(q.rows, q.upstream, nodes, edges);
    if edgesTruncated { LoadOverflows(q, limits, budget.sizeOf, depth, loadedBytes, ledger, before); }
    LayerCountStarts(q, limits, budget.sizeOf, depth, loadedBytes, ledger, !edgesTruncated, before);
    var progress :- ExpandLayer(q, limits, frontier, edges, before.(tally := before.tally.(frontier := [])),
                                evaluator, budget, depth, ledger.(full := !edgesTruncated));
    if edgesTruncated {
      progress := progress.(stopped := true);
    } else if !progress.stopped {
      LayerCountEnds(q, limits.maxNodes, depth, loadedBytes, consumed, ledger, before, progress);
      newLedger := NextLedger(depth, frontier, ledger, progress);
      CompleteAfter(q, limits, depth, ledger, before, progress);
    }
    return Success(progress), newLoadedBytes, newLedger;
  }

  /** A layer expanded in full, with nothing given up, leaves nothing missing. */
  lemma CompleteAfter(q: Query, limits: Limits, depth: nat, ledger: Ledger, before: Progress, p: Progress)
    requires BetweenLayers(q, limits, depth, before, ledger) && |ledger.layers| == depth
    requires LayerCovered(q, Matching(q.rows, q.upstream, EndNodes(before.tally.frontier)), before.tally.frontier, p.tally)
    requires Grows(before.tally.(frontier := []), p.tally)
    ensures !p.tally.truncated ==>
      && LevelComplete(q, depth + 1, p.tally.frontier, p.tally)
      && LedgerComplete(q, depth + 1, NextLedger(depth, before.tally.frontier, ledger, p))
  {
    if !p.tally.truncated {
      var frontier := before.tally.frontier;
      assert !before.tally.truncated;
      FrontierNodes(q, depth, frontier);
      LoadedLayerCovers(q, EndNodes(frontier), frontier, p.tally);
      FrontierComplete(q, depth, frontier, before.tally);
      hide Matching, LayerOf, LayerCovered, LevelComplete, LedgerComplete, Extensible, OutputSound;
      NextLevel(q, depth, frontier, before.tally, p.tally);
      LedgerGrows(q, depth, ledger, frontier, p);
    }
  }

  // ----- the end of the search -------------------------------------------------------------------

  /** Every simple path within the depth limit has been found, and every layer is as wide as it can be. */
  ghost predicate Exhausted(q: Query, limits: Limits, depth: nat, ledger: Ledger, t: Tally) {
    && |ledger.layers| == depth <= limits.maxDepth && (t.frontier == [] || depth == limits.maxDepth)
    && (forall p :: SimplePath(q, p) && |p.steps| <= limits.maxDepth ==> Accounted(q, depth, ledger, t, p))
    && (forall p :: SimplePath(q, p) && |p.steps| <= limits.maxDepth && Expandable(q, p) ==> Queued(depth, ledger, t, p))
  }

  ghost predicate Accounted(q: Query, depth: nat, ledger: Ledger, t: Tally, p: Path) {
    |p.steps| <= depth && p in ledger.known && p.nodes != [] && Last(p) in t.visited && (Reported(q, p) ==> p in t.paths)
  }

  ghost predicate Queued(depth: nat, ledger: Ledger, t: Tally, p: Path) {
    if |p.steps| < |ledger.layers| then p in ledger.layers[|p.steps|] else |p.steps| == depth && p in t.frontier
  }

  lemma SearchEnds(q: Query, limits: Limits, depth: nat, ledger: Ledger, t: Tally)
    requires LevelComplete(q, depth, t.frontier, t) && LedgerComplete(q, depth, ledger) && |ledger.layers| == depth
    requires depth <= limits.maxDepth && (t.frontier == [] || depth == limits.maxDepth)
    ensures Exhausted(q, limits, depth, ledger, t)
  {
    if t.frontier == [] { EmptyFrontierIsDeepest(q, depth, t); }
    hide SimplePath, Reported;
    forall p | SimplePath(q, p) && |p.steps| <= limits.maxDepth
      ensures Accounted(q, depth, ledger, t, p) && (p.nodes != [] && Expandable(q, p) ==> Queued(depth, ledger, t, p))
    {
      HasNodes(q, p);
      if Expandable(q, p) { assert Extensible(q, |p.steps|, p); }
    }
  }

  lemma HasNodes(q: Query, p: Path)
    requires SimplePath(q, p)
    ensures p.nodes != []
  {
  }

  /** What an exhausted search kept within its limits is all there is within them. */
  lemma NothingTooMuch(q: Query, limits: Limits, sizeOf: CacheKey -> nat, depth: nat, ledger: Ledger, p: Progress)
    requires Exhausted(q, limits, depth, ledger, p.tally) && OutputSound(q, limits.maxNodes, depth, p.tally)
    requires |ledger.known| <= MAXIMUM_PATH_STATES && LayersFit(ledger.layers + [p.tally.frontier])
    requires Distinct(p.tally.paths) && PathsFit(limits, sizeOf, p.tally.paths)
    ensures !TooMuch(q, limits, sizeOf)
  {
    hide LayersFit, PathsFit, SimplePath, OutputSound;
    NodesFit(q, limits, depth, ledger, p.tally);
    forall paths ensures !Bulky(q, limits, sizeOf, paths) {
      if PathsSound(q, limits.maxDepth, paths) { PartFits(q, limits, sizeOf, depth, ledger, p.tally, paths); }
    }
    forall s ensures !Crowded(q, limits.maxDepth, s) {
      if SimpleSet(q, limits.maxDepth, s) {
        assert s <= ledger.known;
        SubsetCardinality(s, ledger.known);
      }
    }
    forall d, layer ensures !Wide(q, limits, d, layer) {
      if d <= limits.maxDepth && LayerOf(q, d, layer) { LayerFits(q, limits, depth, ledger, p.tally, d, layer); }
    }
  }

  ghost predicate LayersFit(layers: seq<seq<Path>>) {
    forall i :: 0 <= i < |layers| ==> |layers[i]| <= MAXIMUM_FRONTIER_STATES
  }

  ghost predicate PathsFit(limits: Limits, sizeOf: CacheKey -> nat, paths: seq<Path>) {
    |paths| <= limits.maxPaths && TotalSteps(paths) <= MAXIMUM_RESULT_STEPS && TotalBytes(sizeOf, paths) <= MAXIMUM_RESULT_BYTES
  }

  lemma NodesFit(q: Query, limits: Limits, depth: nat, ledger: Ledger, t: Tally)
    requires Exhausted(q, limits, depth, ledger, t) && OutputSound(q, limits.maxNodes, depth, t)
    ensures |ReachedWithin(q, limits.maxDepth)| <= limits.maxNodes
  {
    forall n | n in ReachedWithin(q, limits.maxDepth) ensures n in t.visited {
      var p :| Reaches(q, p, n) && |p.steps| <= limits.maxDepth;
      assert Accounted(q, depth, ledger, t, p);
    }
    SubsetCardinality(ReachedWithin(q, limits.maxDepth), t.visited);
  }

  lemma PartFits(q: Query, limits: Limits, sizeOf: CacheKey -> nat, depth: nat, ledger: Ledger, t: Tally, paths: seq<Path>)
    requires Exhausted(q, limits, depth, ledger, t) && PathsSound(q, limits.maxDepth, paths)
    requires Distinct(t.paths) && PathsFit(limits, sizeOf, t.paths)
    ensures PathsFit(limits, sizeOf, paths)
  {
    forall p | p in paths ensures p in t.paths {
      assert Accounted(q, depth, ledger, t, p);
    }
    PartOfFitting(limits, sizeOf, t.paths, paths);
  }

  lemma PartOfFitting(limits: Limits, sizeOf: CacheKey -> nat, whole: seq<Path>, part: seq<Path>)
    requires Distinct(part) && Distinct(whole) && (forall p :: p in part ==> p in whole) && PathsFit(limits, sizeOf, whole)
    ensures PathsFit(limits, sizeOf, part)
  {
    DistinctCardinality(part);
    ElementsAtMost(whole);
    SubsetCardinality((set p | p in part), (set p | p in whole));
    TotalOfPart(StepWeight(), part, whole);
    TotalOfPart(ByteWeight(sizeOf), part, whole);
  }

  /** Every list of paths of one length is part of the layer of that length. */
  lemma LayerInside(q: Query, limits: Limits, depth: nat, ledger: Ledger, t: Tally, d: int, layer: seq<Path>)
    requires Exhausted(q, limits, depth, ledger, t) && d <= limits.maxDepth && LayerOf(q, d, layer)
    ensures |ledger.layers| == depth && (layer != [] ==> 0 <= d <= depth)
    ensures 0 <= d < depth ==> forall p :: p in layer ==> p in ledger.layers[d]
    ensures d == depth ==> forall p :: p in layer ==> p in t.frontier
  {
    hide SimplePath, Expandable;
    forall p | p in layer ensures 0 <= d <= depth && p in if d < depth then ledger.layers[d] else t.frontier {
      assert Extensible(q, d, p);
      HasNodes(q, p);
      assert Accounted(q, depth, ledger, t, p) && Queued(depth, ledger, t, p);
    }
    if layer != [] { assert layer[0] in layer; }
  }

  lemma LayerFits(q: Query, limits: Limits, depth: nat, ledger: Ledger, t: Tally, d: int, layer: seq<Path>)
    requires Exhausted(q, limits, depth, ledger, t) && d <= limits.maxDepth && LayerOf(q, d, layer)
    requires LayersFit(ledger.layers + [t.frontier])
    ensures |layer| <= MAXIMUM_FRONTIER_STATES
  {
    LayerInside(q, limits, depth, ledger, t, d, layer);
    hide LayerOf, Exhausted;
    if layer != [] {
      var layers := ledger.layers + [t.frontier];
      LayersAreDistinct(q, d, layer);
      assert forall p :: p in layer ==> p in layers[d];
      DistinctCardinality(layer);
      ElementsAtMost(layers[d]);
      SubsetCardinality((set p | p in layer), (set p | p in layers[d]));
    }
  }

  /** The layers a search paid for bound what any layers cost. */
  lemma NothingTooCostly(q: Query, limits: Limits, depth: nat, loadedBytes: int, ledger: Ledger, p: Progress)
    requires Exhausted(q, limits, depth, ledger, p.tally) && CountedLayer(q, depth, loadedBytes, ledger, p)
    ensures !TooCostly(q, limits)
  {
    hide Exhausted, LayerOf, WithinLayers, TotalDegree, TotalLoad;
    forall layers | |layers| <= limits.maxDepth && ExpandableLayers(q, layers) ensures !Excessive(q, layers) {
      AllInside(q, limits, depth, ledger, p.tally, layers);
      CostsOfPart(q, layers, ledger.layers);
      if layers != [] && layers[|layers| - 1] != [] {
        var n := |layers| - 1;
        assert LayerOf(q, n, layers[n]);
        assert |ledger.layers| == depth;
        BeforeTheLast(q, limits, depth, ledger, p.tally, n, layers[n]);
        PartOfPrefix(layers, ledger.layers, n);
        CostsOfPart(q, layers[..n], ledger.layers[..n]);
        assert Affordable(q, ledger.layers, n);
      }
    }
  }

  lemma BeforeTheLast(q: Query, limits: Limits, depth: nat, ledger: Ledger, t: Tally, d: nat, layer: seq<Path>)
    requires Exhausted(q, limits, depth, ledger, t) && d < limits.maxDepth && LayerOf(q, d, layer) && layer != []
    ensures d < depth
  {
    LayerInside(q, limits, depth, ledger, t, d, layer);
    assert layer[0] in layer;
  }

  lemma AllInside(q: Query, limits: Limits, depth: nat, ledger: Ledger, t: Tally, layers: seq<seq<Path>>)
    requires Exhausted(q, limits, depth, ledger, t) && ExpandableLayers(q, ledger.layers)
    requires |layers| <= limits.maxDepth && ExpandableLayers(q, layers)
    ensures WithinLayers(layers, ledger.layers)
  {
    hide Exhausted, LayerOf;
    forall i | 0 <= i < |layers| ensures WithinLayer(layers[i], if i < |ledger.layers| then ledger.layers[i] else []) {
      assert LayerOf(q, i, layers[i]);
      LayersAreDistinct(q, i, layers[i]);
      LayerInside(q, limits, depth, ledger, t, i, layers[i]);
      if i < depth {
        LayersAreDistinct(q, i, ledger.layers[i]);
      } else if layers[i] != [] {
        BeforeTheLast(q, limits, depth, ledger, t, i, layers[i]);
      }
    }
  }

  lemma LayersAreDistinct(q: Query, depth: int, layer: seq<Path>)
    requires LayerOf(q, depth, layer)
    ensures Distinct(layer)
  {
  }

  /** A search that gave up nothing within the depth limit proves that the search space fits. */
  lemma NothingExceeded(
    q: Query, limits: Limits, sizeOf: CacheKey -> nat, depth: nat, loadedBytes: int, ledger: Ledger, p: Progress)
    requires BetweenLayers(q, limits, depth, p, ledger) && CountedLayer(q, depth, loadedBytes, ledger, p)
    requires !p.tally.truncated && depth <= limits.maxDepth && (p.tally.frontier == [] || depth == limits.maxDepth)
    requires PathsFit(limits, sizeOf, p.tally.paths)
    ensures Exhausted(q, limits, depth, ledger, p.tally) && !Exceeded(q, limits, sizeOf)
  {
    assert |ledger.layers| == depth && |ledger.known| <= MAXIMUM_PATH_STATES && LayersFit(ledger.layers + [p.tally.frontier]) by {
      AllFit(q, depth, loadedBytes, ledger, p);
    }
    hide CountedLayer, LevelComplete, LedgerComplete, PathsFit, LayersFit, TooMuch, TooCostly, Exhausted;
    SearchEnds(q, limits, depth, ledger, p.tally);
    NothingTooMuch(q, limits, sizeOf, depth, ledger, p);
    NothingTooCostly(q, limits, depth, loadedBytes, ledger, p);
  }

  lemma AllFit(q: Query, depth: nat, loadedBytes: int, ledger: Ledger, p: Progress)
    requires CountedLayer(q, depth, loadedBytes, ledger, p)
    ensures |ledger.layers| == depth && |ledger.known| <= MAXIMUM_PATH_STATES && LayersFit(ledger.layers + [p.tally.frontier])
  {
    hide Spent, ExpandableLayers, SimpleSet, TotalDegree, TotalLoad;
    forall i | 0 <= i < depth ensures |ledger.layers[i]| <= MAXIMUM_FRONTIER_STATES {
      assert Affordable(q, ledger.layers, i);
    }
  }

  /** The answer of an exhausted search is exact as far as the depth limit goes, and a frontier is left over exactly
      when some path at the limit would be expanded. */
  lemma ExhaustedIsExact(q: Query, limits: Limits, depth: nat, ledger: Ledger, t: Tally, truncated: bool)
    requires LevelComplete(q, depth, t.frontier, t) && OutputSound(q, limits.maxNodes, depth, t)
    requires LayerOf(q, depth, t.frontier) && Exhausted(q, limits, depth, ledger, t)
    ensures ExactWithin(q, limits.maxDepth, Finish(t, truncated))
    ensures Deep(q, limits) <==> t.frontier != []
    ensures !Deep(q, limits) ==> Exact(q, Finish(t, truncated))
  {
    LevelIsExact(q, limits.maxNodes, depth, t, truncated);
    if t.frontier == [] {
      EmptyFrontierIsDeepest(q, depth, t);
      hide LevelComplete, OutputSound, SimplePath, Exhausted;
      NoDeeper(q, limits, depth, Finish(t, truncated));
    } else {
      assert TooDeep(q, limits, t.frontier[0]) by {
        assert t.frontier[0] in t.frontier;
      }
    }
  }

  lemma NoDeeper(q: Query, limits: Limits, depth: nat, r: TraceResult)
    requires forall p :: SimplePath(q, p) ==> |p.steps| <= depth && (Expandable(q, p) ==> |p.steps| < depth)
    requires ExactWithin(q, depth, r) && depth <= limits.maxDepth
    ensures ExactWithin(q, limits.maxDepth, r) && Exact(q, r) && !Deep(q, limits)
  {
    hide SimplePath, Expandable;
    ShallowHasNothingBeyond(q, depth);
    WholeWhenNothingBeyond(q, depth, r);
    ShallowHasNothingBeyond(q, limits.maxDepth);
    assert ReachedWithin(q, limits.maxDepth) == ReachedWithin(q, depth);
    assert CycleReachable(q) <==> CycleWithin(q, limits.maxDepth) by {
      if CycleWithin(q, limits.maxDepth) { var p, s :| Closes(q, p, s) && |p.steps| < limits.maxDepth; }
    }
    forall p ensures !TooDeep(q, limits, p) {
      if Extensible(q, limits.maxDepth, p) { HasNodes(q, p); }
    }
  }

  /** The layered traversal. It fails only if some edge cannot be evaluated. It is marked truncated exactly when the
      search space does not fit: some limit is exceeded, or a path at the depth limit would still be expanded. The
      result is always made of reported paths within the limits, shortest first; unless a limit other than depth is
      exceeded it is exactly the answer as far as the depth limit goes; and unmarked it is the whole answer. */
  method TraceLayered(q: Query, limits: Limits, repository: Repository, encodedSize: Step -> nat)
    returns (r: Result<TraceResult, TraceError>)
    requires ValidLimits(limits) && repository.rows == q.rows && UniqueRelations(q.rows)
    ensures r.Failure? ==> SomeEdgeFails(q)
    ensures r.Success? ==>
      && WithinLimits(q, limits, r.value) && ShortestFirst(r.value.paths)
      && TotalSteps(r.value.paths) <= MAXIMUM_RESULT_STEPS
    ensures r.Success? ==> (r.value.truncated <==> Overflow(q, limits, SizesOf(q, encodedSize)))
    ensures r.Success? && !Exceeded(q, limits, SizesOf(q, encodedSize)) ==> ExactWithin(q, limits.maxDepth, r.value)
    ensures r.Success? && !r.value.truncated ==> Exact(q, r.value)
  {
    hide CountedLayer, Exceeded, Deep, SomeEdgeFails, LayerOf, OutputSound, LevelComplete, LedgerComplete, SizesOf;
    hide WithinLimits, Exact, ExactWithin, TotalBytes, TotalSteps, Exhausted;
    UniqueRowsDetermine(q.rows);
    RootLevel(q);
    RootCounted(q);
    var evaluator := new EdgeEvaluator(q.context, q.rows);
    var budget := new ResultBudget(encodedSize, SizesOf(q, encodedSize));
    var progress := Progress(Tally([Root(q)], [], {q.start}, false, false), 1, 0, false);
    ghost var ledger := RootLedger(q);
    RootOutput(q, limits, progress);
    var loadedBytes := 0;
    var depth := 0;
    while depth < limits.maxDepth && |progress.tally.frontier| > 0
      invariant 0 <= depth <= limits.maxDepth
      invariant evaluator.Valid() && evaluator.context == q.context && evaluator.rows == q.rows
      invariant fresh(evaluator) && fresh(budget)
      invariant budget.Valid() && budget.Holds(progress.tally.paths) && Sized(q, budget) && budget.encodedSize == encodedSize
      invariant BetweenLayers(q, limits, depth, progress, ledger) && CountedLayer(q, depth, loadedBytes, ledger, progress)
      invariant Blameless(q, limits, budget.sizeOf, progress)
    {
      var outcome;
      outcome, loadedBytes, ledger := TraceLayer(
        q, limits, repository, progress, loadedBytes, evaluator, budget, depth, ledger);
      progress :- outcome;
      depth := depth + 1;
      if progress.stopped {
        OutputWithinLimits(q, limits, depth, progress.tally, true);
        return Success(Finish(progress.tally, true));
      }
    }
    var truncated := progress.tally.truncated || |progress.tally.frontier| > 0;
    OutputWithinLimits(q, limits, depth, progress.tally, truncated);
    if !progress.tally.truncated {
      NothingExceeded(q, limits, budget.sizeOf, depth, loadedBytes, ledger, progress);
      ExhaustedIsExact(q, limits, depth, ledger, progress.tally, truncated);
    }
    return Success(Finish(progress.tally, truncated));
  }

  lemma RootOutput(q: Query, limits: Limits, progress: Progress)
    requires ValidLimits(limits) && progress == Progress(Tally([Root(q)], [], {q.start}, false, false), 1, 0, false)
    ensures BetweenLayers(q, limits, 0, progress, RootLedger(q))
  {
    RootLevel(q);
    RootCounted(q);
  }

  lemma LoadedRows(rows: seq<Edge>, upstream: bool, nodes: set<int>, edges: seq<Edge>)
    requires Distinct(rows) && edges <= Matching(rows, upstream, nodes)
    ensures Distinct(edges) && forall e :: e in edges ==> e in rows
  {
    MatchingMembers(rows, upstream, nodes);
    MatchingDistinct(rows, upstream, nodes);
    forall e | e in edges ensures e in Matching(rows, upstream, nodes) {}
  }
}
