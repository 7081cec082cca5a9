/** The consumer of the recursive walk that the database enumerates for an empty context. */
module RecursiveTrace {
  import opened Wrappers
  import opened Conditions
  import opened EdgeEvaluation
  import opened Graph
  import opened GraphRepository
  import opened LayeredTrace
  import opened SearchSpace

  /** One row of the walk. A state key lists the relations of the walk so far; the root has the empty key. */
  datatype Candidate = Candidate(
    stateKey: seq<int>, parentKey: seq<int>, depth: int, next: int, cycle: bool, edge: Edge)

  function Ids(p: Path): seq<int> {
    seq(|p.steps|, i requires 0 <= i < |p.steps| => p.steps[i].edge.relationID)
  }

  /** What every row satisfies by construction of the query: its edge is an effective edge and its key
      extends the key of its parent by the relation of that edge. */
  predicate RowShape(q: Query, c: Candidate) {
    c.edge in q.rows && c.stateKey == c.parentKey + [c.edge.relationID]
  }

  // ----- the visitor -----------------------------------------------------------------------------

  /** The tables the visitor updates: live states by key, every key seen, and the collected output. */
  datatype Walk = Walk(states: map<seq<int>, Path>, seen: set<seq<int>>, tally: Tally)

  /** What the tables mean, whatever rows the visitor is shown. */
  ghost predicate WalkSound(q: Query, limits: Limits, w: Walk) {
    && StatesSound(q, limits, w.states) && w.states.Keys <= w.seen
    && (forall p :: p in w.tally.frontier ==> Ids(p) in w.states && w.states[Ids(p)] == p)
    && PathsSound(q, limits.maxDepth, w.tally.paths) && |w.tally.paths| <= limits.maxPaths
    && (forall p :: p in w.tally.paths ==> Ids(p) in w.seen)
    && VisitedSound(q, limits.maxDepth, limits.maxNodes, w.tally.visited) && CycleSound(q, limits.maxDepth, w.tally.cycle)
  }

  ghost predicate StatesSound(q: Query, limits: Limits, states: map<seq<int>, Path>) {
    && [] in states && states[[]] == Root(q)
    && (forall k :: k in states ==>
         SimplePath(q, states[k]) && Expandable(q, states[k]) && Ids(states[k]) == k && |k| <= limits.maxDepth)
  }

  lemma SeeKey(q: Query, limits: Limits, w: Walk, key: seq<int>)
    requires WalkSound(q, limits, w)
    ensures WalkSound(q, limits, w.(seen := w.seen + {key}))
  {
  }

  lemma KeysAreSeen(q: Query, limits: Limits, w: Walk)
    requires WalkSound(q, limits, w)
    ensures w.states.Keys <= w.seen && forall p :: p in w.tally.paths ==> Ids(p) in w.seen
    ensures forall k :: k in w.states ==> w.states[k].nodes != []
  {
  }

  lemma Truncate(q: Query, limits: Limits, w: Walk)
    requires WalkSound(q, limits, w)
    ensures WalkSound(q, limits, w.(tally := w.tally.(truncated := true)))
  {
  }

  lemma VisitNode(q: Query, limits: Limits, w: Walk, visited: set<int>, cycle: bool)
    requires WalkSound(q, limits, w)
    requires VisitedSound(q, limits.maxDepth, limits.maxNodes, visited) && CycleSound(q, limits.maxDepth, cycle)
    ensures WalkSound(q, limits, w.(tally := w.tally.(visited := visited, cycle := cycle)))
  {
  }

  lemma ReportPath(q: Query, limits: Limits, w: Walk, path: Path)
    requires WalkSound(q, limits, w) && |w.tally.paths| < limits.maxPaths
    requires Reported(q, path) && |path.steps| <= limits.maxDepth && Ids(path) in w.seen
    requires forall p :: p in w.tally.paths ==> Ids(p) != Ids(path)
    ensures WalkSound(q, limits, w.(tally := w.tally.(paths := w.tally.paths + [path])))
  {
    assert path !in w.tally.paths;
  }

  lemma AddState(q: Query, limits: Limits, w: Walk, path: Path)
    requires WalkSound(q, limits, w) && Ids(path) in w.seen && Ids(path) !in w.states
    requires SimplePath(q, path) && Expandable(q, path) && |path.steps| <= limits.maxDepth
    ensures WalkSound(q, limits, w.(states := w.states[Ids(path) := path],
                                    tally := w.tally.(frontier := w.tally.frontier + [path])))
  {
    var states := w.states[Ids(path) := path];
    assert StatesSound(q, limits, states);
    hide SimplePath, StatesSound, PathsSound, VisitedSound, CycleSound, Ids;
    forall p | p in w.tally.frontier + [path] ensures Ids(p) in states && states[Ids(p)] == p {
      if p in w.tally.frontier { assert Ids(p) in w.states; }
    }
  }

  datatype Verdict = Continue | Stop

  /** The tally after a full visit: the step, plus the depth limit, which truncates where it cuts. */
  function VisitedTally(q: Query, limits: Limits, w: Walk, c: Candidate): Tally {
    if c.parentKey !in w.states then w.tally
    else
      var u := StepTally(q, limits.maxNodes, w.states[c.parentKey], c.edge, w.tally);
      if u.frontier != w.tally.frontier && c.depth == limits.maxDepth then u.(truncated := true) else u
  }

  // ----- counting: why the visitor stops ---------------------------------------------------------

  /** Every path found so far, other than the root. */
  ghost function Found(t: Tally): set<Path> {
    (set p | p in t.frontier) + (set p | p in t.paths)
  }

  ghost function StatesAt(d: int, t: Tally): set<Path> {
    set p | p in t.frontier && |p.steps| == d
  }

  /** The counters count the paths found, and the states at each depth. */
  ghost predicate Counting(t: Tally, pathStates: nat, frontierStates: map<int, nat>) {
    && pathStates == 1 + |Found(t)| && (forall p :: p in Found(t) ==> |p.steps| > 0)
    && forall d :: |StatesAt(d, t)| == StatesCounted(frontierStates, d)
  }

  ghost predicate Bounded(pathStates: nat, frontierStates: map<int, nat>) {
    pathStates <= MAXIMUM_PATH_STATES && forall d :: StatesCounted(frontierStates, d) <= MAXIMUM_FRONTIER_STATES
  }

  function StatesCounted(frontierStates: map<int, nat>, d: int): nat {
    if d in frontierStates then frontierStates[d] else 0
  }

  lemma FoundAreSimple(q: Query, limits: Limits, w: Walk)
    requires WalkSound(q, limits, w)
    ensures SimpleSet(q, limits.maxDepth, Found(w.tally))
  {
    forall p | p in w.tally.frontier ensures SimplePath(q, p) && |p.steps| <= limits.maxDepth {
      assert w.states[Ids(p)] == p && |Ids(p)| == |p.steps|;
    }
  }

  ghost predicate NewPath(q: Query, limits: Limits, t: Tally, path: Path) {
    && SimplePath(q, path) && 0 < |path.steps| <= limits.maxDepth
    && path !in t.frontier && path !in t.paths
  }

  lemma NewKeyNewPath(q: Query, limits: Limits, w: Walk, path: Path)
    requires WalkSound(q, limits, w) && SimplePath(q, path) && 0 < |path.steps| <= limits.maxDepth
    requires Ids(path) !in w.states && forall p :: p in w.tally.paths ==> Ids(p) != Ids(path)
    ensures NewPath(q, limits, w.tally, path)
  {
  }

  lemma ManyStates(
    q: Query, limits: Limits, sizeOf: CacheKey -> nat, w: Walk, path: Path, pathStates: nat, frontierStates: map<int, nat>)
    requires WalkSound(q, limits, w) && Counting(w.tally, pathStates, frontierStates)
    requires NewPath(q, limits, w.tally, path) && pathStates >= MAXIMUM_PATH_STATES
    ensures TooMuch(q, limits, sizeOf)
  {
    FoundAreSimple(q, limits, w);
    NotFoundYet(w.tally, path);
    hide SimplePath, WalkSound, SimpleSet, Found, StatesCounted;
    ManyPaths(q, limits, sizeOf, Found(w.tally), path);
  }

  lemma NotFoundYet(t: Tally, path: Path)
    requires path !in t.frontier && path !in t.paths
    ensures path !in Found(t)
  {
  }

  lemma ManyPaths(q: Query, limits: Limits, sizeOf: CacheKey -> nat, found: set<Path>, path: Path)
    requires SimpleSet(q, limits.maxDepth, found) && SimplePath(q, path) && 0 < |path.steps| <= limits.maxDepth
    requires path !in found && (forall p :: p in found ==> |p.steps| > 0) && |found| + 1 >= MAXIMUM_PATH_STATES
    ensures TooMuch(q, limits, sizeOf)
  {
    RootIsSimple(q);
    hide SimplePath, SimpleSet;
    AddSimple(q, limits.maxDepth, found, Root(q));
    AddSimple(q, limits.maxDepth, found + {Root(q)}, path);
    assert Crowded(q, limits.maxDepth, found + {Root(q)} + {path});
  }

  lemma AddSimple(q: Query, depth: int, s: set<Path>, p: Path)
    requires SimpleSet(q, depth, s) && SimplePath(q, p) && |p.steps| <= depth && p !in s
    ensures SimpleSet(q, depth, s + {p}) && |s + {p}| == |s| + 1
  {
  }

  lemma ManyStatesAt(
    q: Query, limits: Limits, sizeOf: CacheKey -> nat, w: Walk, path: Path, pathStates: nat, frontierStates: map<int, nat>)
    requires WalkSound(q, limits, w) && Counting(w.tally, pathStates, frontierStates)
    requires NewPath(q, limits, w.tally, path) && Expandable(q, path)
    requires StatesCounted(frontierStates, |path.steps|) >= MAXIMUM_FRONTIER_STATES
    ensures TooMuch(q, limits, sizeOf)
  {
    var d := |path.steps|;
    var at := StatesAt(d, w.tally);
    StatesAreExtensible(q, limits, w, d);
    assert path !in at && |at| == StatesCounted(frontierStates, d) && Extensible(q, d, path);
    hide SimplePath, WalkSound, StatesAt, Counting, StatesCounted;
    var layer := Listed(at);
    assert LayerOf(q, d, layer + [path]);
    assert Wide(q, limits, d, layer + [path]);
  }

  lemma StatesAreExtensible(q: Query, limits: Limits, w: Walk, d: int)
    requires WalkSound(q, limits, w)
    ensures forall p :: p in StatesAt(d, w.tally) ==> Extensible(q, d, p)
  {
    forall p | p in w.tally.frontier && |p.steps| == d ensures Extensible(q, d, p) {
      assert w.states[Ids(p)] == p;
    }
  }

  /** Any set can be listed without repetition. */
  lemma Listed(s: set<Path>) returns (list: seq<Path>)
    ensures Distinct(list) && |list| == |s| && forall p :: p in list <==> p in s
  {
    if s == {} {
      list := [];
    } else {
      var p :| p in s;
      list := Listed(s - {p});
      list := list + [p];
    }
  }

  lemma CountNewPath(
    q: Query, limits: Limits, t: Tally, u: Tally, path: Path, pathStates: nat, before: map<int, nat>, after: map<int, nat>)
    requires Counting(t, pathStates, before) && NewPath(q, limits, t, path)
    requires u.paths == t.paths || u.paths == t.paths + [path]
    requires u.frontier == t.frontier || u.frontier == t.frontier + [path]
    requires u.frontier != t.frontier || u.paths != t.paths
    requires after == if u.frontier == t.frontier then before
      else before[|path.steps| := StatesCounted(before, |path.steps|) + 1]
    ensures Counting(u, pathStates + 1, after)
  {
    FoundAfter(t, u, path);
    hide SimplePath, Found;
    forall d ensures |StatesAt(d, u)| == StatesCounted(after, d) {
      hide StatesAt, StatesCounted;
      StatesAfter(t, u, path, before, after, d);
    }
  }

  lemma FoundAfter(t: Tally, u: Tally, path: Path)
    requires path !in t.frontier && path !in t.paths
    requires u.paths == t.paths || u.paths == t.paths + [path]
    requires u.frontier == t.frontier || u.frontier == t.frontier + [path]
    requires u.frontier != t.frontier || u.paths != t.paths
    ensures path !in Found(t) && Found(u) == Found(t) + {path}
  {
    assert path in u.frontier || path in u.paths;
  }

  lemma StatesAfter(t: Tally, u: Tally, path: Path, before: map<int, nat>, after: map<int, nat>, d: int)
    requires |StatesAt(d, t)| == StatesCounted(before, d) && path !in t.frontier
    requires u.frontier == t.frontier || u.frontier == t.frontier + [path]
    requires after == if u.frontier == t.frontier then before
      else before[|path.steps| := StatesCounted(before, |path.steps|) + 1]
    ensures |StatesAt(d, u)| == StatesCounted(after, d)
  {
    if u.frontier != t.frontier && d == |path.steps| {
      assert StatesAt(d, u) == StatesAt(d, t) + {path};
    } else {
      assert StatesAt(d, u) == StatesAt(d, t);
    }
  }

  /** Why the visitor may give up: there is too much to find, or the walk itself is too long. */
  ghost predicate Forced(q: Query, limits: Limits, sizeOf: CacheKey -> nat, edgeExpansions: nat) {
    TooMuch(q, limits, sizeOf) || edgeExpansions > MAXIMUM_EDGE_EXPANSIONS
  }

  /** Why a result may be marked: the visitor gave up, or the depth limit cut a path. */
  ghost predicate Excused(q: Query, limits: Limits, sizeOf: CacheKey -> nat, edgeExpansions: nat) {
    Forced(q, limits, sizeOf, edgeExpansions) || Deep(q, limits)
  }

  lemma ExcusedGrows(q: Query, limits: Limits, sizeOf: CacheKey -> nat, n: nat)
    ensures Excused(q, limits, sizeOf, n) ==> Excused(q, limits, sizeOf, n + 1)
    ensures n + 1 > MAXIMUM_EDGE_EXPANSIONS ==> Forced(q, limits, sizeOf, n + 1)
  {
  }

  /** What the visitor demands of a row. */
  predicate Acceptable(q: Query, limits: Limits, w: Walk, c: Candidate) {
    && c.stateKey != [] && 1 <= c.depth <= limits.maxDepth && c.stateKey !in w.seen
    && if c.parentKey in w.states then FitsParent(q, w.states[c.parentKey], c)
       else c.parentKey in w.seen + {c.stateKey}
  }

  predicate FitsParent(q: Query, parent: Path, c: Candidate) {
    && parent.nodes != [] && c.depth == |parent.steps| + 1 && c.next > 0 && NextNode(c.edge, q.upstream) == c.next
    && CurrentNode(c.edge, q.upstream) == Last(parent) && (c.next in parent.nodes <==> c.cycle)
  }

  class Visitor {
    const q: Query
    const limits: Limits
    const evaluator: EdgeEvaluator
    const budget: ResultBudget
    var walk: Walk
    var frontierStates: map<int, nat>
    var pathStates: nat
    var edgeExpansions: nat

    ghost predicate Valid()
      reads this, evaluator, budget
    {
      && evaluator.Valid() && evaluator.context == q.context && evaluator.rows == q.rows
      && budget.Valid() && budget.Holds(walk.tally.paths) && Sized(q, budget)
      && ValidLimits(limits) && WalkSound(q, limits, walk)
      && (walk.tally.truncated ==> Excused(q, limits, budget.sizeOf, edgeExpansions))
    }

    ghost predicate Counted()
      reads this
    {
      Counting(walk.tally, pathStates, frontierStates) && Bounded(pathStates, frontierStates)
    }

    /** The row of the given key is being visited: it has been seen, and nothing has its key yet. */
    ghost predicate Visiting(key: seq<int>)
      reads this
    {
      && key in walk.seen && key !in walk.states
      && forall p :: p in walk.tally.paths ==> Ids(p) != key
    }

    constructor (q: Query, limits: Limits, encodedSize: Step -> nat)
      requires ValidLimits(limits) && UniqueRelations(q.rows)
      ensures Valid() && Counted() && fresh(evaluator) && fresh(budget)
      ensures this.q == q && this.limits == limits && budget.encodedSize == encodedSize && edgeExpansions == 0
      ensures walk == Walk(map[[] := Root(q)], {[]}, Tally([], [], {q.start}, false, false))
    {
      UniqueRowsDetermine(q.rows);
      RootLevel(q);
      assert Ids(Root(q)) == [];
      this.q := q;
      this.limits := limits;
      evaluator := new EdgeEvaluator(q.context, q.rows);
      budget := new ResultBudget(encodedSize, SizesOf(q, encodedSize));
      walk := Walk(map[[] := Root(q)], {[]}, Tally([], [], {q.start}, false, false));
      frontierStates := map[];
      pathStates := 1;
      edgeExpansions := 0;
      assert Found(Tally([], [], {q.start}, false, false)) == {};
      assert forall d :: StatesAt(d, Tally([], [], {q.start}, false, false)) == {};
    }

    method Halt() returns (r: Result<Verdict, TraceError>)
      requires Valid() && Forced(q, limits, budget.sizeOf, edgeExpansions)
      modifies this`walk
      ensures Valid() && r == Success(Stop)
      ensures walk == old(walk).(tally := old(walk).tally.(truncated := true))
    {
      Truncate(q, limits, walk);
      walk := walk.(tally := walk.tally.(truncated := true));
      return Success(Stop);
    }

    /** Visits one row. A stop marks the result truncated; a failure means that the row or its edge is bad. */
    method Visit(c: Candidate) returns (r: Result<Verdict, TraceError>)
      requires Valid() && Counted() && RowShape(q, c)
      modifies this, evaluator, budget
      ensures r.Success? ==> Valid() && edgeExpansions == old(edgeExpansions) + 1
      ensures r.Failure? ==>
        EvalEdge(c.edge.content, q.context).Failure? || !Acceptable(q, limits, old(walk), c)
      ensures r.Success? && r.value.Stop? ==> walk.tally.truncated && Forced(q, limits, budget.sizeOf, edgeExpansions)
      ensures r.Success? && r.value.Continue? ==>
        && Counted() && walk.tally == VisitedTally(q, limits, old(walk), c)
        && walk.seen == old(walk.seen) + {c.stateKey}
    {
      hide WalkSound, TooMuch, Deep, Counting, Bounded, VisitedTally, Acceptable, SizesOf, Excused, Forced;
      ExcusedGrows(q, limits, budget.sizeOf, edgeExpansions);
      edgeExpansions := edgeExpansions + 1;
      if edgeExpansions > MAXIMUM_EDGE_EXPANSIONS {
        r := Halt();
        return;
      }
      r := Register(c);
    }

    /** Rows below a dropped state are skipped; every other row is checked against its parent before its edge
        takes effect. */
    method Register(c: Candidate) returns (r: Result<Verdict, TraceError>)
      requires Valid() && Counted() && RowShape(q, c)
      modifies this`walk, this`pathStates, this`frontierStates, evaluator, budget
      ensures r.Success? ==> Valid()
      ensures r.Failure? ==>
        EvalEdge(c.edge.content, q.context).Failure? || !Acceptable(q, limits, old(walk), c)
      ensures r.Success? && r.value.Stop? ==> walk.tally.truncated && Forced(q, limits, budget.sizeOf, edgeExpansions)
      ensures r.Success? && r.value.Continue? ==>
        && Counted() && walk.tally == VisitedTally(q, limits, old(walk), c)
        && walk.seen == old(walk.seen) + {c.stateKey}
    {
      KeysAreSeen(q, limits, walk);
      hide WalkSound, TooMuch, Deep, Counting, Bounded, Ids, StepTally, TotalSteps, TotalBytes, SizesOf, Excused, Forced, FitsParent;
      if c.stateKey == [] || c.depth < 1 || c.depth > limits.maxDepth { return Failure(RepositoryError); }
      if c.stateKey in walk.seen { return Failure(RepositoryError); }
      SeeKey(q, limits, walk, c.stateKey);
      walk := walk.(seen := walk.seen + {c.stateKey});
      if c.parentKey !in walk.states {
        if c.parentKey !in walk.seen { return Failure(RepositoryError); }
        return Success(Continue);
      }
      r := Place(c);
    }

    /** Checks a row against its parent state, and follows its edge. */
    method Place(c: Candidate) returns (r: Result<Verdict, TraceError>)
      requires Valid() && Counted() && RowShape(q, c) && c.parentKey in walk.states
      requires walk.states[c.parentKey].nodes != [] && Visiting(c.stateKey) && 1 <= c.depth <= limits.maxDepth
      modifies this`walk, this`pathStates, this`frontierStates, evaluator, budget
      ensures r.Success? ==> Valid() && walk.seen == old(walk.seen)
      ensures r.Failure? ==>
        EvalEdge(c.edge.content, q.context).Failure? || !FitsParent(q, old(walk).states[c.parentKey], c)
      ensures r.Success? && r.value.Stop? ==> walk.tally.truncated && Forced(q, limits, budget.sizeOf, edgeExpansions)
      ensures r.Success? && r.value.Continue? ==> Counted() && walk.tally == VisitedTally(q, limits, old(walk), c)
    {
      hide WalkSound, TooMuch, Deep, Counting, Bounded, Ids, StepTally, TotalSteps, TotalBytes, SizesOf, VisitedTally;
      var parent := walk.states[c.parentKey];
      if c.depth != |parent.steps| + 1 || c.next <= 0 || NextNode(c.edge, q.upstream) != c.next
         || CurrentNode(c.edge, q.upstream) != Last(parent) {
        return Failure(RepositoryError);
      }
      if (c.next in parent.nodes) != c.cycle { return Failure(RepositoryError); }
      r := Follow(parent, c);
    }

    method Follow(parent: Path, c: Candidate) returns (r: Result<Verdict, TraceError>)
      requires Valid() && Counted() && RowShape(q, c) && c.parentKey in walk.states && walk.states[c.parentKey] == parent
      requires Visiting(c.stateKey) && FitsParent(q, parent, c) && 1 <= c.depth <= limits.maxDepth
      modifies this`walk, this`pathStates, this`frontierStates, evaluator, budget
      ensures r.Success? ==> Valid() && walk.seen == old(walk.seen)
      ensures r.Failure? ==> EvalEdge(c.edge.content, q.context).Failure?
      ensures r.Success? && r.value.Stop? ==> walk.tally.truncated && Forced(q, limits, budget.sizeOf, edgeExpansions)
      ensures r.Success? && r.value.Continue? ==> Counted() && walk.tally == VisitedTally(q, limits, old(walk), c)
    {
      hide SimplePath, TooMuch, Deep, Counting, Bounded, Ids, PathsSound, CycleSound, TotalSteps, TotalBytes, SizesOf, SizesAgree;
      var outcome := evaluator.Evaluate(c.edge);
      if outcome.Failure? { return Failure(EvaluationError(outcome.error)); }
      var evaluation := outcome.value;
      if evaluation.truth == False { return Success(Continue); }
      if c.cycle {
        StepSound(q, limits.maxDepth, limits.maxNodes, parent, c.edge, walk.tally);
        VisitNode(q, limits, walk, walk.tally.visited, true);
        walk := walk.(tally := walk.tally.(cycle := true));
        SameFound(old(walk.tally), walk.tally, pathStates, frontierStates);
        return Success(Continue);
      }
      ghost var path := NewChild(parent, c, evaluation);
      if pathStates >= MAXIMUM_PATH_STATES {
        ManyStates(q, limits, budget.sizeOf, walk, path, pathStates, frontierStates);
        r := Halt();
        return;
      }
      var nodeSeen := c.next in walk.tally.visited;
      if !nodeSeen && |walk.tally.visited| >= limits.maxNodes {
        TooManyNodes(q, limits, budget.sizeOf, walk.tally.visited, path);
        r := Halt();
        SameFound(old(walk.tally), walk.tally, pathStates, frontierStates);
        return Success(Continue);
      }
      r := Advance(parent, c, evaluation);
    }

    /** The path a usable row adds is simple and new. */
    ghost method NewChild(parent: Path, c: Candidate, evaluation: Evaluation) returns (path: Path)
      requires Valid() && RowShape(q, c) && c.parentKey in walk.states && walk.states[c.parentKey] == parent
      requires Visiting(c.stateKey) && FitsParent(q, parent, c) && 1 <= c.depth <= limits.maxDepth && !c.cycle
      requires EvalEdge(c.edge.content, q.context) == Success(evaluation) && evaluation.truth != False
      ensures path == Extend(parent, Step(c.edge, evaluation), c.next) && Ids(path) == c.stateKey
      ensures NewPath(q, limits, walk.tally, path) && |path.steps| == c.depth && Last(path) == c.next
    {
      path := Extend(parent, Step(c.edge, evaluation), c.next);
      KeyOfExtension(q, parent, c);
      assert path == StepPath(q, parent, c.edge);
      assert StepJoins(q, Step(c.edge, evaluation), Last(parent), c.next);
      ExtensionIsSimple(q, parent, Step(c.edge, evaluation), c.next);
      NewKeyNewPath(q, limits, walk, path);
    }

    method Advance(parent: Path, c: Candidate, evaluation: Evaluation) returns (r: Result<Verdict, TraceError>)
      requires Valid() && Counted() && RowShape(q, c) && c.parentKey in walk.states && walk.states[c.parentKey] == parent
      requires Visiting(c.stateKey) && FitsParent(q, parent, c) && 1 <= c.depth <= limits.maxDepth && !c.cycle
      requires EvalEdge(c.edge.content, q.context) == Success(evaluation) && evaluation.truth != False
      requires c.next in walk.tally.visited || |walk.tally.visited| < limits.maxNodes
      requires pathStates < MAXIMUM_PATH_STATES
      modifies this`walk, this`pathStates, this`frontierStates, budget
      ensures r.Success? && Valid() && walk.seen == old(walk.seen)
      ensures r.value.Stop? ==> walk.tally.truncated && Forced(q, limits, budget.sizeOf, edgeExpansions)
      ensures r.value.Continue? ==> Counted() && walk.tally == VisitedTally(q, limits, old(walk), c)
    {
      hide SimplePath, TooMuch, Deep, Counting, Bounded, Ids, PathsSound, CycleSound, VisitedSound, TotalSteps, TotalBytes, SizesOf, SizesAgree;
      ghost var before := walk;
      ghost var child := NewChild(parent, c, evaluation);
      var path := Extend(parent, Step(c.edge, evaluation), c.next);
      StepSound(q, limits.maxDepth, limits.maxNodes, parent, c.edge, walk.tally);
      VisitNode(q, limits, walk, walk.tally.visited + {c.next}, walk.tally.cycle);
      ghost var t := walk.tally.(visited := walk.tally.visited + {c.next});
      SameFound(walk.tally, t, pathStates, frontierStates);
      OneMoreState(pathStates, frontierStates);
      pathStates := pathStates + 1;
      walk := walk.(tally := walk.tally.(visited := walk.tally.visited + {c.next}));
      r := Emit(path, c);
      EmittedIsVisited(q, limits, before, c, path, evaluation);
    }

    method Emit(path: Path, c: Candidate) returns (r: Result<Verdict, TraceError>)
      requires Valid() && NewPath(q, limits, walk.tally, path) && |path.steps| == c.depth
      requires Last(path) == c.next && Ids(path) == c.stateKey && Visiting(c.stateKey)
      requires pathStates > 0 && Counting(walk.tally, pathStates - 1, frontierStates) && Bounded(pathStates, frontierStates)
      modifies this`walk, this`frontierStates, budget
      ensures Valid() && walk.seen == old(walk.seen) && r.Success?
      ensures r.value.Stop? ==> walk.tally.truncated && Forced(q, limits, budget.sizeOf, edgeExpansions)
      ensures r.value.Continue? ==> Counted() && walk.tally == EmittedTally(q, limits, old(walk.tally), path)
    {
      hide SimplePath, TooMuch, Deep, Counting, Bounded, Ids, PathsSound, CycleSound, VisitedSound, TotalSteps, TotalBytes, SizesOf, SizesAgree;
      ghost var t := walk.tally;
      if q.target == 0 || q.target == c.next {
        r := Report(path);
        if r.value.Stop? { return; }
      }
      if q.target == 0 || q.target != c.next {
        if StatesCounted(frontierStates, c.depth) >= MAXIMUM_FRONTIER_STATES {
          ManyStatesAt(q, limits, budget.sizeOf, old(walk), path, pathStates - 1, frontierStates);
          r := Halt();
          return;
        }
        StillBounded(pathStates, frontierStates, c.depth);
        frontierStates := frontierStates[c.depth := StatesCounted(frontierStates, c.depth) + 1];
        Queue(path, c.stateKey, c.depth);
      }
      CountNewPath(q, limits, t, walk.tally, path, pathStates - 1, old(frontierStates), frontierStates);
      return Success(Continue);
    }

    method Report(path: Path) returns (r: Result<Verdict, TraceError>)
      requires Valid() && Reported(q, path) && NewPath(q, limits, walk.tally, path)
      requires Ids(path) in walk.seen
      requires forall p :: p in walk.tally.paths ==> Ids(p) != Ids(path)
      modifies this`walk, budget
      ensures Valid() && r.Success?
      ensures r.value.Stop? ==>
        walk == old(walk).(tally := old(walk).tally.(truncated := true)) && Forced(q, limits, budget.sizeOf, edgeExpansions)
      ensures r.value.Continue? ==> walk == old(walk).(tally := old(walk).tally.(paths := old(walk).tally.paths + [path]))
    {
      hide SimplePath, TooMuch, Deep, Ids, CycleSound, VisitedSound, TotalSteps, TotalBytes, SizesOf, SizesAgree;
      TotalStepsAppend(walk.tally.paths, path);
      TotalBytesAppend(budget.sizeOf, walk.tally.paths, path);
      if |walk.tally.paths| >= limits.maxPaths {
        TooBulky(q, limits, budget.sizeOf, walk.tally.paths, path);
        r := Halt();
        return;
      }
      SimpleSizesAgree(q, budget.encodedSize, path);
      var accepted := budget.Accept(path);
      if !accepted {
        TooBulky(q, limits, budget.sizeOf, walk.tally.paths, path);
        r := Halt();
        return;
      }
      ReportPath(q, limits, walk, path);
      walk := walk.(tally := walk.tally.(paths := walk.tally.paths + [path]));
      return Success(Continue);
    }

    /** Keeps a path for its successors; at the depth limit it has none, so the result is truncated. */
    method Queue(path: Path, key: seq<int>, depth: int)
      requires Valid() && SimplePath(q, path) && Expandable(q, path)
      requires |path.steps| == depth && 1 <= depth <= limits.maxDepth
      requires Ids(path) == key && key in walk.seen && key !in walk.states
      modifies this`walk
      ensures Valid() && walk.seen == old(walk.seen)
      ensures walk.tally == old(walk.tally).(
        frontier := old(walk.tally).frontier + [path], truncated := old(walk.tally).truncated || depth == limits.maxDepth)
    {
      AddState(q, limits, walk, path);
      walk := walk.(states := walk.states[key := path],
                    tally := walk.tally.(frontier := walk.tally.frontier + [path]));
      if depth == limits.maxDepth {
        assert TooDeep(q, limits, path);
        Truncate(q, limits, walk);
        walk := walk.(tally := walk.tally.(truncated := true));
      }
    }
  }

  lemma OneMoreState(pathStates: nat, frontierStates: map<int, nat>)
    requires Bounded(pathStates, frontierStates) && pathStates < MAXIMUM_PATH_STATES
    ensures Bounded(pathStates + 1, frontierStates)
  {
  }

  lemma StillBounded(pathStates: nat, frontierStates: map<int, nat>, d: int)
    requires Bounded(pathStates, frontierStates) && StatesCounted(frontierStates, d) < MAXIMUM_FRONTIER_STATES
    ensures Bounded(pathStates, frontierStates[d := StatesCounted(frontierStates, d) + 1])
  {
    var after := frontierStates[d := StatesCounted(frontierStates, d) + 1];
    forall x ensures StatesCounted(after, x) <= MAXIMUM_FRONTIER_STATES {
      assert StatesCounted(frontierStates, x) <= MAXIMUM_FRONTIER_STATES;
    }
  }

  lemma SameFound(t: Tally, u: Tally, pathStates: nat, frontierStates: map<int, nat>)
    requires Counting(t, pathStates, frontierStates) && u.paths == t.paths && u.frontier == t.frontier
    ensures Counting(u, pathStates, frontierStates)
  {
    assert Found(u) == Found(t);
    assert forall d :: StatesAt(d, u) == StatesAt(d, t);
  }

  lemma EmittedIsVisited(q: Query, limits: Limits, w: Walk, c: Candidate, path: Path, evaluation: Evaluation)
    requires c.parentKey in w.states && EvalEdge(c.edge.content, q.context) == Success(evaluation)
    requires evaluation.truth != False && NextNode(c.edge, q.upstream) == c.next
    requires c.next !in w.states[c.parentKey].nodes
    requires c.next in w.tally.visited || |w.tally.visited| < limits.maxNodes
    requires path == Extend(w.states[c.parentKey], Step(c.edge, evaluation), c.next)
    requires |path.steps| == c.depth
    ensures EmittedTally(q, limits, w.tally.(visited := w.tally.visited + {c.next}), path)
         == VisitedTally(q, limits, w, c)
  {
    assert Last(path) == c.next;
    assert |w.tally.frontier + [path]| != |w.tally.frontier|;
  }

  function EmittedTally(q: Query, limits: Limits, t: Tally, path: Path): Tally
    requires path.nodes != []
  {
    t.(paths := if TargetReached(q, Last(path)) then t.paths + [path] else t.paths,
       frontier := if Continues(q, Last(path)) then t.frontier + [path] else t.frontier,
       truncated := t.truncated || (Continues(q, Last(path)) && |path.steps| == limits.maxDepth))
  }

  lemma KeyOfExtension(q: Query, parent: Path, c: Candidate)
    requires Ids(parent) == c.parentKey && RowShape(q, c)
    ensures Ids(StepPath(q, parent, c.edge)) == c.stateKey
  {
  }

  // ----- the walk the query enumerates -----------------------------------------------------------

  /** The path a trail of edges spells out; an edge that does not evaluate counts as false. */
  function PathOf(q: Query, trail: seq<Edge>): (p: Path)
    ensures |p.steps| == |trail| && |p.nodes| == |trail| + 1
  {
    if trail == [] then Root(q)
    else StepPath(q, PathOf(q, trail[..|trail| - 1]), trail[|trail| - 1])
  }

  function TrailIds(trail: seq<Edge>): seq<int> {
    seq(|trail|, i requires 0 <= i < |trail| => trail[i].relationID)
  }

  function EndOf(q: Query, trail: seq<Edge>): int {
    Last(PathOf(q, trail))
  }

  /** The recursive query: edges out of the start, then edges out of any row that closed no cycle, is not at
      the depth limit and does not end at the target. False edges are walked as well. */
  predicate WalkTrail(q: Query, maxDepth: int, trail: seq<Edge>) {
    if trail == [] then false
    else
      var front, e := trail[..|trail| - 1], trail[|trail| - 1];
      && e in q.rows && CurrentNode(e, q.upstream) == EndOf(q, front)
      && (front != [] ==>
           && WalkTrail(q, maxDepth, front) && |front| < maxDepth
           && EndOf(q, front) !in PathOf(q, front[..|front| - 1]).nodes
           && (q.target == 0 || EndOf(q, front) != q.target))
  }

  function RowOf(q: Query, trail: seq<Edge>): Candidate
    requires trail != []
  {
    var front, e := trail[..|trail| - 1], trail[|trail| - 1];
    Candidate(TrailIds(trail), TrailIds(front), |trail|, NextNode(e, q.upstream),
              NextNode(e, q.upstream) in PathOf(q, front).nodes, e)
  }

  /** Row `i` stands for trail `i`, and follows the row of its parent. */
  ghost predicate RowInOrder(q: Query, maxDepth: int, rows: seq<Candidate>, trails: seq<seq<Edge>>, i: nat)
    requires i < |rows| == |trails|
  {
    && WalkTrail(q, maxDepth, trails[i]) && rows[i] == RowOf(q, trails[i])
    && (|trails[i]| == 1 || trails[i][..|trails[i]| - 1] in trails[..i])
  }

  ghost predicate WholeWalk(q: Query, maxDepth: int, trails: seq<seq<Edge>>) {
    forall t :: WalkTrail(q, maxDepth, t) ==> t in trails
  }

  ghost predicate InOrder(q: Query, maxDepth: int, rows: seq<Candidate>, trails: seq<seq<Edge>>) {
    |rows| == |trails| &&
    forall i {:trigger RowInOrder(q, maxDepth, rows, trails, i)} :: 0 <= i < |rows| ==>
      RowInOrder(q, maxDepth, rows, trails, i)
  }

  /** Any enumeration of the whole walk, each row once, in which a row follows its parent. */
  ghost predicate ParentFirst(q: Query, maxDepth: int, rows: seq<Candidate>, trails: seq<seq<Edge>>) {
    WholeWalk(q, maxDepth, trails) && InOrder(q, maxDepth, rows, trails) && Distinct(trails)
  }

  function EdgesOf(p: Path): seq<Edge> {
    seq(|p.steps|, i requires 0 <= i < |p.steps| => p.steps[i].edge)
  }

  ghost predicate Live(q: Query, trail: seq<Edge>) {
    SimplePath(q, PathOf(q, trail)) && Expandable(q, PathOf(q, trail))
  }

  lemma {:induction false} PathOfIds(q: Query, trail: seq<Edge>)
    ensures Ids(PathOf(q, trail)) == TrailIds(trail) && EdgesOf(PathOf(q, trail)) == trail
  {
    if trail != [] {
      PathOfIds(q, trail[..|trail| - 1]);
      assert trail == trail[..|trail| - 1] + [trail[|trail| - 1]];
      var p := PathOf(q, trail[..|trail| - 1]);
      forall i | 0 <= i < |trail|
        ensures Ids(PathOf(q, trail))[i] == TrailIds(trail)[i] && EdgesOf(PathOf(q, trail))[i] == trail[i]
      {
        if i < |trail| - 1 { assert Ids(p)[i] == TrailIds(trail[..|trail| - 1])[i] && EdgesOf(p)[i] == trail[i]; }
      }
    }
  }

  lemma LastEdge(q: Query, p: Path, k: nat)
    requires |p.nodes| == |p.steps| + 1 && |p.steps| == k + 1
    requires StepJoins(q, p.steps[k], p.nodes[k], Last(p)) && p == Extend(Take(p, k), p.steps[k], Last(p))
    ensures StepPath(q, Take(p, k), p.steps[k].edge) == p
    ensures EdgesOf(p)[..k] == EdgesOf(Take(p, k)) && EdgesOf(p) == EdgesOf(Take(p, k)) + [p.steps[k].edge]
  {
  }

  /** A simple path is spelled out by its own edges. */
  lemma {:induction false} SimplePathOf(q: Query, p: Path)
    requires SimplePath(q, p)
    ensures PathOf(q, EdgesOf(p)) == p
    decreases |p.steps|
  {
    if |p.steps| > 0 {
      FrontOfSimple(q, p);
      var k := |p.steps| - 1;
      LastEdge(q, p, k);
      SimplePathOf(q, Take(p, k));
      hide SimplePath, Expandable, StepJoins, StepPath;
    } else {
      assert p.nodes == [q.start] && p.steps == [];
    }
  }

  lemma FrontEdges(q: Query, p: Path)
    requires SimplePath(q, p) && |p.steps| > 0
    ensures var k := |p.steps| - 1;
      && EdgesOf(p) == EdgesOf(Take(p, k)) + [p.steps[k].edge] && EdgesOf(p)[..k] == EdgesOf(Take(p, k))
      && PathOf(q, EdgesOf(p)) == p && PathOf(q, EdgesOf(Take(p, k))) == Take(p, k)
  {
    hide PathOf, StepPath;
    FrontOfSimple(q, p);
    LastEdge(q, p, |p.steps| - 1);
    SimplePathOf(q, p);
    SimplePathOf(q, Take(p, |p.steps| - 1));
  }

  lemma WalkStep(q: Query, maxDepth: int, front: seq<Edge>, e: Edge)
    requires e in q.rows && CurrentNode(e, q.upstream) == EndOf(q, front)
    requires front != [] ==>
      && WalkTrail(q, maxDepth, front) && |front| < maxDepth
      && EndOf(q, front) !in PathOf(q, front[..|front| - 1]).nodes
      && (q.target == 0 || EndOf(q, front) != q.target)
    ensures WalkTrail(q, maxDepth, front + [e])
  {
    assert (front + [e])[..|front + [e]| - 1] == front;
  }

  /** The walk reaches every simple path within the depth limit, and every edge out of an expanded one. */
  lemma {:induction false} WalkContains(q: Query, maxDepth: int, p: Path, e: Edge)
    requires SimplePath(q, p) && Expandable(q, p) && |p.steps| < maxDepth
    requires e in q.rows && CurrentNode(e, q.upstream) == Last(p)
    ensures WalkTrail(q, maxDepth, EdgesOf(p) + [e])
    decreases |p.steps|
  {
    SimplePathOf(q, p);
    if |p.steps| > 0 {
      FrontOfSimple(q, p);
      FrontEdges(q, p);
      var k := |p.steps| - 1;
      WalkContains(q, maxDepth, Take(p, k), p.steps[k].edge);
    }
    WalkStep(q, maxDepth, EdgesOf(p), e);
  }

  lemma RowsHaveShape(q: Query, maxDepth: int, trail: seq<Edge>)
    requires WalkTrail(q, maxDepth, trail)
    ensures RowShape(q, RowOf(q, trail))
  {
    assert TrailIds(trail) == TrailIds(trail[..|trail| - 1]) + [trail[|trail| - 1].relationID];
  }

  // ----- what visiting a prefix of the walk establishes ------------------------------------------

  /** A live trail is in the table of states. */
  ghost predicate LiveKnown(q: Query, trail: seq<Edge>, t: Tally) {
    Live(q, trail) ==> PathOf(q, trail) in t.frontier
  }

  /** The last edge of a trail has had its effect if it leaves a live path. */
  ghost predicate EdgeCovered(q: Query, trail: seq<Edge>, t: Tally) {
    trail != [] && Live(q, trail[..|trail| - 1]) ==>
      Covered(q, PathOf(q, trail[..|trail| - 1]), trail[|trail| - 1], t)
  }

  ghost predicate TrailsDone(q: Query, trails: seq<seq<Edge>>, t: Tally) {
    forall i :: 0 <= i < |trails| ==> LiveKnown(q, trails[i], t) && EdgeCovered(q, trails[i], t)
  }

  ghost predicate Shallow(limits: Limits, t: Tally) {
    forall p :: p in t.frontier ==> |p.steps| < limits.maxDepth
  }

  /** Nothing but depth has been given up. */
  ghost predicate Intact(q: Query, limits: Limits, sizeOf: CacheKey -> nat, t: Tally) {
    !t.truncated || !TooMuch(q, limits, sizeOf)
  }

  ghost predicate Processed(q: Query, limits: Limits, sizeOf: CacheKey -> nat, trails: seq<seq<Edge>>, w: Walk) {
    && (Intact(q, limits, sizeOf, w.tally) ==> TrailsDone(q, trails, w.tally))
    && (!w.tally.truncated ==> Shallow(limits, w.tally))
  }

  lemma VisitedGrows(q: Query, limits: Limits, w: Walk, c: Candidate)
    ensures Grows(w.tally, VisitedTally(q, limits, w, c))
  {
    if c.parentKey in w.states {
      StepGrows(q, limits.maxNodes, w.states[c.parentKey], c.edge, w.tally);
    }
  }

  /** The parent of a row with a live front is in the table, as the path its trail spells out. */
  lemma ParentIsKnown(q: Query, limits: Limits, done: seq<seq<Edge>>, w: Walk, front: seq<Edge>)
    requires WalkSound(q, limits, w) && TrailsDone(q, done, w.tally)
    requires Live(q, front) && (front == [] || front in done)
    ensures TrailIds(front) in w.states && w.states[TrailIds(front)] == PathOf(q, front)
  {
    PathOfIds(q, front);
    if front != [] {
      assert LiveKnown(q, front, w.tally);
    }
  }

  lemma VisitCovers(q: Query, limits: Limits, sizeOf: CacheKey -> nat, done: seq<seq<Edge>>, t: seq<Edge>, w: Walk)
    requires WalkSound(q, limits, w) && TrailsDone(q, done, w.tally) && WalkTrail(q, limits.maxDepth, t)
    requires Live(q, t[..|t| - 1]) && (|t| == 1 || t[..|t| - 1] in done) && limits.maxDepth >= 1
    requires Intact(q, limits, sizeOf, VisitedTally(q, limits, w, RowOf(q, t)))
    ensures Covered(q, PathOf(q, t[..|t| - 1]), t[|t| - 1], VisitedTally(q, limits, w, RowOf(q, t)))
  {
    var state, e := PathOf(q, t[..|t| - 1]), t[|t| - 1];
    ParentIsKnown(q, limits, done, w, t[..|t| - 1]);
    WalkIsBounded(q, limits.maxDepth, t);
    hide TooMuch;
    if Drops(q, limits.maxNodes, state, e, w.tally) {
      TruncationOverflows(q, limits, sizeOf, |state.steps|, state, e, w.tally);
    } else {
      StepCovers(q, limits.maxNodes, state, e, w.tally);
    }
  }

  lemma TrailStaysDone(q: Query, trail: seq<Edge>, t: Tally, u: Tally)
    requires Grows(t, u) && LiveKnown(q, trail, t) && EdgeCovered(q, trail, t)
    ensures LiveKnown(q, trail, u) && EdgeCovered(q, trail, u)
  {
    if trail != [] && Live(q, trail[..|trail| - 1]) {
      CoveredGrows(q, PathOf(q, trail[..|trail| - 1]), trail[|trail| - 1], t, u);
    }
  }

  lemma AppendTrail(q: Query, done: seq<seq<Edge>>, trail: seq<Edge>, t: Tally, u: Tally)
    requires TrailsDone(q, done, t) && Grows(t, u)
    requires LiveKnown(q, trail, u) && EdgeCovered(q, trail, u)
    ensures TrailsDone(q, done + [trail], u)
  {
    forall i | 0 <= i < |done + [trail]|
      ensures LiveKnown(q, (done + [trail])[i], u) && EdgeCovered(q, (done + [trail])[i], u)
    {
      if i < |done| { TrailStaysDone(q, done[i], t, u); }
    }
  }

  lemma VisitProcesses(
    q: Query, limits: Limits, sizeOf: CacheKey -> nat, done: seq<seq<Edge>>, t: seq<Edge>, w: Walk, v: Walk)
    requires WalkSound(q, limits, w) && Processed(q, limits, sizeOf, done, w) && limits.maxDepth >= 1
    requires WalkTrail(q, limits.maxDepth, t) && (|t| == 1 || t[..|t| - 1] in done)
    requires v.tally == VisitedTally(q, limits, w, RowOf(q, t))
    ensures Processed(q, limits, sizeOf, done + [t], v)
  {
    hide TooMuch;
    VisitedGrows(q, limits, w, RowOf(q, t));
    if Intact(q, limits, sizeOf, v.tally) {
      if Live(q, t[..|t| - 1]) { VisitCovers(q, limits, sizeOf, done, t, w); }
      LiveNeedsLiveFront(q, t, v.tally);
      AppendTrail(q, done, t, w.tally, v.tally);
    }
    if !v.tally.truncated {
      WalkIsBounded(q, limits.maxDepth, t);
      NewStatesAreShallow(q, limits, w, RowOf(q, t));
    }
  }

  lemma LiveNeedsLiveFront(q: Query, t: seq<Edge>, tally: Tally)
    requires t != [] && EdgeCovered(q, t, tally)
    ensures LiveKnown(q, t, tally)
  {
    if Live(q, t) {
      var front, e := t[..|t| - 1], t[|t| - 1];
      var state := PathOf(q, front);
      var s := Step(e, if EvalEdge(e.content, q.context).Success? then EvalEdge(e.content, q.context).value
                       else Evaluation(False, []));
      FrontIsSimple(q, state, s, NextNode(e, q.upstream));
      assert Live(q, front);
    }
  }

  lemma NewStatesAreShallow(q: Query, limits: Limits, w: Walk, c: Candidate)
    requires WalkSound(q, limits, w) && !VisitedTally(q, limits, w, c).truncated
    requires c.depth == |c.parentKey| + 1 <= limits.maxDepth
    requires forall p :: p in w.tally.frontier ==> |p.steps| < limits.maxDepth
    ensures forall p :: p in VisitedTally(q, limits, w, c).frontier ==> |p.steps| < limits.maxDepth
  {
    if c.parentKey in w.states {
      var state := w.states[c.parentKey];
      assert |Ids(state)| == |state.steps|;
    }
  }

  lemma {:induction false} WalkIsBounded(q: Query, maxDepth: int, t: seq<Edge>)
    requires maxDepth >= 1 && WalkTrail(q, maxDepth, t)
    ensures |t| <= maxDepth
  {
  }

  lemma SimpleEndsCollected(q: Query, limits: Limits, trails: seq<seq<Edge>>, t: Tally, p: Path)
    requires TrailsDone(q, trails, t) && q.start in t.visited && WholeWalk(q, limits.maxDepth, trails)
    requires SimplePath(q, p) && |p.steps| <= limits.maxDepth
    ensures Last(p) in t.visited && (Reported(q, p) ==> p in t.paths)
    ensures |p.steps| > 0 && Expandable(q, p) ==> p in t.frontier
  {
    if |p.steps| > 0 {
      FrontOfSimple(q, p);
      var k := |p.steps| - 1;
      EdgeOfWalkCovered(q, limits, trails, t, Take(p, k), p.steps[k].edge);
      assert Extend(Take(p, k), Step(p.steps[k].edge, p.steps[k].evaluation), Last(p)) == p;
    } else {
      assert p.nodes == [q.start];
    }
  }

  lemma ClosingEdgeCollected(q: Query, limits: Limits, trails: seq<seq<Edge>>, t: Tally, p: Path, s: Step)
    requires TrailsDone(q, trails, t) && WholeWalk(q, limits.maxDepth, trails)
    requires Closes(q, p, s) && |p.steps| < limits.maxDepth
    ensures t.cycle
  {
    EdgeOfWalkCovered(q, limits, trails, t, p, s.edge);
  }

  /** A fully visited walk that gave up nothing but depth holds the answer as far as the depth limit goes. */
  lemma WholeWalkIsExact(q: Query, limits: Limits, trails: seq<seq<Edge>>, w: Walk, truncated: bool)
    requires WalkSound(q, limits, w) && TrailsDone(q, trails, w.tally) && WholeWalk(q, limits.maxDepth, trails)
    ensures ExactWithin(q, limits.maxDepth, Finish(w.tally, truncated))
  {
    var t := w.tally;
    forall p | SimplePath(q, p) && |p.steps| <= limits.maxDepth
      ensures Last(p) in t.visited && (Reported(q, p) ==> p in t.paths)
    {
      SimpleEndsCollected(q, limits, trails, t, p);
    }
    if CycleWithin(q, limits.maxDepth) {
      var p, s :| Closes(q, p, s) && |p.steps| < limits.maxDepth;
      ClosingEdgeCollected(q, limits, trails, t, p, s);
    }
    hide SimplePath, Closes, Reported, TrailsDone, WholeWalk, StatesSound;
    CompleteIsExact(q, limits.maxNodes, limits.maxDepth, t, truncated);
  }

  lemma EdgeOfWalkCovered(
    q: Query, limits: Limits, trails: seq<seq<Edge>>, t: Tally, p: Path, e: Edge)
    requires TrailsDone(q, trails, t) && WholeWalk(q, limits.maxDepth, trails)
    requires SimplePath(q, p) && Expandable(q, p) && |p.steps| < limits.maxDepth
    requires e in q.rows && CurrentNode(e, q.upstream) == Last(p)
    ensures Covered(q, p, e, t)
  {
    WalkContains(q, limits.maxDepth, p, e);
    SimplePathOf(q, p);
    var trail := EdgesOf(p) + [e];
    assert trail[..|trail| - 1] == EdgesOf(p) && trail in trails;
    assert EdgeCovered(q, trail, t);
  }

  /** When the walk is visited whole and kept no path of full length, no simple path is longer. */
  lemma SimplePathsAreShallow(q: Query, limits: Limits, trails: seq<seq<Edge>>, t: Tally)
    requires limits.maxDepth >= 1 && TrailsDone(q, trails, t) && Shallow(limits, t) && q.start in t.visited
    requires WholeWalk(q, limits.maxDepth, trails)
    ensures forall p :: SimplePath(q, p) ==> |p.steps| <= limits.maxDepth && (Expandable(q, p) ==> |p.steps| < limits.maxDepth)
  {
    forall x | Extensible(q, limits.maxDepth, x) ensures false {
      SimpleEndsCollected(q, limits, trails, t, x);
    }
    forall p | SimplePath(q, p) && ReachesBeyond(q, limits.maxDepth, p) ensures false {
      HasPrefix(q, limits.maxDepth, p);
    }
    forall p | SimplePath(q, p)
      ensures |p.steps| <= limits.maxDepth && (Expandable(q, p) ==> |p.steps| < limits.maxDepth)
    {
      assert !ReachesBeyond(q, limits.maxDepth, p);
    }
  }

  /** What the visitor kept within its limits, having visited the whole walk, is all there is. */
  lemma NothingTooMuchFound(
    q: Query, limits: Limits, sizeOf: CacheKey -> nat, trails: seq<seq<Edge>>, w: Walk, pathStates: nat, frontierStates: map<int, nat>)
    requires WalkSound(q, limits, w) && TrailsDone(q, trails, w.tally) && WholeWalk(q, limits.maxDepth, trails)
    requires Counting(w.tally, pathStates, frontierStates) && Bounded(pathStates, frontierStates)
    requires PathsFit(limits, sizeOf, w.tally.paths)
    ensures !TooMuch(q, limits, sizeOf)
  {
    var t := w.tally;
    assert AllCollected(q, limits, t) by { AreCollected(q, limits, trails, t); }
    assert |t.visited| <= limits.maxNodes && Distinct(t.paths);
    hide WalkSound, TrailsDone, WholeWalk, PathsFit, Bulky, Crowded, Wide, Bounded, AllCollected;
    NodesCollected(q, limits, t);
    forall paths ensures !Bulky(q, limits, sizeOf, paths) {
      PathsCollected(q, limits, sizeOf, t, paths);
    }
    forall s ensures !Crowded(q, limits.maxDepth, s) {
      StatesCollected(q, limits, t, pathStates, frontierStates, s);
    }
    forall d, layer ensures !Wide(q, limits, d, layer) {
      LayerCollected(q, limits, t, pathStates, frontierStates, d, layer);
    }
  }

  /** Every simple path within the depth limit has been collected. */
  ghost predicate AllCollected(q: Query, limits: Limits, t: Tally) {
    forall p :: SimplePath(q, p) && |p.steps| <= limits.maxDepth ==> Collected(q, t, p)
  }

  ghost predicate Collected(q: Query, t: Tally, p: Path) {
    && p.nodes != [] && Last(p) in t.visited && (Reported(q, p) ==> p in t.paths)
    && (|p.steps| > 0 && Expandable(q, p) ==> p in t.frontier)
  }

  lemma AreCollected(q: Query, limits: Limits, trails: seq<seq<Edge>>, t: Tally)
    requires TrailsDone(q, trails, t) && WholeWalk(q, limits.maxDepth, trails) && q.start in t.visited
    ensures AllCollected(q, limits, t)
  {
    forall p | SimplePath(q, p) && |p.steps| <= limits.maxDepth ensures Collected(q, t, p) {
      SimpleEndsCollected(q, limits, trails, t, p);
    }
  }

  lemma NodesCollected(q: Query, limits: Limits, t: Tally)
    requires AllCollected(q, limits, t) && |t.visited| <= limits.maxNodes
    ensures |ReachedWithin(q, limits.maxDepth)| <= limits.maxNodes
  {
    forall n | n in ReachedWithin(q, limits.maxDepth) ensures n in t.visited {
      var p :| Reaches(q, p, n) && |p.steps| <= limits.maxDepth;
      assert Collected(q, t, p);
    }
    SubsetCardinality(ReachedWithin(q, limits.maxDepth), t.visited);
  }

  lemma PathsCollected(q: Query, limits: Limits, sizeOf: CacheKey -> nat, t: Tally, paths: seq<Path>)
    requires AllCollected(q, limits, t) && Distinct(t.paths) && PathsFit(limits, sizeOf, t.paths)
    ensures !Bulky(q, limits, sizeOf, paths)
  {
    if PathsSound(q, limits.maxDepth, paths) {
      forall p | p in paths ensures p in t.paths { assert Collected(q, t, p); }
      PartOfFitting(limits, sizeOf, t.paths, paths);
    }
  }

  lemma StatesCollected(q: Query, limits: Limits, t: Tally, pathStates: nat, frontierStates: map<int, nat>, s: set<Path>)
    requires AllCollected(q, limits, t) && Counting(t, pathStates, frontierStates) && Bounded(pathStates, frontierStates)
    ensures !Crowded(q, limits.maxDepth, s)
  {
    if SimpleSet(q, limits.maxDepth, s) {
      forall p | p in s ensures p in Found(t) + {Root(q)} {
        assert Collected(q, t, p);
        if |p.steps| == 0 { assert p.nodes == [q.start] && p.steps == []; }
        else if !Expandable(q, p) { assert Reported(q, p); }
      }
      SubsetCardinality(s, Found(t) + {Root(q)});
    }
  }

  lemma LayerCollected(
    q: Query, limits: Limits, t: Tally, pathStates: nat, frontierStates: map<int, nat>, d: int, layer: seq<Path>)
    requires AllCollected(q, limits, t) && Counting(t, pathStates, frontierStates) && Bounded(pathStates, frontierStates)
    ensures !Wide(q, limits, d, layer)
  {
    if d <= limits.maxDepth && LayerOf(q, d, layer) {
      var listed := set p | p in layer;
      DistinctCardinality(layer);
      if d == 0 {
        forall p | p in layer ensures p == Root(q) { assert p.nodes == [q.start] && p.steps == []; }
        SubsetCardinality(listed, {Root(q)});
      } else {
        forall p | p in layer ensures p in StatesAt(d, t) { assert Collected(q, t, p); }
        SubsetCardinality(listed, StatesAt(d, t));
        assert |StatesAt(d, t)| == StatesCounted(frontierStates, d);
      }
    }
  }

  // ----- the walk's own rows are always acceptable -----------------------------------------------

  /** Catalog node ids are positive. */
  predicate PositiveNodes(q: Query) {
    forall e :: e in q.rows ==> NextNode(e, q.upstream) > 0
  }

  function SeenKeys(trails: seq<seq<Edge>>): set<seq<int>> {
    {[]} + set t | t in trails :: TrailIds(t)
  }

  lemma {:induction false} TrailInRows(q: Query, maxDepth: int, t: seq<Edge>)
    requires WalkTrail(q, maxDepth, t)
    ensures forall e :: e in t ==> e in q.rows
  {
    var front := t[..|t| - 1];
    assert t == front + [t[|t| - 1]];
    if front != [] { TrailInRows(q, maxDepth, front); }
  }

  /** Relation ids determine a trail. */
  lemma SameKeySameTrail(q: Query, a: seq<Edge>, b: seq<Edge>)
    requires UniqueRelations(q.rows) && TrailIds(a) == TrailIds(b)
    requires (forall e :: e in a ==> e in q.rows) && (forall e :: e in b ==> e in q.rows)
    ensures a == b
  {
    assert |a| == |TrailIds(a)| == |b|;
    forall i | 0 <= i < |a| ensures a[i] == b[i] {
      assert TrailIds(a)[i] == TrailIds(b)[i];
      RowsAreUnique(q.rows, a[i], b[i]);
    }
  }

  /** The state kept under the key of a trail is the path the trail spells out. */
  lemma StateOfTrail(q: Query, parent: Path, front: seq<Edge>)
    requires UniqueRelations(q.rows) && SimplePath(q, parent) && Ids(parent) == TrailIds(front)
    requires forall e :: e in front ==> e in q.rows
    ensures parent == PathOf(q, front)
  {
    forall e | e in EdgesOf(parent) ensures e in q.rows {
      var i :| 0 <= i < |parent.steps| && parent.steps[i].edge == e;
      assert StepJoins(q, parent.steps[i], parent.nodes[i], parent.nodes[i + 1]);
    }
    assert TrailIds(EdgesOf(parent)) == Ids(parent);
    SameKeySameTrail(q, EdgesOf(parent), front);
    SimplePathOf(q, parent);
  }

  lemma RowFitsParent(q: Query, limits: Limits, states: map<seq<int>, Path>, t: seq<Edge>)
    requires UniqueRelations(q.rows) && PositiveNodes(q) && StatesSound(q, limits, states)
    requires WalkTrail(q, limits.maxDepth, t) && TrailIds(t[..|t| - 1]) in states
    ensures FitsParent(q, states[TrailIds(t[..|t| - 1])], RowOf(q, t))
  {
    TrailInRows(q, limits.maxDepth, t);
    StateOfTrail(q, states[TrailIds(t[..|t| - 1])], t[..|t| - 1]);
  }

  lemma KeyIsNew(q: Query, maxDepth: int, trails: seq<seq<Edge>>, i: nat)
    requires UniqueRelations(q.rows) && i < |trails| && Distinct(trails)
    requires forall k :: 0 <= k <= i ==> WalkTrail(q, maxDepth, trails[k])
    ensures TrailIds(trails[i]) !in SeenKeys(trails[..i])
  {
    var t := trails[i];
    assert |TrailIds(t)| == |t| > 0;
    forall x | x in trails[..i] ensures TrailIds(x) != TrailIds(t) {
      var k :| 0 <= k < i && trails[k] == x;
      if TrailIds(x) == TrailIds(t) {
        TrailInRows(q, maxDepth, t);
        TrailInRows(q, maxDepth, x);
        SameKeySameTrail(q, x, t);
      }
    }
  }

  /** A row of the walk, shown after the rows before it, passes every check of the visitor. */
  lemma RowIsAcceptable(q: Query, limits: Limits, t: seq<Edge>, before: seq<seq<Edge>>, w: Walk)
    requires UniqueRelations(q.rows) && PositiveNodes(q) && limits.maxDepth >= 1
    requires StatesSound(q, limits, w.states) && w.seen == SeenKeys(before)
    requires WalkTrail(q, limits.maxDepth, t) && (|t| == 1 || t[..|t| - 1] in before)
    requires TrailIds(t) !in w.seen
    ensures Acceptable(q, limits, w, RowOf(q, t))
  {
    WalkIsBounded(q, limits.maxDepth, t);
    if TrailIds(t[..|t| - 1]) in w.states { RowFitsParent(q, limits, w.states, t); }
    hide StatesSound, WalkTrail, FitsParent;
    assert |TrailIds(t)| == |t| > 0;
    assert |t| == 1 ==> TrailIds(t[..|t| - 1]) == [];
  }

  // ----- the recursive traversal -----------------------------------------------------------------

  function WalkBytes(rows: seq<Candidate>): nat {
    if rows == [] then 0 else WalkBytes(rows[..|rows| - 1]) + rows[|rows| - 1].edge.rowBytes
  }

  lemma {:induction false} WalkBytesGrow(rows: seq<Candidate>, n: nat)
    requires n <= |rows|
    ensures WalkBytes(rows[..n]) <= WalkBytes(rows)
    decreases |rows|
  {
    if n == |rows| {
      assert rows[..n] == rows;
    } else {
      var front := rows[..|rows| - 1];
      assert front[..n] == rows[..n];
      WalkBytesGrow(front, n);
    }
  }

  lemma WalkBytesNext(rows: seq<Candidate>, i: nat)
    requires i < |rows|
    ensures WalkBytes(rows[..i + 1]) == WalkBytes(rows[..i]) + rows[i].edge.rowBytes <= WalkBytes(rows)
  {
    assert rows[..i + 1][..i] == rows[..i];
    WalkBytesGrow(rows, i + 1);
  }

  /** The walk has more rows, or more bytes of conditions, than one trace may load. */
  predicate WalkTooLong(rows: seq<Candidate>) {
    |rows| > MAXIMUM_EDGE_EXPANSIONS || WalkBytes(rows) > MAXIMUM_LOADED_EDGE_BYTES
  }

  /** Consumes the rows of the walk. Whatever the rows are, the result stays within the limits, and is marked truncated
      only if there is too much to find, a path at the depth limit would be expanded, or the walk is too long. When the
      rows enumerate the walk parent first, it is marked exactly then; only an edge that cannot be evaluated makes it
      fail; unless there is too much to find or the walk is too long, the result is exactly the answer as far as the
      depth limit goes; and unmarked it is the whole answer.
      The program also checks the bytes reported by the load; they are always within what it allowed. */
  method TraceRecursive(
    q: Query, limits: Limits, rows: seq<Candidate>, encodedSize: Step -> nat, ghost trails: seq<seq<Edge>>)
    returns (r: Result<TraceResult, TraceError>)
    requires ValidLimits(limits) && UniqueRelations(q.rows)
    requires forall i :: 0 <= i < |rows| ==> RowShape(q, rows[i])
    ensures r.Failure? && ParentFirst(q, limits.maxDepth, rows, trails) && PositiveNodes(q) ==> SomeEdgeFails(q)
    ensures r.Success? ==>
      WithinLimits(q, limits, r.value) && TotalSteps(r.value.paths) <= MAXIMUM_RESULT_STEPS
    ensures r.Success? && r.value.truncated ==> TooLarge(q, limits, SizesOf(q, encodedSize)) || WalkTooLong(rows)
    ensures r.Success? && ParentFirst(q, limits.maxDepth, rows, trails) ==>
      && (r.value.truncated <==> TooLarge(q, limits, SizesOf(q, encodedSize)) || WalkTooLong(rows))
      && (!TooMuch(q, limits, SizesOf(q, encodedSize)) && !WalkTooLong(rows) ==> ExactWithin(q, limits.maxDepth, r.value))
      && (!r.value.truncated ==> Exact(q, r.value))
  {
    hide TooMuch, Deep, SizesOf, WalkTooLong, SomeEdgeFails, WalkSound, Processed, Counting, Bounded, ExactWithin, Exact;
    hide TotalSteps, TotalBytes;
    var visitor := new Visitor(q, limits, encodedSize);
    var load := new LoadBudget(MAXIMUM_LOADED_EDGE_BYTES);
    ghost var enumerated := ParentFirst(q, limits.maxDepth, rows, trails);
    NothingProcessed(q, limits, visitor.budget.sizeOf, visitor.walk);
    var truncated :- ConsumeRows(visitor, load, rows, enumerated, if enumerated then trails else []);
    var t := visitor.walk.tally;
    WalkWithinLimits(q, limits, visitor.walk, truncated || t.truncated);
    if enumerated && !truncated {
      if !t.truncated || !TooMuch(q, limits, visitor.budget.sizeOf) {
        WalkIsDone(q, limits, visitor.budget.sizeOf, trails, visitor.walk);
        WholeWalkIsExact(q, limits, trails, visitor.walk, t.truncated);
      }
      if !t.truncated {
        PathsAreWithin(q, limits, visitor.walk);
        NothingTooMuchFound(
          q, limits, visitor.budget.sizeOf, trails, visitor.walk, visitor.pathStates, visitor.frontierStates);
        UnmarkedIsWhole(q, limits, visitor.budget.sizeOf, trails, visitor.walk);
      }
    }
    return Success(Finish(t, truncated || t.truncated));
  }

  lemma NothingProcessed(q: Query, limits: Limits, sizeOf: CacheKey -> nat, w: Walk)
    requires ValidLimits(limits) && w.tally.frontier == []
    ensures Processed(q, limits, sizeOf, [], w)
  {
  }

  lemma WalkIsDone(q: Query, limits: Limits, sizeOf: CacheKey -> nat, trails: seq<seq<Edge>>, w: Walk)
    requires Processed(q, limits, sizeOf, trails, w) && Intact(q, limits, sizeOf, w.tally)
    ensures TrailsDone(q, trails, w.tally)
  {
  }

  lemma PathsAreWithin(q: Query, limits: Limits, w: Walk)
    requires WalkSound(q, limits, w)
    ensures |w.tally.paths| <= limits.maxPaths
  {
  }

  /** A whole walk that left no mark is the whole answer, and nothing is deeper. */
  lemma UnmarkedIsWhole(q: Query, limits: Limits, sizeOf: CacheKey -> nat, trails: seq<seq<Edge>>, w: Walk)
    requires ValidLimits(limits) && WalkSound(q, limits, w) && Processed(q, limits, sizeOf, trails, w) && !w.tally.truncated
    requires WholeWalk(q, limits.maxDepth, trails) && ExactWithin(q, limits.maxDepth, Finish(w.tally, false))
    ensures Exact(q, Finish(w.tally, false)) && !Deep(q, limits)
  {
    SimplePathsAreShallow(q, limits, trails, w.tally);
    hide ExactWithin, Exact, WalkSound, Processed, WholeWalk, SimplePath;
    NoDeeper(q, limits, limits.maxDepth, Finish(w.tally, false));
  }

  /** Shows the rows to the visitor until a budget runs out or the visitor stops. The load is cut before the visitor's
      own count of rows could exceed its maximum. */
  method ConsumeRows(
    visitor: Visitor, load: LoadBudget, rows: seq<Candidate>, ghost enumerated: bool, ghost trails: seq<seq<Edge>>)
    returns (r: Result<bool, TraceError>)
    requires visitor.Valid() && visitor.Counted() && forall i :: 0 <= i < |rows| ==> RowShape(visitor.q, rows[i])
    requires visitor.edgeExpansions == 0 && visitor.walk.seen == {[]}
    requires load.maximum == MAXIMUM_LOADED_EDGE_BYTES && load.bytes == 0
    requires enumerated ==> InOrder(visitor.q, visitor.limits.maxDepth, rows, trails) && Distinct(trails)
    requires Processed(visitor.q, visitor.limits, visitor.budget.sizeOf, [], visitor.walk)
    modifies visitor, visitor.evaluator, visitor.budget, load
    ensures r.Failure? && enumerated && PositiveNodes(visitor.q) ==> SomeEdgeFails(visitor.q)
    ensures r.Success? ==> visitor.Valid() && visitor.edgeExpansions <= MAXIMUM_EDGE_EXPANSIONS
    ensures r.Success? && r.value ==> WalkTooLong(rows)
    ensures r.Success? && WalkTooLong(rows) ==> r.value || visitor.walk.tally.truncated
    ensures r.Success? && visitor.walk.tally.truncated ==> TooLarge(visitor.q, visitor.limits, visitor.budget.sizeOf)
    ensures r.Success? && !visitor.walk.tally.truncated ==> visitor.Counted()
    ensures r.Success? && !r.value && enumerated ==>
      Processed(visitor.q, visitor.limits, visitor.budget.sizeOf, trails, visitor.walk)
  {
    hide WalkSound, Processed, TooMuch, Deep, SomeEdgeFails, RowInOrder, Counting, Bounded;
    var i := 0;
    assert rows[..0] == [];
    while i < |rows|
      invariant 0 <= i <= |rows| && visitor.Valid() && visitor.Counted() && visitor.edgeExpansions == i
      invariant i <= MAXIMUM_EDGE_EXPANSIONS && load.bytes == WalkBytes(rows[..i]) <= MAXIMUM_LOADED_EDGE_BYTES
      invariant enumerated ==> visitor.walk.seen == SeenKeys(trails[..i])
      invariant enumerated ==> Processed(visitor.q, visitor.limits, visitor.budget.sizeOf, trails[..i], visitor.walk)
    {
      assert enumerated ==> RowInOrder(visitor.q, visitor.limits.maxDepth, rows, trails, i);
      var outcome :- VisitRow(visitor, load, rows, i, enumerated, trails);
      if outcome != NextRow { return Success(outcome == RowsCut); }
      i := i + 1;
    }
    assert rows[..i] == rows;
    assert enumerated ==> trails[..i] == trails;
    return Success(false);
  }

  datatype RowOutcome = NextRow | VisitorStopped | RowsCut

  method VisitRow(
    visitor: Visitor, load: LoadBudget, rows: seq<Candidate>, i: nat,
    ghost enumerated: bool, ghost trails: seq<seq<Edge>>)
    returns (r: Result<RowOutcome, TraceError>)
    requires visitor.Valid() && visitor.Counted() && i < |rows| && RowShape(visitor.q, rows[i])
    requires visitor.edgeExpansions == i <= MAXIMUM_EDGE_EXPANSIONS
    requires load.maximum == MAXIMUM_LOADED_EDGE_BYTES && load.bytes == WalkBytes(rows[..i])
    requires enumerated ==>
      && InOrder(visitor.q, visitor.limits.maxDepth, rows, trails) && Distinct(trails)
      && visitor.walk.seen == SeenKeys(trails[..i])
      && Processed(visitor.q, visitor.limits, visitor.budget.sizeOf, trails[..i], visitor.walk)
    modifies visitor, visitor.evaluator, visitor.budget, load
    ensures r.Failure? && enumerated && PositiveNodes(visitor.q) ==> SomeEdgeFails(visitor.q)
    ensures r.Success? ==> visitor.Valid() && visitor.edgeExpansions <= MAXIMUM_EDGE_EXPANSIONS
    ensures r.Success? && r.value.RowsCut? ==> WalkTooLong(rows) && visitor.Counted()
    ensures r.Success? && r.value.VisitorStopped? ==>
      && visitor.walk.tally.truncated
      && Processed(visitor.q, visitor.limits, visitor.budget.sizeOf, trails, visitor.walk)
    ensures r.Success? && r.value.NextRow? ==>
      && visitor.Counted() && visitor.edgeExpansions == i + 1
      && load.bytes == WalkBytes(rows[..i + 1]) <= MAXIMUM_LOADED_EDGE_BYTES
    ensures r.Success? && r.value.NextRow? && enumerated ==>
      && visitor.walk.seen == SeenKeys(trails[..i + 1])
      && Processed(visitor.q, visitor.limits, visitor.budget.sizeOf, trails[..i + 1], visitor.walk)
  {
    hide WalkSound, TooMuch, Deep, Counting, Bounded, Acceptable, InOrder, RowInOrder, Distinct, Processed, SeenKeys;
    hide VisitedTally;
    ghost var w := visitor.walk;
    WalkBytesNext(rows, i);
    if i >= MAXIMUM_EDGE_EXPANSIONS { return Success(RowsCut); }
    var accepted := load.Accept(rows[i].edge);
    if !accepted { return Success(RowsCut); }
    if enumerated && PositiveNodes(visitor.q) {
      WalkRowIsAcceptable(visitor.q, visitor.limits, rows, trails, i, w);
    }
    var verdict :- visitor.Visit(rows[i]);
    if verdict.Stop? {
      StoppedIsProcessed(visitor.q, visitor.limits, visitor.budget.sizeOf, trails, visitor.walk);
      return Success(VisitorStopped);
    }
    if enumerated {
      RowProcessed(visitor.q, visitor.limits, visitor.budget.sizeOf, rows, trails, i, w, visitor.walk);
    }
    return Success(NextRow);
  }

  lemma StoppedIsProcessed(q: Query, limits: Limits, sizeOf: CacheKey -> nat, trails: seq<seq<Edge>>, w: Walk)
    requires w.tally.truncated && TooMuch(q, limits, sizeOf)
    ensures Processed(q, limits, sizeOf, trails, w)
  {
  }

  lemma RowTrail(q: Query, maxDepth: int, rows: seq<Candidate>, trails: seq<seq<Edge>>, i: nat)
    requires InOrder(q, maxDepth, rows, trails) && i < |rows|
    ensures |rows| == |trails| && WalkTrail(q, maxDepth, trails[i]) && trails[i] != [] && rows[i] == RowOf(q, trails[i])
    ensures |trails[i]| == 1 || trails[i][..|trails[i]| - 1] in trails[..i]
    ensures rows[i].stateKey == TrailIds(trails[i])
  {
    assert RowInOrder(q, maxDepth, rows, trails, i);
    hide InOrder;
  }

  lemma RowProcessed(
    q: Query, limits: Limits, sizeOf: CacheKey -> nat, rows: seq<Candidate>, trails: seq<seq<Edge>>, i: nat, w: Walk, v: Walk)
    requires ValidLimits(limits) && WalkSound(q, limits, w) && InOrder(q, limits.maxDepth, rows, trails) && i < |rows|
    requires w.seen == SeenKeys(trails[..i]) && Processed(q, limits, sizeOf, trails[..i], w)
    requires v.tally == VisitedTally(q, limits, w, rows[i]) && v.seen == w.seen + {rows[i].stateKey}
    ensures v.seen == SeenKeys(trails[..i + 1]) && Processed(q, limits, sizeOf, trails[..i + 1], v)
  {
    RowTrail(q, limits.maxDepth, rows, trails, i);
    hide InOrder, RowInOrder, WalkSound, Processed, WalkTrail, VisitedTally, TrailIds, SeenKeys, RowOf;
    VisitProcesses(q, limits, sizeOf, trails[..i], trails[i], w, v);
    assert trails[..i + 1] == trails[..i] + [trails[i]];
    SeenNext(trails[..i], trails[i]);
  }

  lemma SeenNext(trails: seq<seq<Edge>>, t: seq<Edge>)
    ensures SeenKeys(trails + [t]) == SeenKeys(trails) + {TrailIds(t)}
  {
  }

  lemma WalkRowIsAcceptable(
    q: Query, limits: Limits, rows: seq<Candidate>, trails: seq<seq<Edge>>, i: nat, w: Walk)
    requires UniqueRelations(q.rows) && PositiveNodes(q) && ValidLimits(limits) && WalkSound(q, limits, w)
    requires InOrder(q, limits.maxDepth, rows, trails) && Distinct(trails) && i < |rows|
    requires w.seen == SeenKeys(trails[..i])
    ensures Acceptable(q, limits, w, rows[i])
  {
    forall k | 0 <= k <= i ensures WalkTrail(q, limits.maxDepth, trails[k]) {
      assert RowInOrder(q, limits.maxDepth, rows, trails, k);
    }
    hide WalkTrail, StatesSound;
    assert RowInOrder(q, limits.maxDepth, rows, trails, i);
    KeyIsNew(q, limits.maxDepth, trails, i);
    RowIsAcceptable(q, limits, trails[i], trails[..i], w);
  }

  lemma WalkWithinLimits(q: Query, limits: Limits, w: Walk, truncated: bool)
    requires WalkSound(q, limits, w)
    ensures WithinLimits(q, limits, Finish(w.tally, truncated))
  {
    VisitedAreReached(q, limits.maxDepth, w.tally.visited);
    assert w.tally.cycle ==> CycleReachable(q);
    SubsetCardinality({q.start}, w.tally.visited);
  }
}
