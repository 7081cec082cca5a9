/** What a trace means, independently of either traversal, and the effect of one edge on a traversal. */
module Graph {
  import opened Wrappers
  import opened Conditions
  import opened ConditionTheorems
  import opened EdgeEvaluation

  datatype Step = Step(edge: Edge, evaluation: Evaluation)

  datatype Path = Path(nodes: seq<int>, steps: seq<Step>)

  /** A traversal over a fixed set of effective edges. `target == 0` asks for every path. */
  datatype Query = Query(rows: seq<Edge>, upstream: bool, start: int, target: int, context: Context)

  datatype Limits = Limits(maxDepth: int, maxNodes: int, maxPaths: int)

  datatype TraceResult = TraceResult(paths: seq<Path>, visitedNodes: int, cycleDetected: bool, truncated: bool)

  function CurrentNode(e: Edge, upstream: bool): int {
    if upstream then e.target else e.source
  }

  function NextNode(e: Edge, upstream: bool): int {
    if upstream then e.source else e.target
  }

  function Root(q: Query): Path {
    Path([q.start], [])
  }

  function Last(p: Path): int
    requires p.nodes != []
  {
    p.nodes[|p.nodes| - 1]
  }

  function Extend(p: Path, s: Step, next: int): Path {
    Path(p.nodes + [next], p.steps + [s])
  }

  function Take(p: Path, k: nat): Path
    requires k <= |p.steps| && |p.nodes| == |p.steps| + 1
  {
    Path(p.nodes[..k + 1], p.steps[..k])
  }

  // ----- the paths a trace is about --------------------------------------------------------------

  predicate StepJoins(q: Query, s: Step, from: int, to: int) {
    && s.edge in q.rows && CurrentNode(s.edge, q.upstream) == from && NextNode(s.edge, q.upstream) == to
    && EvalEdge(s.edge.content, q.context) == Success(s.evaluation) && s.evaluation.truth != False
  }

  /** A path from the start over edges that are not false, visiting no node twice, and leaving the target
      only if the target is also the start. */
  ghost predicate SimplePath(q: Query, p: Path) {
    && |p.nodes| == |p.steps| + 1 && p.nodes[0] == q.start
    && (forall i :: 0 <= i < |p.steps| ==> StepJoins(q, p.steps[i], p.nodes[i], p.nodes[i + 1]))
    && (forall i, j :: 0 <= i < j < |p.nodes| ==> p.nodes[i] != p.nodes[j])
    && (forall i :: 0 < i < |p.steps| ==> q.target == 0 || p.nodes[i] != q.target)
  }

  /** The start is always expanded, every other node unless it is the target. */
  predicate Expandable(q: Query, p: Path)
    requires p.nodes != []
  {
    |p.steps| == 0 || q.target == 0 || Last(p) != q.target
  }

  ghost predicate Reported(q: Query, p: Path) {
    SimplePath(q, p) && |p.steps| > 0 && (q.target == 0 || Last(p) == q.target)
  }

  ghost predicate Reaches(q: Query, p: Path, n: int) {
    SimplePath(q, p) && Last(p) == n
  }

  /** A usable edge that leads from an expanded path back into it. */
  ghost predicate Closes(q: Query, p: Path, s: Step) {
    && SimplePath(q, p) && Expandable(q, p)
    && StepJoins(q, s, Last(p), NextNode(s.edge, q.upstream))
    && NextNode(s.edge, q.upstream) in p.nodes
  }

  function NodesOf(q: Query): set<int> {
    {q.start} + set e | e in q.rows :: NextNode(e, q.upstream)
  }

  ghost function ReachedNodes(q: Query): set<int> {
    set n | n in NodesOf(q) && exists p :: Reaches(q, p, n)
  }

  /** The nodes that some simple path of at most the given length reaches. */
  ghost function ReachedWithin(q: Query, depth: int): set<int> {
    set n | n in NodesOf(q) && exists p :: Reaches(q, p, n) && |p.steps| <= depth
  }

  /** A cycle is closed from a path shorter than the given length. */
  ghost predicate CycleWithin(q: Query, depth: int) {
    exists p, s :: Closes(q, p, s) && |p.steps| < depth
  }

  ghost predicate CycleReachable(q: Query) {
    exists p, s :: Closes(q, p, s)
  }

  predicate Distinct<T(==)>(s: seq<T>) {
    forall i, j :: 0 <= i < j < |s| ==> s[i] != s[j]
  }

  predicate ShortestFirst(paths: seq<Path>) {
    forall i, j :: 0 <= i < j < |paths| ==> |paths[i].steps| <= |paths[j].steps|
  }

  /** The result is exactly the answer: the reported paths once each, the number of reachable nodes, and
      whether a cycle is reachable. */
  ghost predicate Exact(q: Query, r: TraceResult) {
    && (forall p :: p in r.paths <==> Reported(q, p))
    && Distinct(r.paths)
    && r.visitedNodes == |ReachedNodes(q)|
    && (r.cycleDetected <==> CycleReachable(q))
  }

  /** The answer as far as paths of at most the given length go. */
  ghost predicate ExactWithin(q: Query, depth: int, r: TraceResult) {
    && (forall p :: p in r.paths <==> Reported(q, p) && |p.steps| <= depth)
    && Distinct(r.paths)
    && r.visitedNodes == |ReachedWithin(q, depth)|
    && (r.cycleDetected <==> CycleWithin(q, depth))
  }

  /** Nothing of the answer lies beyond the given length. */
  ghost predicate NothingBeyond(q: Query, depth: int) {
    && (forall p :: Reported(q, p) ==> |p.steps| <= depth)
    && ReachedWithin(q, depth) == ReachedNodes(q)
    && (CycleReachable(q) ==> CycleWithin(q, depth))
  }

  /** What even a truncated result guarantees. */
  ghost predicate WithinLimits(q: Query, limits: Limits, r: TraceResult) {
    && (forall p :: p in r.paths ==> Reported(q, p) && |p.steps| <= limits.maxDepth)
    && Distinct(r.paths)
    && |r.paths| <= limits.maxPaths
    && 1 <= r.visitedNodes <= limits.maxNodes && r.visitedNodes <= |ReachedNodes(q)|
    && (r.cycleDetected ==> CycleReachable(q))
  }

  // ----- facts about simple paths ----------------------------------------------------------------

  lemma ExtensionIsSimple(q: Query, p: Path, s: Step, next: int)
    requires SimplePath(q, p) && Expandable(q, p) && StepJoins(q, s, Last(p), next) && next !in p.nodes
    ensures SimplePath(q, Extend(p, s, next))
  {
    var x := Extend(p, s, next);
    forall i | 0 <= i < |x.steps| ensures StepJoins(q, x.steps[i], x.nodes[i], x.nodes[i + 1]) {
      if i < |p.steps| { assert StepJoins(q, p.steps[i], p.nodes[i], p.nodes[i + 1]); }
    }
  }

  lemma FrontIsSimple(q: Query, p: Path, s: Step, next: int)
    requires |p.nodes| == |p.steps| + 1
    requires SimplePath(q, Extend(p, s, next))
    ensures SimplePath(q, p) && Expandable(q, p) && StepJoins(q, s, Last(p), next) && next !in p.nodes
  {
    var x := Extend(p, s, next);
    var n := |p.steps|;
    forall i | 0 <= i < n ensures StepJoins(q, p.steps[i], p.nodes[i], p.nodes[i + 1]) {
      assert StepJoins(q, x.steps[i], x.nodes[i], x.nodes[i + 1]);
    }
    forall i | 0 < i < n ensures q.target == 0 || p.nodes[i] != q.target { assert x.nodes[i] == p.nodes[i]; }
    forall i, j | 0 <= i < j < |p.nodes| ensures p.nodes[i] != p.nodes[j] { assert x.nodes[i] != x.nodes[j]; }
    forall i | 0 <= i < |p.nodes| ensures p.nodes[i] != next { assert x.nodes[i] != x.nodes[n + 1]; }
    assert StepJoins(q, x.steps[n], x.nodes[n], x.nodes[n + 1]);
    assert x.nodes[n] == Last(p) && x.nodes[0] == p.nodes[0];
  }

  lemma FrontOfSimple(q: Query, p: Path)
    requires SimplePath(q, p) && |p.steps| > 0
    ensures var k := |p.steps| - 1; var front := Take(p, k);
      && p == Extend(front, p.steps[k], Last(p))
      && SimplePath(q, front) && Expandable(q, front)
      && StepJoins(q, p.steps[k], Last(front), Last(p)) && Last(p) !in front.nodes
  {
    var k := |p.steps| - 1;
    assert p.nodes == p.nodes[..k + 1] + [p.nodes[k + 1]] && p.steps == p.steps[..k] + [p.steps[k]];
    FrontIsSimple(q, Take(p, k), p.steps[k], Last(p));
  }

  /** A proper prefix of a simple path is simple and was expanded. */
  lemma PrefixOfSimple(q: Query, p: Path, k: nat)
    requires SimplePath(q, p) && k < |p.steps|
    ensures SimplePath(q, Take(p, k)) && Expandable(q, Take(p, k))
  {
    var x := Take(p, k);
    forall i | 0 <= i < k ensures StepJoins(q, x.steps[i], x.nodes[i], x.nodes[i + 1]) {
      assert StepJoins(q, p.steps[i], p.nodes[i], p.nodes[i + 1]);
    }
    assert Last(x) == p.nodes[k];
  }

  lemma RootIsSimple(q: Query)
    ensures SimplePath(q, Root(q)) && Expandable(q, Root(q))
  {
  }

  lemma EndIsNode(q: Query, p: Path)
    requires SimplePath(q, p)
    ensures Last(p) in NodesOf(q)
  {
    if |p.steps| > 0 {
      assert StepJoins(q, p.steps[|p.steps| - 1], p.nodes[|p.steps| - 1], Last(p));
    }
  }

  // ----- the effect of one edge ------------------------------------------------------------------

  datatype Tally = Tally(frontier: seq<Path>, paths: seq<Path>, visited: set<int>, cycle: bool, truncated: bool)

  predicate TargetReached(q: Query, n: int) {
    q.target == 0 || q.target == n
  }

  predicate Continues(q: Query, n: int) {
    q.target == 0 || q.target != n
  }

  /** Both traversals treat an edge out of a live path this way, as long as no budget stops them. */
  function StepTally(q: Query, maxNodes: int, state: Path, e: Edge, t: Tally): Tally {
    var r := EvalEdge(e.content, q.context);
    if r.Failure? || r.value.truth == False then t
    else
      var next := NextNode(e, q.upstream);
      if next in state.nodes then t.(cycle := true)
      else if next !in t.visited && |t.visited| >= maxNodes then t.(truncated := true)
      else
        var p := Extend(state, Step(e, r.value), next);
        t.(visited := t.visited + {next},
           paths := if TargetReached(q, next) then t.paths + [p] else t.paths,
           frontier := if Continues(q, next) then t.frontier + [p] else t.frontier)
  }

  // ----- soundness of what has been collected ----------------------------------------------------

  ghost predicate PathsSound(q: Query, depth: int, paths: seq<Path>) {
    Distinct(paths) && forall p :: p in paths ==> Reported(q, p) && |p.steps| <= depth
  }

  ghost predicate VisitedSound(q: Query, depth: int, maxNodes: int, visited: set<int>) {
    && q.start in visited && |visited| <= maxNodes
    && forall n :: n in visited ==> ReachedBy(q, depth, n)
  }

  ghost predicate ReachedBy(q: Query, depth: int, n: int) {
    exists p :: Reaches(q, p, n) && |p.steps| <= depth
  }

  ghost predicate CycleSound(q: Query, depth: int, cycle: bool) {
    cycle ==> CycleWithin(q, depth)
  }

  /** What is sound for short paths is sound for longer ones. */
  lemma SoundDeeper(q: Query, depth: int, deeper: int, maxNodes: int, visited: set<int>, cycle: bool)
    requires VisitedSound(q, depth, maxNodes, visited) && CycleSound(q, depth, cycle) && depth <= deeper
    ensures VisitedSound(q, deeper, maxNodes, visited) && CycleSound(q, deeper, cycle)
  {
    forall n | n in visited ensures ReachedBy(q, deeper, n) {
      assert ReachedBy(q, depth, n);
      var p :| Reaches(q, p, n) && |p.steps| <= depth;
      assert Reaches(q, p, n) && |p.steps| <= deeper;
    }
    if cycle {
      var p, s :| Closes(q, p, s) && |p.steps| < depth;
      assert Closes(q, p, s) && |p.steps| < deeper;
    }
  }

  lemma VisitedAreWithin(q: Query, depth: int, visited: set<int>)
    requires forall n :: n in visited ==> ReachedBy(q, depth, n)
    ensures visited <= ReachedWithin(q, depth) && |visited| <= |ReachedWithin(q, depth)|
  {
    forall n | n in visited ensures n in ReachedWithin(q, depth) {
      assert ReachedBy(q, depth, n);
      var p :| Reaches(q, p, n) && |p.steps| <= depth;
      EndIsNode(q, p);
    }
    SubsetCardinality(visited, ReachedWithin(q, depth));
  }

  lemma VisitedAreReached(q: Query, depth: int, visited: set<int>)
    requires forall n :: n in visited ==> ReachedBy(q, depth, n)
    ensures visited <= ReachedNodes(q) && |visited| <= |ReachedNodes(q)|
  {
    VisitedAreWithin(q, depth, visited);
    SubsetCardinality(visited, ReachedNodes(q));
  }

  lemma {:induction false} SubsetCardinality<T>(a: set<T>, b: set<T>)
    requires a <= b
    ensures |a| <= |b|
  {
    if a != {} {
      var x :| x in a;
      SubsetCardinality(a - {x}, b - {x});
    }
  }

  /** Sound output that misses no short simple path and no cycle they close is the answer that far. */
  lemma CompleteIsExact(q: Query, maxNodes: int, depth: int, t: Tally, truncated: bool)
    requires PathsSound(q, depth, t.paths) && VisitedSound(q, depth, maxNodes, t.visited) && CycleSound(q, depth, t.cycle)
    requires forall p :: SimplePath(q, p) && |p.steps| <= depth ==> Last(p) in t.visited && (Reported(q, p) ==> p in t.paths)
    requires CycleWithin(q, depth) ==> t.cycle
    ensures ExactWithin(q, depth, TraceResult(t.paths, |t.visited|, t.cycle, truncated))
  {
    VisitedAreWithin(q, depth, t.visited);
    forall n | n in ReachedWithin(q, depth) ensures n in t.visited {
      var p :| Reaches(q, p, n) && |p.steps| <= depth;
    }
    assert t.visited == ReachedWithin(q, depth);
  }

  /** The answer within a depth is the whole answer exactly when nothing lies beyond it. */
  lemma WholeWhenNothingBeyond(q: Query, depth: int, r: TraceResult)
    requires ExactWithin(q, depth, r)
    ensures Exact(q, r) <==> NothingBeyond(q, depth)
  {
    assert ReachedWithin(q, depth) <= ReachedNodes(q);
    if Exact(q, r) {
      SubsetOfEqualSize(ReachedWithin(q, depth), ReachedNodes(q));
    }
    if CycleWithin(q, depth) {
      var p, s :| Closes(q, p, s) && |p.steps| < depth;
    }
  }

  lemma SubsetOfEqualSize<T>(a: set<T>, b: set<T>)
    requires a <= b && |a| == |b|
    ensures a == b
  {
    if a != b {
      var x :| x in b && x !in a;
      SubsetCardinality(a, b - {x});
    }
  }

  /** When no simple path is longer and no path of full length is expanded, nothing lies beyond. */
  lemma ShallowHasNothingBeyond(q: Query, depth: int)
    requires forall p :: SimplePath(q, p) ==> |p.steps| <= depth && (Expandable(q, p) ==> |p.steps| < depth)
    ensures NothingBeyond(q, depth)
  {
    forall n | n in ReachedNodes(q) ensures n in ReachedWithin(q, depth) {
      var p :| Reaches(q, p, n);
    }
    assert ReachedWithin(q, depth) == ReachedNodes(q);
    if CycleReachable(q) {
      var p, s :| Closes(q, p, s);
      assert |p.steps| < depth;
    }
  }

  // ----- coverage: an edge has had its effect ----------------------------------------------------

  /** The tally accounts for what edge `e` out of `state` contributes to the answer. */
  ghost predicate Covered(q: Query, state: Path, e: Edge, t: Tally) {
    forall evaluation :: EvalEdge(e.content, q.context) == Success(evaluation) && evaluation.truth != False ==>
      var next := NextNode(e, q.upstream);
      if next in state.nodes then t.cycle
      else
        var p := Extend(state, Step(e, evaluation), next);
        && next in t.visited
        && (TargetReached(q, next) ==> p in t.paths)
        && (Continues(q, next) ==> p in t.frontier)
  }

  ghost predicate Grows(t: Tally, u: Tally) {
    && t.frontier <= u.frontier && t.paths <= u.paths && t.visited <= u.visited
    && (t.cycle ==> u.cycle) && (t.truncated ==> u.truncated)
  }

  lemma StepGrows(q: Query, maxNodes: int, state: Path, e: Edge, t: Tally)
    ensures Grows(t, StepTally(q, maxNodes, state, e, t))
  {
  }

  /** The edge leads to a node for which the limit on nodes leaves no room. */
  predicate Drops(q: Query, maxNodes: int, state: Path, e: Edge, t: Tally) {
    var r := EvalEdge(e.content, q.context);
    && r.Success? && r.value.truth != False && NextNode(e, q.upstream) !in state.nodes
    && NextNode(e, q.upstream) !in t.visited && |t.visited| >= maxNodes
  }

  lemma StepCovers(q: Query, maxNodes: int, state: Path, e: Edge, t: Tally)
    requires !Drops(q, maxNodes, state, e, t)
    ensures Covered(q, state, e, StepTally(q, maxNodes, state, e, t))
  {
  }

  lemma CoveredGrows(q: Query, state: Path, e: Edge, t: Tally, u: Tally)
    requires Covered(q, state, e, t) && Grows(t, u)
    ensures Covered(q, state, e, u)
  {
  }

  /** What one step adds: at most one path, which is simple, and at most its end node. */
  lemma StepSound(q: Query, depth: int, maxNodes: int, state: Path, e: Edge, t: Tally)
    requires SimplePath(q, state) && Expandable(q, state) && |state.steps| < depth
    requires e in q.rows && CurrentNode(e, q.upstream) == Last(state)
    requires VisitedSound(q, depth, maxNodes, t.visited) && CycleSound(q, depth, t.cycle)
    ensures var u := StepTally(q, maxNodes, state, e, t);
      && VisitedSound(q, depth, maxNodes, u.visited) && CycleSound(q, depth, u.cycle)
      && (u.frontier == t.frontier || u.frontier == t.frontier + [StepPath(q, state, e)])
      && (u.paths == t.paths || u.paths == t.paths + [StepPath(q, state, e)])
      && (u.frontier != t.frontier ==> SimplePath(q, StepPath(q, state, e)) && Expandable(q, StepPath(q, state, e)))
      && (u.paths != t.paths ==> Reported(q, StepPath(q, state, e)))
  {
    var r := EvalEdge(e.content, q.context);
    if r.Success? && r.value.truth != False {
      var next := NextNode(e, q.upstream);
      var s := Step(e, r.value);
      assert StepJoins(q, s, Last(state), next);
      if next in state.nodes {
        assert Closes(q, state, s) && |state.steps| < depth;
      } else {
        var p := Extend(state, s, next);
        ExtensionIsSimple(q, state, s, next);
        assert Reaches(q, p, next) && |p.steps| <= depth;
        assert ReachedBy(q, depth, next);
      }
    }
  }

  function StepPath(q: Query, state: Path, e: Edge): Path {
    var r := EvalEdge(e.content, q.context);
    Extend(state, Step(e, if r.Success? then r.value else Evaluation(False, [])), NextNode(e, q.upstream))
  }

  // ----- context monotonicity --------------------------------------------------------------------

  /** The same path, evaluated in another context. */
  function Reevaluated(p: Path, c: Context): Path {
    Path(p.nodes, seq(|p.steps|, i requires 0 <= i < |p.steps| =>
      var r := EvalEdge(p.steps[i].edge.content, c);
      Step(p.steps[i].edge, if r.Success? then r.value else p.steps[i].evaluation)))
  }

  /** More context only removes paths: a path that is reported under the larger context is reported, over
      the same edges, under the smaller one; and the steps that were true there are still true. */
  lemma MoreContextOnlyRemoves(q: Query, d: Context, p: Path)
    requires Extends(q.context, d) && Reported(q.(context := d), p)
    ensures Reported(q, Reevaluated(p, q.context))
    ensures forall i :: 0 <= i < |p.steps| ==>
      Reevaluated(p, q.context).steps[i].evaluation.truth == True ==> p.steps[i].evaluation.truth == True
  {
    var q' := q.(context := d);
    var w := Reevaluated(p, q.context);
    forall i | 0 <= i < |p.steps|
      ensures StepJoins(q, w.steps[i], w.nodes[i], w.nodes[i + 1])
      ensures w.steps[i].evaluation.truth == True ==> p.steps[i].evaluation.truth == True
    {
      assert StepJoins(q', p.steps[i], p.nodes[i], p.nodes[i + 1]);
      EvaluabilityIsContextFree(p.steps[i].edge.content, q.context, d);
      EdgeCertificate(p.steps[i].edge.content, q.context, d);
    }
  }
}
