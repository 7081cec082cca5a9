/** The budgets of a trace, and what it means that a search space does not fit them. */
module SearchSpace {
  import opened Wrappers
  import opened Conditions
  import opened EdgeEvaluation
  import opened Graph
  import opened GraphRepository
  import opened Sums

  const MAXIMUM_FRONTIER_STATES := 5000
  const MAXIMUM_PATH_STATES := 10000
  const MAXIMUM_EDGE_EXPANSIONS := 100000
  const MAXIMUM_LOADED_EDGE_BYTES := 16777216
  const MAXIMUM_RESULT_STEPS := 20000
  const MAXIMUM_RESULT_BYTES := 8388608

  // ----- the output budget -----------------------------------------------------------------------

  /** The weights of the items of a list, added up. */
  function Total<T>(weight: T -> nat, items: seq<T>): nat {
    if items == [] then 0 else Total(weight, items[..|items| - 1]) + weight(items[|items| - 1])
  }

  lemma TotalAppend<T>(weight: T -> nat, items: seq<T>, x: T)
    ensures Total(weight, items + [x]) == Total(weight, items) + weight(x)
  {
    assert (items + [x])[..|items + [x]| - 1] == items;
  }

  lemma {:induction false} TotalIsSum<T(!new)>(weight: T -> nat, items: seq<T>)
    requires Distinct(items)
    ensures Total(weight, items) == Sum((set x | x in items), weight)
  {
    if items == [] {
      assert (set x | x in items) == {};
      SumEmpty(weight);
    } else {
      var front, last := items[..|items| - 1], items[|items| - 1];
      TotalIsSum(weight, front);
      var all := set x | x in items;
      assert last !in front;
      assert all - {last} == (set x | x in front);
      SumWithout(all, weight, last);
    }
  }

  /** A list without repetition weighs no more than any such list that contains it. */
  lemma TotalOfPart<T(!new)>(weight: T -> nat, part: seq<T>, whole: seq<T>)
    requires Distinct(part) && Distinct(whole) && forall x :: x in part ==> x in whole
    ensures Total(weight, part) <= Total(weight, whole)
  {
    TotalIsSum(weight, part);
    TotalIsSum(weight, whole);
    SumSubset((set x | x in part), (set x | x in whole), weight);
  }

  function StepWeight(): Path -> nat {
    (p: Path) => |p.steps|
  }

  function TotalSteps(paths: seq<Path>): nat {
    Total(StepWeight(), paths)
  }

  lemma TotalStepsAppend(paths: seq<Path>, p: Path)
    ensures TotalSteps(paths + [p]) == TotalSteps(paths) + |p.steps|
  {
    TotalAppend(StepWeight(), paths, p);
  }

  function KeyOf(step: Step): CacheKey {
    CacheKey(step.edge.relationID, step.edge.versionID)
  }

  function StepBytes(sizeOf: CacheKey -> nat, steps: seq<Step>): nat {
    if steps == [] then 0
    else StepBytes(sizeOf, steps[..|steps| - 1]) + sizeOf(KeyOf(steps[|steps| - 1])) + 32
  }

  /** What a path is charged: a fixed part, its nodes, and its encoded steps. */
  function PathBytes(sizeOf: CacheKey -> nat, p: Path): nat {
    64 + |p.nodes| * 24 + StepBytes(sizeOf, p.steps)
  }

  /** What a path is charged: 88 bytes for its start, and for every further step 56 and the step's own encoded size. */
  lemma PathWeighs(sizeOf: CacheKey -> nat, q: Query, p: Path, s: Step, next: int)
    ensures PathBytes(sizeOf, Root(q)) == 88
    ensures PathBytes(sizeOf, Extend(p, s, next)) ==
      PathBytes(sizeOf, p) + 56 + sizeOf(CacheKey(s.edge.relationID, s.edge.versionID))
  {
    assert Extend(p, s, next).steps[..|p.steps|] == p.steps;
  }

  function ByteWeight(sizeOf: CacheKey -> nat): Path -> nat {
    (p: Path) => PathBytes(sizeOf, p)
  }

  function TotalBytes(sizeOf: CacheKey -> nat, paths: seq<Path>): nat {
    Total(ByteWeight(sizeOf), paths)
  }

  lemma TotalBytesAppend(sizeOf: CacheKey -> nat, paths: seq<Path>, p: Path)
    ensures TotalBytes(sizeOf, paths + [p]) == TotalBytes(sizeOf, paths) + PathBytes(sizeOf, p)
  {
    TotalAppend(ByteWeight(sizeOf), paths, p);
  }

  lemma {:induction false} StepBytesGrow(sizeOf: CacheKey -> nat, steps: seq<Step>, n: nat)
    requires n <= |steps|
    ensures StepBytes(sizeOf, steps[..n]) <= StepBytes(sizeOf, steps)
    decreases |steps|
  {
    if n == |steps| {
      assert steps[..n] == steps;
    } else {
      var front := steps[..|steps| - 1];
      assert front[..n] == steps[..n];
      StepBytesGrow(sizeOf, front, n);
    }
  }

  /** The encoded size of a step depends on its relation version only. */
  predicate SizesAgree(encodedSize: Step -> nat, sizeOf: CacheKey -> nat, steps: seq<Step>) {
    forall i :: 0 <= i < |steps| ==> encodedSize(steps[i]) == sizeOf(KeyOf(steps[i]))
  }

  class ResultBudget {
    const encodedSize: Step -> nat
    ghost const sizeOf: CacheKey -> nat
    var steps: nat
    var bytes: nat
    var stepSizes: map<CacheKey, nat>

    constructor (encodedSize: Step -> nat, ghost sizeOf: CacheKey -> nat)
      ensures Valid() && Holds([]) && this.encodedSize == encodedSize && this.sizeOf == sizeOf
    {
      this.encodedSize, this.sizeOf := encodedSize, sizeOf;
      steps := 0;
      bytes := 0;
      stepSizes := map[];
    }

    ghost predicate Valid()
      reads this
    {
      && steps <= MAXIMUM_RESULT_STEPS && bytes <= MAXIMUM_RESULT_BYTES
      && forall k :: k in stepSizes ==> stepSizes[k] == sizeOf(k) + 32
    }

    /** What has been charged so far is exactly these paths. */
    ghost predicate Holds(paths: seq<Path>)
      reads this
    {
      steps == TotalSteps(paths) && bytes == TotalBytes(sizeOf, paths)
    }

    /** Adds up a path's bytes, encoding each relation version once, until they overrun. */
    method Measure(path: Path) returns (fits: bool, pathBytes: nat)
      requires Valid() && |path.steps| > 0 && SizesAgree(encodedSize, sizeOf, path.steps)
      modifies this`stepSizes
      ensures Valid()
      ensures fits <==> bytes + PathBytes(sizeOf, path) <= MAXIMUM_RESULT_BYTES
      ensures fits ==> pathBytes == PathBytes(sizeOf, path)
    {
      pathBytes := 64 + |path.nodes| * 24;
      for i := 0 to |path.steps|
        invariant Valid() && pathBytes == 64 + |path.nodes| * 24 + StepBytes(sizeOf, path.steps[..i])
        invariant i > 0 ==> bytes + pathBytes <= MAXIMUM_RESULT_BYTES
      {
        var step := path.steps[i];
        var key := KeyOf(step);
        if key !in stepSizes {
          stepSizes := stepSizes[key := encodedSize(step) + 32];
        }
        StepBytesNext(sizeOf, path.steps, i);
        pathBytes := pathBytes + stepSizes[key];
        if bytes + pathBytes > MAXIMUM_RESULT_BYTES {
          StepBytesGrow(sizeOf, path.steps, i + 1);
          return false, pathBytes;
        }
      }
      assert path.steps[..|path.steps|] == path.steps;
      return true, pathBytes;
    }

    /** Charges a path exactly when both totals stay within their maxima, and nothing otherwise. */
    method Accept(path: Path) returns (ok: bool)
      requires Valid() && |path.steps| > 0 && SizesAgree(encodedSize, sizeOf, path.steps)
      modifies this
      ensures Valid()
      ensures ok <==>
        old(steps) + |path.steps| <= MAXIMUM_RESULT_STEPS && old(bytes) + PathBytes(sizeOf, path) <= MAXIMUM_RESULT_BYTES
      ensures steps == if ok then old(steps) + |path.steps| else old(steps)
      ensures bytes == if ok then old(bytes) + PathBytes(sizeOf, path) else old(bytes)
    {
      if steps + |path.steps| > MAXIMUM_RESULT_STEPS { return false; }
      var fits, pathBytes := Measure(path);
      if !fits { return false; }
      steps := steps + |path.steps|;
      bytes := bytes + pathBytes;
      return true;
    }
  }

  lemma StepBytesNext(sizeOf: CacheKey -> nat, steps: seq<Step>, i: nat)
    requires i < |steps|
    ensures StepBytes(sizeOf, steps[..i + 1]) == StepBytes(sizeOf, steps[..i]) + sizeOf(KeyOf(steps[i])) + 32
  {
    assert steps[..i + 1][..i] == steps[..i];
  }

  // ----- the sizes of a query's steps ------------------------------------------------------------

  predicate IsStepOf(q: Query, k: CacheKey, e: Edge) {
    e in q.rows && CacheKey(e.relationID, e.versionID) == k && EvalEdge(e.content, q.context).Success?
  }

  ghost function SizeFor(q: Query, encodedSize: Step -> nat, k: CacheKey): nat {
    if exists e :: IsStepOf(q, k, e) then
      var e :| IsStepOf(q, k, e);
      encodedSize(Step(e, EvalEdge(e.content, q.context).value))
    else 0
  }

  /** A step is determined by its relation version, so caching its size by that key loses nothing. */
  ghost function SizesOf(q: Query, encodedSize: Step -> nat): CacheKey -> nat {
    k => SizeFor(q, encodedSize, k)
  }

  lemma SimpleSizesAgree(q: Query, encodedSize: Step -> nat, p: Path)
    requires UniqueRelations(q.rows) && SimplePath(q, p)
    ensures SizesAgree(encodedSize, SizesOf(q, encodedSize), p.steps)
  {
    forall i | 0 <= i < |p.steps| ensures encodedSize(p.steps[i]) == SizesOf(q, encodedSize)(KeyOf(p.steps[i])) {
      var s := p.steps[i];
      assert StepJoins(q, s, p.nodes[i], p.nodes[i + 1]);
      assert IsStepOf(q, KeyOf(s), s.edge);
      forall e | IsStepOf(q, KeyOf(s), e) ensures e == s.edge { RowsAreUnique(q.rows, e, s.edge); }
    }
  }

  lemma RowsAreUnique(rows: seq<Edge>, a: Edge, b: Edge)
    requires UniqueRelations(rows) && a in rows && b in rows && a.relationID == b.relationID
    ensures a == b
  {
    var i :| 0 <= i < |rows| && rows[i] == a;
    var j :| 0 <= j < |rows| && rows[j] == b;
    assert i == j;
  }

  // ----- the cost of expanding --------------------------------------------------------------------

  /** A simple path of the given length that the traversal expands. */
  ghost predicate Extensible(q: Query, depth: int, state: Path) {
    SimplePath(q, state) && |state.steps| == depth && Expandable(q, state)
  }

  /** How many edges leave the end of a path. */
  function Degree(q: Query, p: Path): nat {
    if p.nodes == [] then 0 else |EdgesFrom(q.rows, q.upstream, Last(p))|
  }

  function DegreeWeight(q: Query): Path -> nat {
    (p: Path) => Degree(q, p)
  }

  function EndNodes(paths: seq<Path>): set<int> {
    set p | p in paths && p.nodes != [] :: Last(p)
  }

  /** What loading the edges of a layer costs: every row out of any of its end nodes, once. */
  function LoadOf(q: Query, layer: seq<Path>): nat {
    RowBytes(Matching(q.rows, q.upstream, EndNodes(layer)))
  }

  /** The edges tried and the bytes loaded for a list of layers. */
  function TotalDegree(q: Query, layers: seq<seq<Path>>): nat {
    if layers == [] then 0 else TotalDegree(q, layers[..|layers| - 1]) + Total(DegreeWeight(q), layers[|layers| - 1])
  }

  function TotalLoad(q: Query, layers: seq<seq<Path>>): nat {
    if layers == [] then 0 else TotalLoad(q, layers[..|layers| - 1]) + LoadOf(q, layers[|layers| - 1])
  }

  lemma CostsAppend(q: Query, layers: seq<seq<Path>>, layer: seq<Path>)
    ensures TotalDegree(q, layers + [layer]) == TotalDegree(q, layers) + Total(DegreeWeight(q), layer)
    ensures TotalLoad(q, layers + [layer]) == TotalLoad(q, layers) + LoadOf(q, layer)
  {
    assert (layers + [layer])[..|layers|] == layers;
  }

  ghost predicate LayerOf(q: Query, depth: int, layer: seq<Path>) {
    Distinct(layer) && forall p :: p in layer ==> Extensible(q, depth, p)
  }

  /** Layer `i` lists, without repetition, paths of `i` steps that are expanded. */
  ghost predicate ExpandableLayers(q: Query, layers: seq<seq<Path>>) {
    forall i :: 0 <= i < |layers| ==> LayerOf(q, i, layers[i])
  }

  lemma LayersAppend(q: Query, layers: seq<seq<Path>>, layer: seq<Path>)
    requires ExpandableLayers(q, layers) && LayerOf(q, |layers|, layer)
    ensures ExpandableLayers(q, layers + [layer])
  {
    hide LayerOf;
  }

  /** No layer of the first list has a path that the second list lacks. */
  ghost predicate WithinLayers(part: seq<seq<Path>>, whole: seq<seq<Path>>) {
    forall i :: 0 <= i < |part| ==> WithinLayer(part[i], if i < |whole| then whole[i] else [])
  }

  ghost predicate WithinLayer(part: seq<Path>, whole: seq<Path>) {
    Distinct(part) && Distinct(whole) && forall p :: p in part ==> p in whole
  }

  lemma {:induction false} MatchingGrows(rows: seq<Edge>, upstream: bool, nodes: set<int>, more: set<int>)
    requires nodes <= more
    ensures RowBytes(Matching(rows, upstream, nodes)) <= RowBytes(Matching(rows, upstream, more))
  {
    if rows != [] {
      var front, e := rows[..|rows| - 1], rows[|rows| - 1];
      MatchingGrows(front, upstream, nodes, more);
      var m, n := Matching(front, upstream, nodes), Matching(front, upstream, more);
      assert (m + [e])[..|m|] == m && (n + [e])[..|n|] == n;
    }
  }

  lemma LoadOfPart(q: Query, part: seq<Path>, whole: seq<Path>)
    requires forall p :: p in part ==> p in whole
    ensures LoadOf(q, part) <= LoadOf(q, whole)
  {
    MatchingGrows(q.rows, q.upstream, EndNodes(part), EndNodes(whole));
  }

  lemma EmptyLayerIsFree(q: Query)
    ensures Total(DegreeWeight(q), []) == 0 && LoadOf(q, []) == 0
  {
    assert EndNodes([]) == {};
    NothingMatches(q.rows, q.upstream);
  }

  lemma {:induction false} CostsOfPrefix(q: Query, layers: seq<seq<Path>>, n: nat)
    requires n <= |layers|
    ensures TotalDegree(q, layers[..n]) <= TotalDegree(q, layers) && TotalLoad(q, layers[..n]) <= TotalLoad(q, layers)
    decreases |layers|
  {
    if n == |layers| {
      assert layers[..n] == layers;
    } else {
      assert layers[..|layers| - 1][..n] == layers[..n];
      CostsOfPrefix(q, layers[..|layers| - 1], n);
    }
  }

  /** Fewer paths cost no more. */
  lemma {:induction false} CostsOfPart(q: Query, part: seq<seq<Path>>, whole: seq<seq<Path>>)
    requires WithinLayers(part, whole)
    ensures TotalDegree(q, part) <= TotalDegree(q, whole) && TotalLoad(q, part) <= TotalLoad(q, whole)
    decreases |part|
  {
    hide WithinLayer, LoadOf, DegreeWeight, Total;
    if part != [] {
      var n := |part| - 1;
      assert WithinLayer(part[n], if n < |whole| then whole[n] else []);
      if n < |whole| {
        assert WithinLayers(part[..n], whole[..n]) by { PartOfPrefix(part, whole, n); }
        CostsOfPart(q, part[..n], whole[..n]);
        CostOfLayer(q, part[n], whole[n]);
        assert whole[..n + 1][..n] == whole[..n];
        CostsOfPrefix(q, whole, n + 1);
      } else {
        assert WithinLayers(part[..n], whole);
        CostsOfPart(q, part[..n], whole);
        CostOfLayer(q, part[n], []);
        EmptyLayerIsFree(q);
      }
    }
  }

  lemma PartOfPrefix(part: seq<seq<Path>>, whole: seq<seq<Path>>, n: nat)
    requires WithinLayers(part, whole) && n <= |part| && n <= |whole|
    ensures WithinLayers(part[..n], whole[..n])
  {
    hide WithinLayer;
    forall i | 0 <= i < n ensures WithinLayer(part[..n][i], whole[..n][i]) {
      assert WithinLayer(part[i], if i < |whole| then whole[i] else []);
    }
  }

  lemma CostOfLayer(q: Query, part: seq<Path>, whole: seq<Path>)
    requires WithinLayer(part, whole)
    ensures Total(DegreeWeight(q), part) <= Total(DegreeWeight(q), whole) && LoadOf(q, part) <= LoadOf(q, whole)
  {
    TotalOfPart(DegreeWeight(q), part, whole);
    LoadOfPart(q, part, whole);
  }

  lemma {:induction false} MatchingOneMore(rows: seq<Edge>, upstream: bool, nodes: set<int>, n: int)
    ensures |Matching(rows, upstream, nodes + {n})| <= |Matching(rows, upstream, nodes)| + |EdgesFrom(rows, upstream, n)|
  {
    if rows != [] { MatchingOneMore(rows[..|rows| - 1], upstream, nodes, n); }
  }

  /** A layer loads no more rows than it tries edges. */
  lemma {:induction false} LoadedAtMostTried(q: Query, layer: seq<Path>)
    ensures |Matching(q.rows, q.upstream, EndNodes(layer))| <= Total(DegreeWeight(q), layer)
  {
    if layer == [] {
      assert EndNodes(layer) == {};
      NothingMatches(q.rows, q.upstream);
    } else {
      var front, last := layer[..|layer| - 1], layer[|layer| - 1];
      LoadedAtMostTried(q, front);
      assert layer == front + [last];
      if last.nodes == [] {
        assert EndNodes(layer) == EndNodes(front);
      } else {
        assert EndNodes(layer) == EndNodes(front) + {Last(last)};
        MatchingOneMore(q.rows, q.upstream, EndNodes(front), Last(last));
      }
    }
  }

  // ----- search spaces that do not fit -----------------------------------------------------------

  ghost predicate SimpleSet(q: Query, depth: int, s: set<Path>) {
    forall p :: p in s ==> SimplePath(q, p) && |p.steps| <= depth
  }

  /** More simple paths than the traversal may keep. */
  ghost predicate Crowded(q: Query, depth: int, s: set<Path>) {
    SimpleSet(q, depth, s) && |s| > MAXIMUM_PATH_STATES
  }

  /** More paths of one length to be expanded than a frontier may hold. */
  ghost predicate Wide(q: Query, limits: Limits, depth: int, layer: seq<Path>) {
    depth <= limits.maxDepth && LayerOf(q, depth, layer) && |layer| > MAXIMUM_FRONTIER_STATES
  }

  /** More reported paths than the answer may hold. */
  ghost predicate Bulky(q: Query, limits: Limits, sizeOf: CacheKey -> nat, paths: seq<Path>) {
    && PathsSound(q, limits.maxDepth, paths)
    && (|paths| > limits.maxPaths || TotalSteps(paths) > MAXIMUM_RESULT_STEPS || TotalBytes(sizeOf, paths) > MAXIMUM_RESULT_BYTES)
  }

  /** A path at the depth limit that would be expanded, whether or not an edge leaves it. */
  ghost predicate TooDeep(q: Query, limits: Limits, p: Path) {
    Extensible(q, limits.maxDepth, p)
  }

  /** What there is to find within the depth limit exceeds another limit. */
  ghost predicate TooMuch(q: Query, limits: Limits, sizeOf: CacheKey -> nat) {
    || |ReachedWithin(q, limits.maxDepth)| > limits.maxNodes
    || (exists paths :: Bulky(q, limits, sizeOf, paths))
    || (exists s :: Crowded(q, limits.maxDepth, s))
    || (exists depth, layer :: Wide(q, limits, depth, layer))
  }

  /** Some layers cost more than allowed, or all that is allowed is spent before the last of them. */
  ghost predicate Excessive(q: Query, layers: seq<seq<Path>>) {
    || TotalDegree(q, layers) > MAXIMUM_EDGE_EXPANSIONS
    || TotalLoad(q, layers) > MAXIMUM_LOADED_EDGE_BYTES
    || (layers != [] && layers[|layers| - 1] != [] && Spent(q, layers[..|layers| - 1]))
  }

  ghost predicate Spent(q: Query, layers: seq<seq<Path>>) {
    TotalDegree(q, layers) >= MAXIMUM_EDGE_EXPANSIONS || TotalLoad(q, layers) >= MAXIMUM_LOADED_EDGE_BYTES
  }

  ghost predicate CostlyLayers(q: Query, limits: Limits, layers: seq<seq<Path>>) {
    |layers| <= limits.maxDepth && ExpandableLayers(q, layers) && Excessive(q, layers)
  }

  /** Searching layer by layer tries too many edges or loads too many bytes. */
  ghost predicate TooCostly(q: Query, limits: Limits) {
    exists layers :: CostlyLayers(q, limits, layers)
  }

  /** A limit other than depth is exceeded. This is about the query alone, not about a run, and it looks at nothing
      that the search does not reach. */
  ghost predicate Exceeded(q: Query, limits: Limits, sizeOf: CacheKey -> nat) {
    TooMuch(q, limits, sizeOf) || TooCostly(q, limits)
  }

  ghost predicate Deep(q: Query, limits: Limits) {
    exists p :: TooDeep(q, limits, p)
  }

  /** When the layered search gives up part of the search space. */
  ghost predicate Overflow(q: Query, limits: Limits, sizeOf: CacheKey -> nat) {
    Exceeded(q, limits, sizeOf) || Deep(q, limits)
  }

  /** What the recursive walk is bound by: it is not charged layer by layer. */
  ghost predicate TooLarge(q: Query, limits: Limits, sizeOf: CacheKey -> nat) {
    TooMuch(q, limits, sizeOf) || Deep(q, limits)
  }

  ghost predicate SomeEdgeFails(q: Query) {
    exists e :: e in q.rows && EvalEdge(e.content, q.context).Failure?
  }
}
