/** What the two traversals are charged for the same query. The walk of the database follows false edges too, and charges
    an edge once for every trail that ends with it; the layered search charges an edge once per layer. */
module WalkCost {
  import opened Wrappers
  import opened EdgeEvaluation
  import opened Graph
  import opened GraphRepository
  import opened LayeredTrace
  import opened SearchSpace
  import opened RecursiveTrace
  import opened Trace

  // ----- the charge of a walk, by trails ---------------------------------------------------------

  function TrailBytes(): seq<Edge> -> nat {
    (trail: seq<Edge>) => if trail == [] then 0 else trail[|trail| - 1].rowBytes
  }

  lemma RowCharge(q: Query, maxDepth: int, rows: seq<Candidate>, trails: seq<seq<Edge>>, i: nat)
    requires InOrder(q, maxDepth, rows, trails) && i < |rows|
    ensures rows[i].edge.rowBytes == TrailBytes()(trails[i])
  {
    assert RowInOrder(q, maxDepth, rows, trails, i);
    hide InOrder;
  }

  lemma {:induction false} WalkBytesByTrail(q: Query, maxDepth: int, rows: seq<Candidate>, trails: seq<seq<Edge>>, n: nat)
    requires InOrder(q, maxDepth, rows, trails) && n <= |rows|
    ensures WalkBytes(rows[..n]) == Total(TrailBytes(), trails[..n])
  {
    assert |rows| == |trails|;
    hide InOrder, RowInOrder, TrailBytes;
    if n > 0 {
      WalkBytesByTrail(q, maxDepth, rows, trails, n - 1);
      RowCharge(q, maxDepth, rows, trails, n - 1);
      assert rows[..n][..n - 1] == rows[..n - 1] && trails[..n][..n - 1] == trails[..n - 1];
    }
  }

  /** Trails of the walk, listed without repetition, are charged at most as much as the whole walk. */
  lemma WalkCostsAtLeast(q: Query, maxDepth: int, rows: seq<Candidate>, trails: seq<seq<Edge>>, part: seq<seq<Edge>>)
    requires ParentFirst(q, maxDepth, rows, trails)
    requires Distinct(part) && forall x :: x in part ==> WalkTrail(q, maxDepth, x)
    ensures |part| <= |rows| && Total(TrailBytes(), part) <= WalkBytes(rows)
  {
    hide WalkTrail, RowInOrder;
    forall x | x in part ensures x in trails { assert WalkTrail(q, maxDepth, x); }
    DistinctCardinality(part);
    DistinctCardinality(trails);
    SubsetCardinality((set x | x in part), (set x | x in trails));
    TotalOfPart(TrailBytes(), part, trails);
    WalkBytesByTrail(q, maxDepth, rows, trails, |rows|);
    assert rows[..|rows|] == rows && trails[..|rows|] == trails;
  }

  // ----- the trails out of the paths of a layer --------------------------------------------------

  function Fan(q: Query, p: Path): seq<seq<Edge>> {
    if p.nodes == [] then [] else Appended(EdgesOf(p), EdgesFrom(q.rows, q.upstream, Last(p)))
  }

  function Fans(q: Query, layer: seq<Path>): seq<seq<Edge>> {
    if layer == [] then [] else Fans(q, layer[..|layer| - 1]) + Fan(q, layer[|layer| - 1])
  }

  function AllFans(q: Query, layers: seq<seq<Path>>): seq<seq<Edge>> {
    if layers == [] then [] else AllFans(q, layers[..|layers| - 1]) + Fans(q, layers[|layers| - 1])
  }

  lemma {:induction false} FansCount(q: Query, layer: seq<Path>)
    ensures |Fans(q, layer)| == Total(DegreeWeight(q), layer)
  {
    if layer != [] { FansCount(q, layer[..|layer| - 1]); }
  }

  lemma {:induction false} AllFansCount(q: Query, layers: seq<seq<Path>>)
    ensures |AllFans(q, layers)| == TotalDegree(q, layers)
  {
    if layers != [] {
      AllFansCount(q, layers[..|layers| - 1]);
      FansCount(q, layers[|layers| - 1]);
    }
  }

  /** A trail out of a path of a layer: the path is spelled out by all edges but the last. */
  ghost predicate LeavesLayer(q: Query, maxDepth: int, depth: nat, layer: seq<Path>, x: seq<Edge>) {
    |x| == depth + 1 && PathOf(q, x[..depth]) in layer && WalkTrail(q, maxDepth, x)
  }

  lemma FanLeaves(q: Query, maxDepth: int, depth: nat, layer: seq<Path>, p: Path, x: seq<Edge>)
    requires p in layer && Extensible(q, depth, p) && depth < maxDepth && x in Fan(q, p)
    ensures LeavesLayer(q, maxDepth, depth, layer, x) && PathOf(q, x[..depth]) == p
  {
    EdgesFromMembers(q.rows, q.upstream, Last(p));
    AppendedMembers(EdgesOf(p), EdgesFrom(q.rows, q.upstream, Last(p)), x);
    WalkContains(q, maxDepth, p, x[|x| - 1]);
    SimplePathOf(q, p);
    assert x == EdgesOf(p) + [x[|x| - 1]];
  }

  lemma {:induction false} FansLeave(q: Query, maxDepth: int, depth: nat, layer: seq<Path>)
    requires LayerOf(q, depth, layer) && depth < maxDepth
    ensures forall x :: x in Fans(q, layer) ==> LeavesLayer(q, maxDepth, depth, layer, x)
  {
    hide Fan, WalkTrail, Extensible, PathOf;
    if layer != [] {
      var front, last := layer[..|layer| - 1], layer[|layer| - 1];
      assert last in layer;
      FansLeave(q, maxDepth, depth, front);
      forall x | x in Fans(q, layer) ensures LeavesLayer(q, maxDepth, depth, layer, x) {
        if x in Fans(q, front) {
          assert LeavesLayer(q, maxDepth, depth, front, x);
        } else {
          FanLeaves(q, maxDepth, depth, layer, last, x);
        }
      }
    }
  }

  lemma {:induction false} FansDistinct(q: Query, maxDepth: int, depth: nat, layer: seq<Path>)
    requires LayerOf(q, depth, layer) && depth < maxDepth && Distinct(q.rows)
    ensures Distinct(Fans(q, layer))
  {
    if layer != [] {
      var front, last := layer[..|layer| - 1], layer[|layer| - 1];
      assert last in layer && last !in front && Extensible(q, depth, last);
      FansDistinct(q, maxDepth, depth, front);
      FansLeave(q, maxDepth, depth, front);
      EdgesFromDistinct(q.rows, q.upstream, Last(last));
      AppendedDistinct(EdgesOf(last), EdgesFrom(q.rows, q.upstream, Last(last)));
      hide WalkTrail, Extensible, PathOf, EdgesOf;
      forall x | x in Fan(q, last) ensures x !in Fans(q, front) {
        FanLeaves(q, maxDepth, depth, layer, last, x);
      }
      DistinctConcatenation(Fans(q, front), Fan(q, last));
    }
  }

  /** The trails out of all layers are trails of the walk, none of them listed twice. */
  lemma {:induction false} AllFansWalk(q: Query, maxDepth: int, layers: seq<seq<Path>>)
    requires ExpandableLayers(q, layers) && |layers| <= maxDepth && Distinct(q.rows)
    ensures Distinct(AllFans(q, layers))
    ensures forall x :: x in AllFans(q, layers) ==> WalkTrail(q, maxDepth, x) && |x| <= |layers|
  {
    if layers != [] {
      var n := |layers| - 1;
      assert LayerOf(q, n, layers[n]);
      assert ExpandableLayers(q, layers[..n]) by { hide LayerOf; }
      hide WalkTrail, LayerOf, ExpandableLayers, Fans, PathOf;
      AllFansWalk(q, maxDepth, layers[..n]);
      FansLeave(q, maxDepth, n, layers[n]);
      FansDistinct(q, maxDepth, n, layers[n]);
      forall x | x in Fans(q, layers[n]) ensures x !in AllFans(q, layers[..n]) && WalkTrail(q, maxDepth, x) {
        assert LeavesLayer(q, maxDepth, n, layers[n], x);
      }
      DistinctConcatenation(AllFans(q, layers[..n]), Fans(q, layers[n]));
    }
  }

  // ----- the bytes -------------------------------------------------------------------------------

  lemma {:induction false} TotalConcatenation<T>(weight: T -> nat, a: seq<T>, b: seq<T>)
    ensures Total(weight, a + b) == Total(weight, a) + Total(weight, b)
  {
    if b == [] {
      assert a + b == a;
    } else {
      assert (a + b)[..|a + b| - 1] == a + b[..|b| - 1];
      TotalConcatenation(weight, a, b[..|b| - 1]);
    }
  }

  lemma {:induction false} FanBytes(trail: seq<Edge>, edges: seq<Edge>)
    ensures Total(TrailBytes(), Appended(trail, edges)) == RowBytes(edges)
  {
    if edges != [] {
      var front, e := edges[..|edges| - 1], edges[|edges| - 1];
      FanBytes(trail, front);
      assert Appended(trail, edges) == Appended(trail, front) + [trail + [e]];
      TotalAppend(TrailBytes(), Appended(trail, front), trail + [e]);
    }
  }

  lemma {:induction false} MatchingBytesOneMore(rows: seq<Edge>, upstream: bool, nodes: set<int>, n: int)
    ensures RowBytes(Matching(rows, upstream, nodes + {n}))
         <= RowBytes(Matching(rows, upstream, nodes)) + RowBytes(EdgesFrom(rows, upstream, n))
  {
    if rows != [] {
      var front, e := rows[..|rows| - 1], rows[|rows| - 1];
      MatchingBytesOneMore(front, upstream, nodes, n);
      RowBytesAppend(Matching(front, upstream, nodes + {n}), e);
      RowBytesAppend(Matching(front, upstream, nodes), e);
      RowBytesAppend(EdgesFrom(front, upstream, n), e);
    }
  }

  lemma RowBytesAppend(rows: seq<Edge>, e: Edge)
    ensures RowBytes(rows + [e]) == RowBytes(rows) + e.rowBytes
  {
    assert (rows + [e])[..|rows + [e]| - 1] == rows;
  }

  lemma LoadOneMore(q: Query, front: seq<Path>, last: Path)
    ensures LoadOf(q, front + [last]) <= LoadOf(q, front) + Total(TrailBytes(), Fan(q, last))
  {
    var layer := front + [last];
    if last.nodes == [] {
      assert EndNodes(layer) == EndNodes(front);
    } else {
      assert EndNodes(layer) == EndNodes(front) + {Last(last)};
      hide EndNodes, TrailBytes;
      MatchingBytesOneMore(q.rows, q.upstream, EndNodes(front), Last(last));
      FanBytes(EdgesOf(last), EdgesFrom(q.rows, q.upstream, Last(last)));
    }
  }

  lemma {:induction false} FansBytes(q: Query, layer: seq<Path>)
    ensures LoadOf(q, layer) <= Total(TrailBytes(), Fans(q, layer))
  {
    if layer == [] {
      EmptyLayerIsFree(q);
    } else {
      hide LoadOf, Fan, TrailBytes;
      var front, last := layer[..|layer| - 1], layer[|layer| - 1];
      assert layer == front + [last];
      FansBytes(q, front);
      TotalConcatenation(TrailBytes(), Fans(q, front), Fan(q, last));
      LoadOneMore(q, front, last);
    }
  }

  lemma {:induction false} AllFansBytes(q: Query, layers: seq<seq<Path>>)
    ensures TotalLoad(q, layers) <= Total(TrailBytes(), AllFans(q, layers))
  {
    if layers != [] {
      var front, last := layers[..|layers| - 1], layers[|layers| - 1];
      AllFansBytes(q, front);
      FansBytes(q, last);
      TotalConcatenation(TrailBytes(), AllFans(q, front), Fans(q, last));
    }
  }

  // ----- the two charges compared ----------------------------------------------------------------

  /** Whatever layers the layered search expands, the walk has at least as many rows as they try edges, and at least as
      many bytes as they load. */
  lemma WalkCostsMore(q: Query, maxDepth: int, layers: seq<seq<Path>>, rows: seq<Candidate>, trails: seq<seq<Edge>>)
    requires UniqueRelations(q.rows) && ParentFirst(q, maxDepth, rows, trails)
    requires ExpandableLayers(q, layers) && |layers| <= maxDepth
    ensures TotalDegree(q, layers) <= |rows| && TotalLoad(q, layers) <= WalkBytes(rows)
  {
    UniqueRowsDetermine(q.rows);
    hide ParentFirst, ExpandableLayers, TotalDegree, TotalLoad, AllFans, Total, WalkTrail;
    AllFansWalk(q, maxDepth, layers);
    WalkCostsAtLeast(q, maxDepth, rows, trails, AllFans(q, layers));
    AllFansCount(q, layers);
    AllFansBytes(q, layers);
  }

  /** Layers that cost exactly all that is allowed, with a path left to expand. */
  ghost predicate JustSpent(q: Query, limits: Limits, layers: seq<seq<Path>>) {
    && 0 < |layers| <= limits.maxDepth && ExpandableLayers(q, layers) && layers[|layers| - 1] != []
    && var before := layers[..|layers| - 1];
       TotalDegree(q, before) == MAXIMUM_EDGE_EXPANSIONS || TotalLoad(q, before) == MAXIMUM_LOADED_EDGE_BYTES
  }

  /** So the layered search gives up for cost where the walk does not only if a budget is spent to the last unit just
      before a layer; in every other case a search too costly for the layers is too long a walk as well. */
  lemma CostlyIsTooLong(q: Query, limits: Limits, rows: seq<Candidate>, trails: seq<seq<Edge>>)
    requires UniqueRelations(q.rows) && ParentFirst(q, limits.maxDepth, rows, trails)
    requires TooCostly(q, limits) && !WalkTooLong(rows)
    ensures exists layers :: JustSpent(q, limits, layers)
  {
    hide ParentFirst, ExpandableLayers, TotalDegree, TotalLoad, LayerOf;
    var layers :| CostlyLayers(q, limits, layers);
    WalkCostsMore(q, limits.maxDepth, layers, rows, trails);
    var before := layers[..|layers| - 1];
    CostsOfPrefix(q, layers, |layers| - 1);
    assert JustSpent(q, limits, layers);
  }
}
