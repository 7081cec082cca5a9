/** Loading effective edges for a set of nodes, under a row limit and a byte budget. */
module GraphRepository {
  import opened EdgeEvaluation
  import opened Graph

  /** The rows out of one node, in table order. */
  function EdgesFrom(rows: seq<Edge>, upstream: bool, n: int): seq<Edge> {
    if rows == [] then []
    else
      var front := EdgesFrom(rows[..|rows| - 1], upstream, n);
      var e := rows[|rows| - 1];
      if CurrentNode(e, upstream) == n then front + [e] else front
  }

  /** The rows out of any of the nodes, in table order. */
  function Matching(rows: seq<Edge>, upstream: bool, nodes: set<int>): seq<Edge> {
    if rows == [] then []
    else
      var front := Matching(rows[..|rows| - 1], upstream, nodes);
      var e := rows[|rows| - 1];
      if CurrentNode(e, upstream) in nodes then front + [e] else front
  }

  /** `relation_id` is the primary key of the table of effective edges. */
  ghost predicate UniqueRelations(rows: seq<Edge>) {
    forall i, j :: 0 <= i < j < |rows| ==> rows[i].relationID != rows[j].relationID
  }

  lemma {:induction false} EdgesFromMembers(rows: seq<Edge>, upstream: bool, n: int)
    ensures forall e :: e in EdgesFrom(rows, upstream, n) <==> e in rows && CurrentNode(e, upstream) == n
  {
    if rows != [] {
      EdgesFromMembers(rows[..|rows| - 1], upstream, n);
      assert rows == rows[..|rows| - 1] + [rows[|rows| - 1]];
    }
  }

  lemma {:induction false} EdgesFromDistinct(rows: seq<Edge>, upstream: bool, n: int)
    requires Distinct(rows)
    ensures Distinct(EdgesFrom(rows, upstream, n))
  {
    if rows != [] {
      var front := rows[..|rows| - 1];
      EdgesFromDistinct(front, upstream, n);
      EdgesFromMembers(front, upstream, n);
      assert rows[|rows| - 1] !in front;
    }
  }

  lemma {:induction false} MatchingMembers(rows: seq<Edge>, upstream: bool, nodes: set<int>)
    ensures forall e :: e in Matching(rows, upstream, nodes) <==> e in rows && CurrentNode(e, upstream) in nodes
  {
    if rows != [] {
      MatchingMembers(rows[..|rows| - 1], upstream, nodes);
      assert rows == rows[..|rows| - 1] + [rows[|rows| - 1]];
    }
  }

  lemma {:induction false} MatchingDistinct(rows: seq<Edge>, upstream: bool, nodes: set<int>)
    requires Distinct(rows)
    ensures Distinct(Matching(rows, upstream, nodes))
  {
    if rows != [] {
      var front := rows[..|rows| - 1];
      MatchingDistinct(front, upstream, nodes);
      MatchingMembers(front, upstream, nodes);
      assert rows[|rows| - 1] !in front;
    }
  }

  function RowBytes(rows: seq<Edge>): nat {
    if rows == [] then 0 else RowBytes(rows[..|rows| - 1]) + rows[|rows| - 1].rowBytes
  }

  lemma {:induction false} RowBytesGrow(rows: seq<Edge>, n: nat)
    requires n <= |rows|
    ensures RowBytes(rows[..n]) <= RowBytes(rows)
    decreases |rows|
  {
    if n == |rows| {
      assert rows[..n] == rows;
    } else {
      var front := rows[..|rows| - 1];
      assert front[..n] == rows[..n];
      RowBytesGrow(front, n);
    }
  }

  lemma {:induction false} MatchingIsSmaller(rows: seq<Edge>, upstream: bool, nodes: set<int>)
    ensures |Matching(rows, upstream, nodes)| <= |rows|
    ensures RowBytes(Matching(rows, upstream, nodes)) <= RowBytes(rows)
  {
    if rows != [] {
      var front := rows[..|rows| - 1];
      MatchingIsSmaller(front, upstream, nodes);
      var m := Matching(front, upstream, nodes);
      if CurrentNode(rows[|rows| - 1], upstream) in nodes {
        assert (m + [rows[|rows| - 1]])[..|m|] == m;
      }
    }
  }

  class LoadBudget {
    const maximum: int
    var bytes: int

    constructor (maximum: int)
      ensures this.maximum == maximum && bytes == 0
    {
      this.maximum := maximum;
      bytes := 0;
    }

    method Accept(e: Edge) returns (ok: bool)
      modifies this
      ensures ok <==> old(bytes) + e.rowBytes <= maximum
      ensures bytes == if ok then old(bytes) + e.rowBytes else old(bytes)
    {
      if bytes + e.rowBytes > maximum { return false; }
      bytes := bytes + e.rowBytes;
      return true;
    }
  }

  class Repository {
    /** The effective edges in the order of the query. */
    const rows: seq<Edge>

    constructor (rows: seq<Edge>)
      ensures this.rows == rows
    {
      this.rows := rows;
    }

    /** A prefix of the matching rows: all of them, unless they are too many or too large for the limits given. */
    method LoadEdges(nodeIDs: seq<int>, upstream: bool, limit: int, byteLimit: int)
      returns (edges: seq<Edge>, truncated: bool, consumed: int)
      ensures var matching := Matching(rows, upstream, set n | n in nodeIDs);
        && edges <= matching && (truncated || (edges == matching && consumed == RowBytes(matching)))
        && (truncated <==> nodeIDs != [] && (limit <= 0 || byteLimit <= 0 || |matching| > limit || RowBytes(matching) > byteLimit))
        && 0 <= consumed <= RowBytes(matching) && (byteLimit >= 0 ==> consumed <= byteLimit)
      ensures limit >= 0 ==> |edges| <= limit
    {
      ghost var nodes := set n | n in nodeIDs;
      if |nodeIDs| == 0 {
        NothingMatches(rows, upstream);
        assert nodes == {};
        return [], false, 0;
      }
      if limit <= 0 || byteLimit <= 0 { return [], true, 0; }
      var matched := Matching(rows, upstream, set n | n in nodeIDs);
      var budget := new LoadBudget(byteLimit);
      edges := [];
      for i := 0 to |matched|
        invariant edges == matched[..i] && i <= limit && budget.bytes == RowBytes(matched[..i]) <= byteLimit
        invariant fresh(budget)
      {
        RowBytesGrow(matched, i);
        if |edges| >= limit { return edges, true, budget.bytes; }
        assert matched[..i + 1][..i] == matched[..i];
        RowBytesGrow(matched, i + 1);
        var accepted := budget.Accept(matched[i]);
        if !accepted { return edges, true, budget.bytes; }
        edges := edges + [matched[i]];
      }
      assert matched[..|matched|] == matched;
      return edges, false, budget.bytes;
    }
  }

  lemma NothingMatches(rows: seq<Edge>, upstream: bool)
    ensures Matching(rows, upstream, {}) == []
  {
  }

  /** Loading by node set loses no edge of any of the nodes. */
  lemma {:induction false} MatchingKeepsEdges(rows: seq<Edge>, upstream: bool, nodes: set<int>, n: int)
    requires n in nodes
    ensures EdgesFrom(Matching(rows, upstream, nodes), upstream, n) == EdgesFrom(rows, upstream, n)
  {
    if rows != [] {
      var front := rows[..|rows| - 1];
      MatchingKeepsEdges(front, upstream, nodes, n);
      var e := rows[|rows| - 1];
      if CurrentNode(e, upstream) in nodes {
        var m := Matching(front, upstream, nodes);
        assert (m + [e])[..|m + [e]| - 1] == m;
      }
    }
  }

  /** Groups loaded edges by the node they leave. */
  method GroupEdges(edges: seq<Edge>, upstream: bool) returns (grouped: map<int, seq<Edge>>)
    ensures forall n :: EdgesFrom(edges, upstream, n) == if n in grouped then grouped[n] else []
  {
    grouped := map[];
    for i := 0 to |edges|
      invariant forall n :: EdgesFrom(edges[..i], upstream, n) == if n in grouped then grouped[n] else []
    {
      var e := edges[i];
      assert edges[..i + 1][..i] == edges[..i];
      var n := CurrentNode(e, upstream);
      grouped := grouped[n := (if n in grouped then grouped[n] else []) + [e]];
    }
    assert edges[..|edges|] == edges;
  }

  /** The distinct end nodes of a frontier, in order of first occurrence. */
  method UniqueFrontierNodes(frontier: seq<Path>) returns (nodeIDs: seq<int>)
    requires forall p :: p in frontier ==> p.nodes != []
    ensures Distinct(nodeIDs)
    ensures forall n :: n in nodeIDs <==> exists i :: 0 <= i < |frontier| && Last(frontier[i]) == n
  {
    var seen: set<int> := {};
    nodeIDs := [];
    for i := 0 to |frontier|
      invariant seen == set n | n in nodeIDs
      invariant Distinct(nodeIDs)
      invariant forall n :: n in seen <==> exists j :: 0 <= j < i && Last(frontier[j]) == n
    {
      var n := Last(frontier[i]);
      if n !in seen {
        seen := seen + {n};
        nodeIDs := nodeIDs + [n];
      }
    }
    assert forall n :: n in nodeIDs <==> n in seen;
  }
}
