/** Publishing a schema snapshot: stable nodes, their append-only versions, the current version of each, and the
    search index that must list exactly the active ones. */
module Catalog {
  import opened Wrappers
  import opened Scope
  import opened Supply

  datatype NodeStatus = NodeActive | NodeStale

  datatype Facts = Facts(
    name: string, qualifiedName: string, dataType: string, nullable: bool, ordinal: int, metadata: string)

  datatype NodeRow = NodeRow(dataSource: int, stableKey: string, kind: NodeKind)

  datatype VersionRow = VersionRow(nodeID: int, scanRun: int, parent: Option<int>, status: NodeStatus, facts: Facts)

  datatype SearchRow = SearchRow(nodeID: int, name: string, qualifiedName: string, dataType: string)

  datatype Tables = Tables(
    nodes: map<int, NodeRow>, versions: map<int, VersionRow>, current: map<int, int>, search: seq<SearchRow>)

  datatype NodeInput = NodeInput(kind: NodeKind, stableKey: string, parentKey: string, facts: Facts)

  /** The snapshot of one data source; no tables in scope means all of it. */
  datatype Snapshot = Snapshot(scanRun: int, dataSource: int, nodes: seq<NodeInput>, tables: seq<string>)

  datatype CatalogError = ConstraintViolated | IdentifiersExhausted

  type Outcome<+T> = Result<T, CatalogError>

  // ----- the invariant ---------------------------------------------------------------------------

  function RowsOf(search: seq<SearchRow>, n: int): seq<SearchRow> {
    if search == [] then []
    else
      var last := search[|search| - 1];
      RowsOf(search[..|search| - 1], n) + (if last.nodeID == n then [last] else [])
  }

  predicate IsActive(t: Tables, n: int) {
    n in t.current && t.current[n] in t.versions && t.versions[t.current[n]].status == NodeActive
  }

  function Entry(n: int, facts: Facts): SearchRow {
    SearchRow(n, facts.name, facts.qualifiedName, facts.dataType)
  }

  function ExpectedRows(t: Tables, n: int): seq<SearchRow> {
    if IsActive(t, n) then [Entry(n, t.versions[t.current[n]].facts)] else []
  }

  /** UNIQUE(data_source_id, stable_key) */
  predicate SameKey(a: NodeRow, b: NodeRow) {
    a.dataSource == b.dataSource && a.stableKey == b.stableKey
  }

  /** Keys are unique within a source, and identifiers are positive 64-bit integers. */
  predicate KeysDistinct(t: Tables) {
    && (forall a, b :: a in t.nodes && b in t.nodes && SameKey(t.nodes[a], t.nodes[b]) ==> a == b)
    && (forall n :: n in t.nodes ==> 0 < n < 0x8000_0000_0000_0000)
  }

  predicate CurrentSound(t: Tables) {
    forall n :: n in t.current ==> n in t.nodes && t.current[n] in t.versions && t.versions[t.current[n]].nodeID == n
  }

  /** The search index holds exactly one row per active node, matching its current version, and none for others. */
  ghost predicate IndexAgrees(t: Tables) {
    forall n {:trigger ExpectedRows(t, n)} {:trigger RowsOf(t.search, n)} :: RowsOf(t.search, n) == ExpectedRows(t, n)
  }

  ghost predicate Sound(t: Tables) {
    KeysDistinct(t) && CurrentSound(t) && IndexAgrees(t) && ParentsExist(t)
  }

  predicate ParentsExist(t: Tables) {
    forall v :: v in t.versions && t.versions[v].parent.Some? ==> t.versions[v].parent.value in t.nodes
  }

  function Used(t: Tables): set<int> {
    t.nodes.Keys + t.versions.Keys
  }

  /** Versions may be written: this many identifiers are left, and every version's parent exists. */
  predicate Ready(left: seq<int>, t: Tables, n: nat) {
    Plenty(left, Used(t), n) && ParentsExist(t)
  }

  /** Every parent key is that of an input or of a known node of the source. */
  ghost predicate ParentsKnown(t: Tables, p: Snapshot) {
    forall i :: 0 <= i < |p.nodes| ==>
      p.nodes[i].parentKey == "" || p.nodes[i].parentKey in KeysOf(p) || exists n :: KeyNode(t, p, p.nodes[i].parentKey, n)
  }

  function MissingNodes(t: Tables, p: Snapshot): set<int> {
    set n | n in t.nodes && Missing(t, p, n)
  }

  // ----- what a publication is meant to do -------------------------------------------------------

  predicate DistinctInputs(p: Snapshot) {
    forall i, j :: 0 <= i < j < |p.nodes| ==> p.nodes[i].stableKey != p.nodes[j].stableKey
  }

  function KeysOf(p: Snapshot): set<string> {
    set i | 0 <= i < |p.nodes| :: p.nodes[i].stableKey
  }

  /** An active node of the source that the snapshot covers and does not contain. */
  predicate Missing(t: Tables, p: Snapshot, n: int) {
    && n in t.nodes && t.nodes[n].dataSource == p.dataSource && IsActive(t, n)
    && t.nodes[n].stableKey !in KeysOf(p)
    && WithinTables(t.nodes[n].kind, t.versions[t.current[n]].facts.qualifiedName, p.tables)
  }

  function StaleFacts(facts: Facts): Facts {
    if facts.metadata == "" then facts.(metadata := "{}") else facts
  }

  function StaleVersion(t: Tables, p: Snapshot, n: int): VersionRow
    requires IsActive(t, n)
  {
    var was := t.versions[t.current[n]];
    VersionRow(n, p.scanRun, was.parent, NodeStale, StaleFacts(was.facts))
  }

  /** Nodes and versions are only ever added, and a node keeps its key. */
  predicate RowsKept(t: Tables, u: Tables) {
    && (forall n :: n in t.nodes ==> n in u.nodes && u.nodes[n] == t.nodes[n])
    && (forall v :: v in t.versions ==> v in u.versions && u.versions[v] == t.versions[v])
  }

  /** Input `i` of the snapshot has one node, now active with what the scan saw. */
  ghost predicate InputPublished(u: Tables, p: Snapshot, i: nat)
    requires i < |p.nodes|
  {
    exists n :: NodeShows(u, p, n, i)
  }

  predicate NodeShows(u: Tables, p: Snapshot, n: int, i: nat)
    requires i < |p.nodes|
  {
    && n in u.nodes && u.nodes[n].dataSource == p.dataSource && u.nodes[n].stableKey == p.nodes[i].stableKey
    && IsActive(u, n) && VersionShows(u, p, u.versions[u.current[n]], i)
  }

  /** A version says what the scan saw of input `i`, under the node of its parent. */
  predicate VersionShows(u: Tables, p: Snapshot, row: VersionRow, i: nat)
    requires i < |p.nodes|
  {
    row.facts == p.nodes[i].facts && row.scanRun == p.scanRun && ParentFits(u, p, row.parent, p.nodes[i].parentKey)
  }

  predicate ParentFits(u: Tables, p: Snapshot, parent: Option<int>, key: string) {
    if key == "" then parent.None? else parent.Some? && KeyNode(u, p, key, parent.value)
  }

  predicate BecameStale(t: Tables, u: Tables, p: Snapshot, n: int) {
    && n in t.current && t.current[n] in t.versions && n in u.current && u.current[n] in u.versions
    && var was, is_ := t.versions[t.current[n]], u.versions[u.current[n]];
       is_.status == NodeStale && is_.scanRun == p.scanRun && is_.parent == was.parent && is_.facts == StaleFacts(was.facts)
  }

  /** A node the snapshot does not contain: stale if it went missing, otherwise exactly as before. */
  predicate OtherNode(t: Tables, u: Tables, p: Snapshot, n: int) {
    if Missing(t, p, n) then BecameStale(t, u, p, n)
    else (n in u.current <==> n in t.current) && (n in t.current ==> u.current[n] == t.current[n])
  }

  predicate InSnapshot(u: Tables, p: Snapshot, n: int) {
    n in u.nodes && u.nodes[n].dataSource == p.dataSource && u.nodes[n].stableKey in KeysOf(p)
  }

  ghost predicate Published(t: Tables, u: Tables, p: Snapshot) {
    && RowsKept(t, u)
    && (forall i :: 0 <= i < |p.nodes| ==> InputPublished(u, p, i))
    && (forall n {:trigger OtherNode(t, u, p, n)} :: !InSnapshot(u, p, n) ==> OtherNode(t, u, p, n))
    && (forall n :: n in u.nodes && n !in t.nodes ==> InSnapshot(u, p, n) && KindFits(u, p, n))
  }

  /** A new node has the kind of its input. */
  predicate KindFits(u: Tables, p: Snapshot, n: int) {
    n in u.nodes && exists i :: 0 <= i < |p.nodes| && p.nodes[i].stableKey == u.nodes[n].stableKey && p.nodes[i].kind == u.nodes[n].kind
  }

  // ----- the search index ------------------------------------------------------------------------

  /** DELETE FROM node_search WHERE node_id = n */
  function Without(search: seq<SearchRow>, n: int): seq<SearchRow> {
    if search == [] then []
    else
      var last := search[|search| - 1];
      Without(search[..|search| - 1], n) + (if last.nodeID == n then [] else [last])
  }

  lemma RowsAppend(search: seq<SearchRow>, row: SearchRow, n: int)
    ensures RowsOf(search + [row], n) == RowsOf(search, n) + (if row.nodeID == n then [row] else [])
  {
    assert (search + [row])[..|search|] == search;
  }

  lemma {:induction false} RowsWithout(search: seq<SearchRow>, n: int, m: int)
    ensures RowsOf(Without(search, n), m) == if m == n then [] else RowsOf(search, m)
  {
    if search != [] {
      var front, last := search[..|search| - 1], search[|search| - 1];
      RowsWithout(front, n, m);
      if last.nodeID != n {
        RowsAppend(Without(front, n), last, m);
      } else {
        assert Without(search, n) == Without(front, n);
      }
      assert m != last.nodeID ==> RowsOf(search, m) == RowsOf(front, m);
    }
  }

  // ----- resolving nodes -------------------------------------------------------------------------

  /** Every key of the snapshot has its node; only nodes were added, for keys of the snapshot. */
  ghost predicate Resolved(t: Tables, u: Tables, p: Snapshot, upTo: nat, nodeIDs: map<string, int>)
    requires upTo <= |p.nodes|
  {
    && u == t.(nodes := u.nodes) && KeysDistinct(u)
    && (forall n :: n in t.nodes ==> n in u.nodes && u.nodes[n] == t.nodes[n])
    && (forall n :: n in u.nodes && n !in t.nodes ==> InSnapshot(u, p, n) && KindFits(u, p, n))
    && (forall k :: k in nodeIDs ==> KeyNode(u, p, k, nodeIDs[k]))
    && (forall n :: n in u.nodes && u.nodes[n].dataSource == p.dataSource ==> u.nodes[n].stableKey in nodeIDs)
    && (forall i :: 0 <= i < upTo ==> p.nodes[i].stableKey in nodeIDs)
  }

  predicate KeyNode(t: Tables, p: Snapshot, k: string, n: int) {
    n in t.nodes && t.nodes[n].dataSource == p.dataSource && t.nodes[n].stableKey == k
  }

  lemma NodeAdded(t: Tables, u: Tables, p: Snapshot, i: nat, nodeIDs: map<string, int>, n: int, kind: NodeKind)
    requires i < |p.nodes| && Resolved(t, u, p, i, nodeIDs) && p.nodes[i].stableKey !in nodeIDs && n !in u.nodes
    requires 0 < n < 0x8000_0000_0000_0000 && kind == p.nodes[i].kind
    ensures var k := p.nodes[i].stableKey;
      Resolved(t, u.(nodes := u.nodes[n := NodeRow(p.dataSource, k, kind)]), p, i + 1, nodeIDs[k := n])
  {
    var k := p.nodes[i].stableKey;
    var w := u.(nodes := u.nodes[n := NodeRow(p.dataSource, k, kind)]);
    assert k in KeysOf(p);
    forall a, b | a in w.nodes && b in w.nodes && SameKey(w.nodes[a], w.nodes[b]) ensures a == b {
      if a != n && b != n { assert SameKey(u.nodes[a], u.nodes[b]); }
      if a != n { assert u.nodes[a].dataSource == p.dataSource ==> u.nodes[a].stableKey in nodeIDs; }
      if b != n { assert u.nodes[b].dataSource == p.dataSource ==> u.nodes[b].stableKey in nodeIDs; }
    }
    var more := nodeIDs[k := n];
    forall j | j in more ensures KeyNode(w, p, j, more[j]) {
      if j != k { assert KeyNode(u, p, j, nodeIDs[j]); }
    }
    forall m | m in w.nodes && m !in t.nodes ensures InSnapshot(w, p, m) && KindFits(w, p, m) {
      if m != n { assert InSnapshot(u, p, m) && KindFits(u, p, m); }
    }
  }

  /** The rows of the source, read one by one. */
  method ExistingNodes(t: Tables, p: Snapshot) returns (nodeIDs: map<string, int>)
    ensures forall n :: n in t.nodes && t.nodes[n].dataSource == p.dataSource ==> t.nodes[n].stableKey in nodeIDs
    ensures forall k :: k in nodeIDs ==> KeyNode(t, p, k, nodeIDs[k])
  {
    nodeIDs := map[];
    var rows := set n | n in t.nodes && t.nodes[n].dataSource == p.dataSource;
    while rows != {}
      invariant forall n :: n in rows ==> n in t.nodes && t.nodes[n].dataSource == p.dataSource
      invariant forall n :: n in t.nodes && t.nodes[n].dataSource == p.dataSource && n !in rows ==> t.nodes[n].stableKey in nodeIDs
      invariant forall k :: k in nodeIDs ==> KeyNode(t, p, k, nodeIDs[k])
      decreases |rows|
    {
      assert exists n :: n in rows by { assert (forall n :: n !in rows) ==> rows == {}; }
      var n :| n in rows;
      rows := rows - {n};
      nodeIDs := nodeIDs[t.nodes[n].stableKey := n];
    }
  }

  class CatalogStore {
    var t: Tables

    constructor ()
      ensures Sound(t)
    {
      t := Tables(map[], map[], map[], []);
    }

    /** Fails only when it is not given enough identifiers. `spare` is what the caller needs afterwards. */
    method ResolveNodeIDs(ids: Identifiers, p: Snapshot, ghost spare: nat) returns (r: Outcome<map<string, int>>)
      requires KeysDistinct(t)
      modifies this, ids
      ensures r.Success? ==> Resolved(old(t), t, p, |p.nodes|, r.value)
      ensures Plenty(old(ids.left), Used(old(t)), spare + |p.nodes|) ==> r.Success? && Plenty(ids.left, Used(t), spare)
    {
      ghost var plenty := Plenty(ids.left, Used(t), spare + |p.nodes|);
      hide KeysOf, InSnapshot;
      var nodeIDs := ExistingNodes(t, p);
      NothingResolved(t, p, nodeIDs);
      hide Resolved, KeyNode, KeysDistinct, Plenty;
      for i := 0 to |p.nodes|
        invariant Resolved(old(t), t, p, i, nodeIDs)
        invariant plenty ==> Plenty(ids.left, Used(t), spare + |p.nodes| - i)
      {
        var input := p.nodes[i];
        if plenty {
          PlentyAfterOne(ids.left, Used(t), spare + |p.nodes| - i - 1);
          PlentyForFewer(ids.left, Used(t), spare + |p.nodes| - i, spare + |p.nodes| - i - 1);
        }
        if input.stableKey in nodeIDs {
          AlreadyResolved(old(t), t, p, i, nodeIDs);
          continue;
        }
        var id := ids.Next();
        if id.None? { return Failure(IdentifiersExhausted); }
        if id.value in t.nodes || !(0 < id.value < 0x8000_0000_0000_0000) { return Failure(ConstraintViolated); }
        NodeAdded(old(t), t, p, i, nodeIDs, id.value, input.kind);
        ghost var used := Used(t);
        t := t.(nodes := t.nodes[id.value := NodeRow(p.dataSource, input.stableKey, input.kind)]);
        assert Used(t) == used + {id.value};
        nodeIDs := nodeIDs[input.stableKey := id.value];
      }
      return Success(nodeIDs);
    }

    /** A version row needs an unused identifier and an existing parent. */
    method InsertVersion(ids: Identifiers, row: VersionRow, ghost spare: nat) returns (r: Outcome<int>)
      modifies this, ids
      ensures Plenty(old(ids.left), Used(old(t)), spare + 1) && (row.parent.Some? ==> row.parent.value in old(t).nodes) ==>
        r.Success? && Plenty(ids.left, Used(t), spare)
      ensures r.Failure? ==> t == old(t)
      ensures r.Success? ==> r.value !in old(t).versions && t == old(t).(versions := old(t).versions[r.value := row])
      ensures r.Success? ==> row.parent.Some? ==> row.parent.value in t.nodes
    {
      if Plenty(ids.left, Used(t), spare + 1) { PlentyAfterOne(ids.left, Used(t), spare); }
      ghost var used := Used(t);
      var id := ids.Next();
      if id.None? { return Failure(IdentifiersExhausted); }
      if id.value in t.versions || id.value <= 0 { return Failure(ConstraintViolated); }
      if row.parent.Some? && row.parent.value !in t.nodes { return Failure(ConstraintViolated); }
      t := t.(versions := t.versions[id.value := row]);
      assert Used(t) == used + {id.value};
      return Success(id.value);
    }

    /** A new active version for every input, with what its search row will say. */
    method InsertSeen(ids: Identifiers, p: Snapshot, nodeIDs: map<string, int>, ghost spare: nat)
      returns (r: Outcome<map<int, int>>, records: map<int, Facts>)
      requires Keyed(t, p, nodeIDs) && DistinctInputs(p) && AllKeyed(t, p, nodeIDs)
      modifies this, ids
      ensures r.Success? ==> Seen(old(t), t, p, |p.nodes|, nodeIDs, r.value, records)
      ensures r.Success? && ParentsExist(old(t)) ==> ParentsExist(t)
      ensures Plenty(old(ids.left), Used(old(t)), spare + |p.nodes|) && ParentsResolve(p, nodeIDs) ==>
        r.Success? && Plenty(ids.left, Used(t), spare)
    {
      ghost var plenty := Plenty(ids.left, Used(t), spare + |p.nodes|) && ParentsResolve(p, nodeIDs);
      hide Keyed, Plenty, Used, ParentsExist;
      var versionIDs: map<int, int> := map[];
      records := map[];
      NothingSeen(t, p, nodeIDs);
      hide Seen, AllKeyed;
      for i := 0 to |p.nodes|
        invariant ParentsExist(old(t)) ==> ParentsExist(t)
        invariant plenty ==> Plenty(ids.left, Used(t), spare + |p.nodes| - i)
        invariant Keyed(t, p, nodeIDs) && AllKeyed(t, p, nodeIDs) && Seen(old(t), t, p, i, nodeIDs, versionIDs, records)
      {
        var input := p.nodes[i];
        InputIsKeyed(t, p, nodeIDs, i);
        var n := nodeIDs[input.stableKey];
        var parent := if input.parentKey == "" then None
                      else Some(if input.parentKey in nodeIDs then nodeIDs[input.parentKey] else 0);
        ghost var before := t;
        var row := VersionRow(n, p.scanRun, parent, NodeActive, input.facts);
        if plenty { ParentResolved(t, p, nodeIDs, i); }
        var version := InsertVersion(ids, row, spare + |p.nodes| - i - 1);
        if version.Failure? { return Failure(version.error), records; }
        ParentAdded(before, version.value, row);
        KeyedKept(before, t, p, nodeIDs);
        ParentIsKeyed(before, p, nodeIDs, row.parent, input.parentKey);
        SeeOne(old(t), before, p, i, nodeIDs, versionIDs, records, version.value, row);
        versionIDs, records := versionIDs[n := version.value], records[n := input.facts];
      }
      return Success(versionIDs), records;
    }

    /** A new stale version of one node, carrying its last facts forward. */
    method MarkStale(ids: Identifiers, p: Snapshot, n: int, ghost spare: nat) returns (r: Outcome<int>)
      requires IsActive(t, n)
      modifies this, ids
      ensures r.Success? ==>
        r.value !in old(t).versions && t == old(t).(versions := old(t).versions[r.value := StaleVersion(old(t), p, n)])
      ensures ParentsExist(old(t)) && r.Success? ==> ParentsExist(t)
      ensures Ready(old(ids.left), old(t), spare + 1) ==> r.Success? && Ready(ids.left, t, spare)
    {
      hide Plenty, Used;
      var row := StaleVersion(t, p, n);
      StaleParent(t, p, n);
      hide ParentsExist;
      r := InsertVersion(ids, row, spare);
      if r.Success? { ParentAdded(old(t), r.value, row); }
    }

    /** One missing node less to go. */
    method StaleNext(
      ids: Identifiers, p: Snapshot, n: int, ghost first: Tables, ghost missing: set<int>, ghost rest: set<int>,
      ghost versionIDs: map<int, int>, ghost all: map<int, int>, ghost spare: nat)
      returns (r: Outcome<int>)
      requires Staling(first, t, p, missing, rest, versionIDs, all) && n in rest && Stalable(first, missing, versionIDs)
      modifies this, ids
      ensures r.Success? ==> Staling(first, t, p, missing, Less(rest, n), versionIDs, all[n := r.value])
      ensures Ready(old(ids.left), old(t), spare + 1) ==> r.Success? && Ready(ids.left, t, spare)
    {
      hide Ready, Gone, ParentsExist, IsActive, StaleVersion;
      ghost var before := t;
      StillActive(first, t, p, missing - rest, versionIDs, all, n);
      r := MarkStale(ids, p, n, spare);
      if r.Success? {
        GoneOne(first, before, p, missing - rest, versionIDs, all, n, r.value);
        assert missing - (rest - {n}) == (missing - rest) + {n};
      }
    }

    method InsertStale(ids: Identifiers, p: Snapshot, missing: set<int>, versionIDs: map<int, int>, ghost spare: nat)
      returns (r: Outcome<map<int, int>>)
      requires Stalable(t, missing, versionIDs)
      modifies this, ids
      ensures r.Success? ==> Gone(old(t), t, p, missing, versionIDs, r.value)
      ensures r.Success? && ParentsExist(old(t)) ==> ParentsExist(t)
      ensures Ready(old(ids.left), old(t), spare + |missing|) ==> r.Success? && Ready(ids.left, t, spare)
    {
      hide Ready, Staling, Stalable, Gone, ParentsExist, Less;
      StalingStarts(t, p, missing, versionIDs);
      ghost var plenty := Ready(ids.left, t, spare + |missing|);
      var all := versionIDs;
      var rest := missing;
      ghost var need := spare + |missing|;
      while rest != {}
        invariant Staling(old(t), t, p, missing, rest, versionIDs, all)
        invariant need == spare + |rest| && (plenty ==> Ready(ids.left, t, need))
        decreases |rest|
      {
        SomeLeft(rest);
        var n :| n in rest;
        need := need - 1;
        var version :- StaleNext(ids, p, n, old(t), missing, rest, versionIDs, all, need);
        all := all[n := version];
        LessSize(rest, n);
        rest := Less(rest, n);
      }
      StalingEnds(old(t), t, p, missing, versionIDs, all);
      return Success(all);
    }

    /** Points each node at its new version and rewrites its search row, in any order. */
    method PublishCurrent(versionIDs: map<int, int>, records: map<int, Facts>)
      modifies this
      ensures t == old(t).(current := t.current, search := t.search) && Switched(old(t), t, versionIDs.Keys, versionIDs, records)
    {
      var rest := versionIDs.Keys;
      while rest != {}
        invariant rest <= versionIDs.Keys && t == old(t).(current := t.current, search := t.search)
        invariant Switched(old(t), t, versionIDs.Keys - rest, versionIDs, records)
        decreases |rest|
      {
        assert exists n :: n in rest by { assert (forall n :: n !in rest) ==> rest == {}; }
        var n :| n in rest;
        ghost var mid := t;
        t := t.(current := t.current[n := versionIDs[n]]);
        t := t.(search := Without(t.search, n));
        if n in records { t := t.(search := t.search + [Entry(n, records[n])]); }
        SwitchOne(old(t), mid, t, versionIDs.Keys - rest, versionIDs, records, n);
        rest := rest - {n};
        assert versionIDs.Keys - rest == (versionIDs.Keys - (rest + {n})) + {n};
      }
      assert versionIDs.Keys - rest == versionIDs.Keys;
    }

    /** Resolve, version what was seen, version what went missing, then switch. On success the catalog is the
        published one; on failure the caller rolls the transaction back. */
    method PublishNodes(ids: Identifiers, p: Snapshot, ghost spare: nat) returns (r: Outcome<map<string, int>>, stale: nat)
      requires Sound(t) && DistinctInputs(p)
      modifies this, ids
      ensures r.Success? ==> Sound(t) && Published(old(t), t, p) && stale == |MissingNodes(old(t), p)|
      ensures r.Success? ==> forall i :: 0 <= i < |p.nodes| ==>
        p.nodes[i].stableKey in r.value && NodeShows(t, p, r.value[p.nodes[i].stableKey], i)
      ensures Plenty(old(ids.left), Used(old(t)), spare + 2 * |p.nodes| + |MissingNodes(old(t), p)|) && ParentsKnown(old(t), p) ==>
        r.Success? && Plenty(ids.left, Used(t), spare)
    {
      hide Resolved, Seen, Gone, Switched, Keyed, AllKeyed, Sound, Published, NodeShows, Missing, MissingNodes, DistinctInputs,
        Plenty, Used, ParentsExist, ParentsKnown, ParentsResolve, KeysDistinct, CurrentSound;
      SoundParts(t);
      ghost var rest := spare + |MissingNodes(t, p)|;
      assert spare + 2 * |p.nodes| + |MissingNodes(t, p)| == (rest + |p.nodes|) + |p.nodes|;
      stale := 0;
      var nodeIDs :- ResolveNodeIDs(ids, p, rest + |p.nodes|);
      ghost var t1 := t;
      ResolvedIsKeyed(old(t), t1, p, nodeIDs);
      ResolvedParents(old(t), t1, p, nodeIDs);
      var seen, records := InsertSeen(ids, p, nodeIDs, rest);
      if seen.Failure? { return Failure(seen.error), 0; }
      ghost var t2 := t;
      var missing := set n | n in t.nodes && Missing(t, p, n);
      MissingBefore(old(t), t1, t2, p, nodeIDs, seen.value, records);
      forall n | n in missing ensures IsActive(t, n) && n !in seen.value {
        MissingIsNew(old(t), t1, t2, p, nodeIDs, seen.value, records, n);
      }
      var all :- InsertStale(ids, p, missing, seen.value, spare);
      ghost var t3 := t;
      PublishCurrent(all, records);
      ParentsKept(t3, t);
      assert Phases(old(t), t1, t2, t3, t, p, nodeIDs, seen.value, records, all, missing);
      PhasesPublish(old(t), t1, t2, t3, t, p, nodeIDs, seen.value, records, all, missing);
      forall i | 0 <= i < |p.nodes| ensures p.nodes[i].stableKey in nodeIDs && NodeShows(t, p, nodeIDs[p.nodes[i].stableKey], i) {
        SnapshotNode(old(t), t1, t2, t3, t, p, nodeIDs, seen.value, records, all, missing, i);
      }
      return Success(nodeIDs), |missing|;
    }
  }

  lemma SoundParts(t: Tables)
    requires Sound(t)
    ensures KeysDistinct(t) && CurrentSound(t) && ParentsExist(t)
  {
  }

  lemma ParentsKept(t: Tables, u: Tables)
    requires u == t.(current := u.current, search := u.search)
    ensures ParentsExist(u) == ParentsExist(t) && Used(u) == Used(t)
  {
  }

  /** Resolving adds nodes only, so it keeps the parents of all versions and resolves those of the snapshot. */
  lemma ResolvedParents(t: Tables, u: Tables, p: Snapshot, nodeIDs: map<string, int>)
    requires Resolved(t, u, p, |p.nodes|, nodeIDs)
    ensures ParentsExist(t) ==> ParentsExist(u)
    ensures ParentsKnown(t, p) ==> ParentsResolve(p, nodeIDs)
  {
    if ParentsExist(t) {
      assert u.versions == t.versions;
      forall v | v in u.versions && u.versions[v].parent.Some? ensures u.versions[v].parent.value in u.nodes {
        var parent := t.versions[v].parent.value;
        assert v in t.versions && parent in t.nodes && parent in u.nodes;
      }
    }
    if ParentsKnown(t, p) {
      forall i | 0 <= i < |p.nodes| ensures p.nodes[i].parentKey == "" || p.nodes[i].parentKey in nodeIDs {
        var key := p.nodes[i].parentKey;
        if key != "" && key !in KeysOf(p) {
          var n :| KeyNode(t, p, key, n);
          assert n in u.nodes && u.nodes[n].stableKey in nodeIDs;
        }
      }
    }
  }

  /** The nodes found missing are those that were missing at the start. */
  lemma MissingBefore(
    t: Tables, t1: Tables, t2: Tables, p: Snapshot, nodeIDs: map<string, int>, versionIDs: map<int, int>, records: map<int, Facts>)
    requires CurrentSound(t) && Resolved(t, t1, p, |p.nodes|, nodeIDs) && Seen(t1, t2, p, |p.nodes|, nodeIDs, versionIDs, records)
    ensures (set n | n in t2.nodes && Missing(t2, p, n)) == MissingNodes(t, p)
  {
    hide KeysOf, WithinTables, KeysDistinct;
    assert t1.versions == t.versions && t1.current == t.current;
    forall n ensures (n in t2.nodes && Missing(t2, p, n)) <==> (n in t.nodes && Missing(t, p, n)) {
      if n in t.current {
        var v := t.current[n];
        assert v in t1.versions && t2.versions[v] == t1.versions[v];
      }
      if n in t1.nodes && n !in t.nodes { assert InSnapshot(t1, p, n); }
      if n in t.nodes { assert n in t1.nodes && t1.nodes[n] == t.nodes[n]; }
    }
  }

  lemma MissingIsNew(
    t: Tables, t1: Tables, t2: Tables, p: Snapshot, nodeIDs: map<string, int>, versionIDs: map<int, int>,
    records: map<int, Facts>, n: int)
    requires Resolved(t, t1, p, |p.nodes|, nodeIDs) && Seen(t1, t2, p, |p.nodes|, nodeIDs, versionIDs, records)
    requires Missing(t2, p, n)
    ensures IsActive(t2, n) && n !in versionIDs
  {
    ResolvedIsKeyed(t, t1, p, nodeIDs);
    SeenAreSnapshot(t1, t2, p, nodeIDs, versionIDs, records, n);
  }

  // ----- what the steps achieve ------------------------------------------------------------------

  /** Every input's key resolves to its own node. */
  predicate Keyed(t: Tables, p: Snapshot, nodeIDs: map<string, int>) {
    forall i :: 0 <= i < |p.nodes| ==> p.nodes[i].stableKey in nodeIDs && KeyNode(t, p, p.nodes[i].stableKey, nodeIDs[p.nodes[i].stableKey])
  }

  /** Every key resolves to a node of that key, and none to the identifier 0. */
  predicate AllKeyed(t: Tables, p: Snapshot, nodeIDs: map<string, int>) {
    0 !in t.nodes && forall k :: k in nodeIDs ==> KeyNode(t, p, k, nodeIDs[k])
  }

  predicate ParentsResolve(p: Snapshot, nodeIDs: map<string, int>) {
    forall i :: 0 <= i < |p.nodes| ==> p.nodes[i].parentKey == "" || p.nodes[i].parentKey in nodeIDs
  }

  lemma ParentResolved(t: Tables, p: Snapshot, nodeIDs: map<string, int>, i: nat)
    requires AllKeyed(t, p, nodeIDs) && ParentsResolve(p, nodeIDs) && i < |p.nodes|
    ensures p.nodes[i].parentKey != "" ==> p.nodes[i].parentKey in nodeIDs && nodeIDs[p.nodes[i].parentKey] in t.nodes
  {
  }

  lemma ParentAdded(t: Tables, v: int, row: VersionRow)
    requires row.parent.Some? ==> row.parent.value in t.nodes
    ensures ParentsExist(t) ==> ParentsExist(t.(versions := t.versions[v := row]))
  {
  }

  /** An unknown parent key resolves to 0, which no row may refer to. */
  lemma ParentIsKeyed(t: Tables, p: Snapshot, nodeIDs: map<string, int>, parent: Option<int>, key: string)
    requires AllKeyed(t, p, nodeIDs) && (parent.Some? ==> parent.value in t.nodes)
    requires parent == if key == "" then None else Some(if key in nodeIDs then nodeIDs[key] else 0)
    ensures ParentFits(t, p, parent, key)
  {
  }

  lemma KeyedKept(t: Tables, u: Tables, p: Snapshot, nodeIDs: map<string, int>)
    requires Keyed(t, p, nodeIDs) && AllKeyed(t, p, nodeIDs) && u.nodes == t.nodes
    ensures Keyed(u, p, nodeIDs) && AllKeyed(u, p, nodeIDs)
  {
    forall k | k in nodeIDs ensures KeyNode(u, p, k, nodeIDs[k]) { assert KeyNode(t, p, k, nodeIDs[k]); }
    forall i | 0 <= i < |p.nodes|
      ensures p.nodes[i].stableKey in nodeIDs && KeyNode(u, p, p.nodes[i].stableKey, nodeIDs[p.nodes[i].stableKey])
    {
      InputIsKeyed(t, p, nodeIDs, i);
    }
  }

  lemma InputIsKeyed(t: Tables, p: Snapshot, nodeIDs: map<string, int>, i: nat)
    requires Keyed(t, p, nodeIDs) && i < |p.nodes|
    ensures p.nodes[i].stableKey in nodeIDs && KeyNode(t, p, p.nodes[i].stableKey, nodeIDs[p.nodes[i].stableKey])
  {
  }

  /** The first inputs have their new versions and search records, and nothing else does. */
  ghost predicate Seen(
    t: Tables, u: Tables, p: Snapshot, upTo: nat, nodeIDs: map<string, int>, versionIDs: map<int, int>, records: map<int, Facts>)
    requires upTo <= |p.nodes|
  {
    && u == t.(versions := u.versions) && records.Keys == versionIDs.Keys
    && (forall v :: v in t.versions ==> v in u.versions && u.versions[v] == t.versions[v])
    && (forall n :: n in versionIDs ==> exists i :: 0 <= i < upTo && IsNodeOf(nodeIDs, p, i, n))
    && (forall i :: 0 <= i < upTo ==> SeenInput(u, p, i, nodeIDs, versionIDs, records))
  }

  predicate IsNodeOf(nodeIDs: map<string, int>, p: Snapshot, i: nat, n: int)
    requires i < |p.nodes|
  {
    p.nodes[i].stableKey in nodeIDs && nodeIDs[p.nodes[i].stableKey] == n
  }

  predicate SeenInput(
    u: Tables, p: Snapshot, i: nat, nodeIDs: map<string, int>, versionIDs: map<int, int>, records: map<int, Facts>)
    requires i < |p.nodes|
  {
    && p.nodes[i].stableKey in nodeIDs
    && var n := nodeIDs[p.nodes[i].stableKey];
       && n in versionIDs && n in records && records[n] == p.nodes[i].facts && versionIDs[n] in u.versions
       && var row := u.versions[versionIDs[n]];
          row.nodeID == n && row.status == NodeActive && VersionShows(u, p, row, i)
  }

  lemma NothingSeen(t: Tables, p: Snapshot, nodeIDs: map<string, int>)
    ensures Seen(t, t, p, 0, nodeIDs, map[], map[])
  {
  }

  lemma SeeOne(
    t: Tables, u: Tables, p: Snapshot, i: nat, nodeIDs: map<string, int>, versionIDs: map<int, int>, records: map<int, Facts>,
    v: int, row: VersionRow)
    requires i < |p.nodes| && Seen(t, u, p, i, nodeIDs, versionIDs, records) && Keyed(u, p, nodeIDs) && v !in u.versions
    requires DistinctInputs(p) && p.nodes[i].stableKey in nodeIDs
    requires row.nodeID == nodeIDs[p.nodes[i].stableKey] && row.status == NodeActive && VersionShows(u, p, row, i)
    ensures var n := nodeIDs[p.nodes[i].stableKey];
      Seen(t, u.(versions := u.versions[v := row]), p, i + 1, nodeIDs, versionIDs[n := v], records[n := p.nodes[i].facts])
  {
    var n := nodeIDs[p.nodes[i].stableKey];
    var w := u.(versions := u.versions[v := row]);
    assert IsNodeOf(nodeIDs, p, i, n);
    var versionIDs', records' := versionIDs[n := v], records[n := p.nodes[i].facts];
    forall j | 0 <= j < i + 1 ensures SeenInput(w, p, j, nodeIDs, versionIDs', records') {
      if j < i {
        assert SeenInput(u, p, j, nodeIDs, versionIDs, records);
        InputIsKeyed(u, p, nodeIDs, i);
        InputIsKeyed(u, p, nodeIDs, j);
      }
    }
    forall m | m in versionIDs' ensures exists j :: 0 <= j < i + 1 && IsNodeOf(nodeIDs, p, j, m) {
      if m != n {
        var j :| 0 <= j < i && IsNodeOf(nodeIDs, p, j, m);
        assert IsNodeOf(nodeIDs, p, j, m);
      }
    }
  }

  ghost predicate Gone(t: Tables, u: Tables, p: Snapshot, missing: set<int>, versionIDs: map<int, int>, all: map<int, int>) {
    && u == t.(versions := u.versions) && all.Keys == versionIDs.Keys + missing
    && (forall v :: v in t.versions ==> v in u.versions && u.versions[v] == t.versions[v])
    && (forall n :: n in versionIDs ==> all[n] == versionIDs[n])
    && (forall n :: n in missing ==> GoneNode(t, u, p, all, n))
  }

  lemma GoneKeeps(t: Tables, u: Tables, p: Snapshot, missing: set<int>, versionIDs: map<int, int>, all: map<int, int>, v: int)
    requires Gone(t, u, p, missing, versionIDs, all) && v in t.versions
    ensures v in u.versions && u.versions[v] == t.versions[v]
  {
  }

  /** The nodes to be marked are active and have no new version yet. */
  predicate Stalable(t: Tables, missing: set<int>, versionIDs: map<int, int>) {
    forall n :: n in missing ==> IsActive(t, n) && n !in versionIDs
  }

  ghost predicate Staling(
    t: Tables, u: Tables, p: Snapshot, missing: set<int>, rest: set<int>, versionIDs: map<int, int>, all: map<int, int>)
  {
    rest <= missing && Gone(t, u, p, missing - rest, versionIDs, all) && (ParentsExist(t) ==> ParentsExist(u))
  }

  lemma StalingStarts(t: Tables, p: Snapshot, missing: set<int>, versionIDs: map<int, int>)
    ensures Staling(t, t, p, missing, missing, versionIDs, versionIDs)
  {
    assert missing - missing == {};
  }

  lemma StalingEnds(t: Tables, u: Tables, p: Snapshot, missing: set<int>, versionIDs: map<int, int>, all: map<int, int>)
    requires Staling(t, u, p, missing, {}, versionIDs, all)
    ensures Gone(t, u, p, missing, versionIDs, all) && (ParentsExist(t) ==> ParentsExist(u))
  {
    assert missing - {} == missing;
  }

  function Less(rest: set<int>, n: int): set<int> {
    rest - {n}
  }

  lemma LessSize(rest: set<int>, n: int)
    requires n in rest
    ensures |Less(rest, n)| == |rest| - 1
  {
  }

  lemma SomeLeft(rest: set<int>)
    requires rest != {}
    ensures exists n :: n in rest
  {
    assert (forall n :: n !in rest) ==> rest == {};
  }

  lemma StaleParent(t: Tables, p: Snapshot, n: int)
    requires IsActive(t, n)
    ensures ParentsExist(t) && StaleVersion(t, p, n).parent.Some? ==> StaleVersion(t, p, n).parent.value in t.nodes
  {
    var v := t.current[n];
    assert v in t.versions && StaleVersion(t, p, n).parent == t.versions[v].parent;
  }

  lemma StillActive(
    t: Tables, u: Tables, p: Snapshot, missing: set<int>, versionIDs: map<int, int>, all: map<int, int>, n: int)
    requires Gone(t, u, p, missing, versionIDs, all) && IsActive(t, n)
    ensures IsActive(u, n) && StaleVersion(u, p, n) == StaleVersion(t, p, n)
  {
    GoneKeeps(t, u, p, missing, versionIDs, all, t.current[n]);
  }

  lemma GoneOne(
    t: Tables, u: Tables, p: Snapshot, missing: set<int>, versionIDs: map<int, int>, all: map<int, int>, n: int, v: int)
    requires Gone(t, u, p, missing, versionIDs, all) && n !in missing && n !in versionIDs && v !in u.versions
    requires IsActive(t, n) && IsActive(u, n) && StaleVersion(u, p, n) == StaleVersion(t, p, n)
    ensures Gone(t, u.(versions := u.versions[v := StaleVersion(u, p, n)]), p, missing + {n}, versionIDs, all[n := v])
  {
    var w := u.(versions := u.versions[v := StaleVersion(u, p, n)]);
    forall m | m in missing + {n} ensures GoneNode(t, w, p, all[n := v], m) {
      if m != n { assert GoneNode(t, u, p, all, m); }
    }
  }

  predicate GoneNode(t: Tables, u: Tables, p: Snapshot, all: map<int, int>, n: int) {
    && n in all && all[n] in u.versions && n in t.current && t.current[n] in t.versions
    && var was, row := t.versions[t.current[n]], u.versions[all[n]];
       && row.nodeID == n && row.status == NodeStale && row.scanRun == p.scanRun
       && row.parent == was.parent && row.facts == StaleFacts(was.facts)
  }

  /** The nodes in `done` have switched; the others, and their search rows, have not. */
  ghost predicate Switched(t: Tables, u: Tables, done: set<int>, versionIDs: map<int, int>, records: map<int, Facts>) {
    && done <= versionIDs.Keys
    && (forall n :: n in u.current <==> n in t.current || n in done)
    && (forall n :: n in u.current ==> u.current[n] == if n in done then versionIDs[n] else t.current[n])
    && (forall n {:trigger RowsOf(u.search, n)} ::
          RowsOf(u.search, n) == if n in done then RecordRows(records, n) else RowsOf(t.search, n))
  }

  function RecordRows(records: map<int, Facts>, n: int): seq<SearchRow> {
    if n in records then [Entry(n, records[n])] else []
  }

  lemma SwitchOne(
    t: Tables, mid: Tables, u: Tables, done: set<int>, versionIDs: map<int, int>, records: map<int, Facts>, n: int)
    requires Switched(t, mid, done, versionIDs, records) && n in versionIDs && n !in done
    requires u.current == mid.current[n := versionIDs[n]] && u.search == Without(mid.search, n) + RecordRows(records, n)
    ensures Switched(t, u, done + {n}, versionIDs, records)
  {
    forall m ensures RowsOf(u.search, m) == if m in done + {n} then RecordRows(records, m) else RowsOf(t.search, m) {
      RowsWithout(mid.search, n, m);
      if n in records { RowsAppend(Without(mid.search, n), Entry(n, records[n]), m); } else { assert u.search == Without(mid.search, n); }
    }
  }

  lemma NothingResolved(t: Tables, p: Snapshot, nodeIDs: map<string, int>)
    requires KeysDistinct(t)
    requires forall n :: n in t.nodes && t.nodes[n].dataSource == p.dataSource ==> t.nodes[n].stableKey in nodeIDs
    requires forall k :: k in nodeIDs ==> KeyNode(t, p, k, nodeIDs[k])
    ensures Resolved(t, t, p, 0, nodeIDs)
  {
  }

  lemma AlreadyResolved(t: Tables, u: Tables, p: Snapshot, i: nat, nodeIDs: map<string, int>)
    requires i < |p.nodes| && Resolved(t, u, p, i, nodeIDs) && p.nodes[i].stableKey in nodeIDs
    ensures Resolved(t, u, p, i + 1, nodeIDs)
  {
  }

  // ----- the publication -------------------------------------------------------------------------

  ghost predicate Phases(
    t: Tables, t1: Tables, t2: Tables, t3: Tables, u: Tables, p: Snapshot, nodeIDs: map<string, int>,
    versionIDs: map<int, int>, records: map<int, Facts>, all: map<int, int>, missing: set<int>)
  {
    && Resolved(t, t1, p, |p.nodes|, nodeIDs)
    && Seen(t1, t2, p, |p.nodes|, nodeIDs, versionIDs, records)
    && missing == (set n | n in t2.nodes && Missing(t2, p, n)) && Gone(t2, t3, p, missing, versionIDs, all)
    && u == t3.(current := u.current, search := u.search) && Switched(t3, u, all.Keys, all, records)
  }

  lemma ResolvedIsKeyed(t: Tables, u: Tables, p: Snapshot, nodeIDs: map<string, int>)
    requires Resolved(t, u, p, |p.nodes|, nodeIDs)
    ensures Keyed(u, p, nodeIDs) && AllKeyed(u, p, nodeIDs)
  {
    forall i | 0 <= i < |p.nodes|
      ensures p.nodes[i].stableKey in nodeIDs && KeyNode(u, p, p.nodes[i].stableKey, nodeIDs[p.nodes[i].stableKey])
    {
      assert p.nodes[i].stableKey in nodeIDs;
    }
  }

  /** The nodes given an active version are exactly those of the snapshot, so no missing node is among them. */
  lemma SeenAreSnapshot(
    t: Tables, u: Tables, p: Snapshot, nodeIDs: map<string, int>, versionIDs: map<int, int>, records: map<int, Facts>, n: int)
    requires Keyed(t, p, nodeIDs) && KeysDistinct(t) && Seen(t, u, p, |p.nodes|, nodeIDs, versionIDs, records)
    ensures n in versionIDs <==> InSnapshot(u, p, n)
  {
    if n in versionIDs {
      var i :| 0 <= i < |p.nodes| && IsNodeOf(nodeIDs, p, i, n);
      InputIsKeyed(t, p, nodeIDs, i);
      assert p.nodes[i].stableKey in KeysOf(p);
    }
    if InSnapshot(u, p, n) {
      var i :| 0 <= i < |p.nodes| && p.nodes[i].stableKey == u.nodes[n].stableKey;
      InputIsKeyed(t, p, nodeIDs, i);
      assert SeenInput(u, p, i, nodeIDs, versionIDs, records);
      assert SameKey(t.nodes[nodeIDs[p.nodes[i].stableKey]], t.nodes[n]);
    }
  }

  lemma PhasesKeepRows(
    t: Tables, t1: Tables, t2: Tables, t3: Tables, u: Tables, p: Snapshot, nodeIDs: map<string, int>,
    versionIDs: map<int, int>, records: map<int, Facts>, all: map<int, int>, missing: set<int>)
    requires Phases(t, t1, t2, t3, u, p, nodeIDs, versionIDs, records, all, missing)
    ensures RowsKept(t, u) && KeysDistinct(u) && u.nodes == t1.nodes == t2.nodes && t2.current == t.current
    ensures forall v :: v in t2.versions ==> v in u.versions && u.versions[v] == t2.versions[v]
    ensures forall v :: v in t.versions ==> v in t2.versions && t2.versions[v] == t.versions[v]
    ensures u.versions == t3.versions
    ensures forall n :: n in u.nodes && n !in t.nodes ==> InSnapshot(u, p, n) && KindFits(u, p, n)
  {
    hide Switched;
    forall v | v in t.versions ensures v in t2.versions && t2.versions[v] == t.versions[v] { assert v in t1.versions; }
    forall n | n in u.nodes && n !in t.nodes ensures InSnapshot(u, p, n) && KindFits(u, p, n) {
      assert InSnapshot(t1, p, n) && KindFits(t1, p, n);
    }
    forall v | v in t2.versions ensures v in u.versions && u.versions[v] == t2.versions[v] {
      GoneKeeps(t2, t3, p, missing, versionIDs, all, v);
    }
  }

  lemma VersionCarries(
    t: Tables, t1: Tables, t2: Tables, t3: Tables, u: Tables, p: Snapshot, nodeIDs: map<string, int>,
    versionIDs: map<int, int>, records: map<int, Facts>, all: map<int, int>, missing: set<int>, v: int)
    requires Phases(t, t1, t2, t3, u, p, nodeIDs, versionIDs, records, all, missing) && v in t.versions
    ensures v in t2.versions && t2.versions[v] == t.versions[v] && v in u.versions && u.versions[v] == t.versions[v]
  {
    PhasesKeepRows(t, t1, t2, t3, u, p, nodeIDs, versionIDs, records, all, missing);
  }

  /** Missing nodes are the same before the new versions and after, and none of them is in the snapshot. */
  lemma PhasesMissing(
    t: Tables, t1: Tables, t2: Tables, t3: Tables, u: Tables, p: Snapshot, nodeIDs: map<string, int>,
    versionIDs: map<int, int>, records: map<int, Facts>, all: map<int, int>, missing: set<int>, n: int)
    requires CurrentSound(t) && Phases(t, t1, t2, t3, u, p, nodeIDs, versionIDs, records, all, missing)
    ensures n in missing <==> Missing(t, p, n)
    ensures n in missing ==> !InSnapshot(u, p, n)
  {
    PhasesKeepRows(t, t1, t2, t3, u, p, nodeIDs, versionIDs, records, all, missing);
    hide RowsOf, KeysDistinct, WithinTables, Switched, Gone, KeysOf;
    if n in t.current { VersionCarries(t, t1, t2, t3, u, p, nodeIDs, versionIDs, records, all, missing, t.current[n]); }
  }

  /** Where node `n` points, and what its search rows are, after the switch. */
  lemma PhasesSwitch(
    t: Tables, t1: Tables, t2: Tables, t3: Tables, u: Tables, p: Snapshot, nodeIDs: map<string, int>,
    versionIDs: map<int, int>, records: map<int, Facts>, all: map<int, int>, missing: set<int>, n: int)
    requires Phases(t, t1, t2, t3, u, p, nodeIDs, versionIDs, records, all, missing)
    ensures n in all <==> n in versionIDs || n in missing
    ensures n in all ==> n in u.current && u.current[n] == all[n] && RowsOf(u.search, n) == RecordRows(records, n)
    ensures n !in all ==> (n in u.current <==> n in t.current) && (n in t.current ==> u.current[n] == t.current[n])
    ensures n !in all ==> RowsOf(u.search, n) == RowsOf(t.search, n)
    ensures n in versionIDs ==> all[n] == versionIDs[n]
    ensures records.Keys == versionIDs.Keys
  {
    hide RowsOf, KeysDistinct, Missing, GoneNode, KeysOf, RecordRows;
    assert RowsOf(u.search, n) == if n in all.Keys then RecordRows(records, n) else RowsOf(t3.search, n);
  }

  lemma SnapshotNode(
    t: Tables, t1: Tables, t2: Tables, t3: Tables, u: Tables, p: Snapshot, nodeIDs: map<string, int>,
    versionIDs: map<int, int>, records: map<int, Facts>, all: map<int, int>, missing: set<int>, i: nat)
    requires Phases(t, t1, t2, t3, u, p, nodeIDs, versionIDs, records, all, missing) && i < |p.nodes|
    ensures p.nodes[i].stableKey in nodeIDs
    ensures var n := nodeIDs[p.nodes[i].stableKey];
      && NodeShows(u, p, n, i) && u.versions[u.current[n]].nodeID == n && RowsOf(u.search, n) == ExpectedRows(u, n)
  {
    assert SeenInput(t2, p, i, nodeIDs, versionIDs, records);
    ResolvedIsKeyed(t, t1, p, nodeIDs);
    InputIsKeyed(t1, p, nodeIDs, i);
    PhasesKeepRows(t, t1, t2, t3, u, p, nodeIDs, versionIDs, records, all, missing);
    PhasesSwitch(t, t1, t2, t3, u, p, nodeIDs, versionIDs, records, all, missing, nodeIDs[p.nodes[i].stableKey]);
    hide Phases, RowsOf, KeysDistinct, Keyed, RowsKept;
  }

  lemma StaleNode(
    t: Tables, t1: Tables, t2: Tables, t3: Tables, u: Tables, p: Snapshot, nodeIDs: map<string, int>,
    versionIDs: map<int, int>, records: map<int, Facts>, all: map<int, int>, missing: set<int>, n: int)
    requires CurrentSound(t) && Phases(t, t1, t2, t3, u, p, nodeIDs, versionIDs, records, all, missing)
    requires n in missing && n !in versionIDs
    ensures n in u.nodes && BecameStale(t, u, p, n) && u.versions[u.current[n]].nodeID == n && RowsOf(u.search, n) == ExpectedRows(u, n)
  {
    assert GoneNode(t2, t3, p, all, n);
    PhasesKeepRows(t, t1, t2, t3, u, p, nodeIDs, versionIDs, records, all, missing);
    PhasesSwitch(t, t1, t2, t3, u, p, nodeIDs, versionIDs, records, all, missing, n);
    VersionCarries(t, t1, t2, t3, u, p, nodeIDs, versionIDs, records, all, missing, t.current[n]);
    hide RowsOf, KeysDistinct, Resolved, Seen, Switched, WithinTables, KeysOf;
  }

  lemma UntouchedNode(
    t: Tables, t1: Tables, t2: Tables, t3: Tables, u: Tables, p: Snapshot, nodeIDs: map<string, int>,
    versionIDs: map<int, int>, records: map<int, Facts>, all: map<int, int>, missing: set<int>, n: int)
    requires Sound(t) && Phases(t, t1, t2, t3, u, p, nodeIDs, versionIDs, records, all, missing)
    requires n !in missing && n !in versionIDs
    ensures (n in u.current <==> n in t.current) && (n in t.current ==> u.current[n] == t.current[n])
    ensures n in u.current ==> n in u.nodes && u.current[n] in u.versions && u.versions[u.current[n]].nodeID == n
    ensures RowsOf(u.search, n) == ExpectedRows(u, n)
  {
    PhasesKeepRows(t, t1, t2, t3, u, p, nodeIDs, versionIDs, records, all, missing);
    PhasesSwitch(t, t1, t2, t3, u, p, nodeIDs, versionIDs, records, all, missing, n);
    hide Phases, RowsOf, KeysDistinct;
    assert RowsOf(t.search, n) == ExpectedRows(t, n);
  }

  /** What node `n` ends up as. */
  lemma PhasesNode(
    t: Tables, t1: Tables, t2: Tables, t3: Tables, u: Tables, p: Snapshot, nodeIDs: map<string, int>,
    versionIDs: map<int, int>, records: map<int, Facts>, all: map<int, int>, missing: set<int>, n: int)
    requires Sound(t) && Phases(t, t1, t2, t3, u, p, nodeIDs, versionIDs, records, all, missing)
    ensures n in u.current ==> n in u.nodes && u.current[n] in u.versions && u.versions[u.current[n]].nodeID == n
    ensures RowsOf(u.search, n) == ExpectedRows(u, n)
    ensures !InSnapshot(u, p, n) ==> OtherNode(t, u, p, n)
  {
    SnapshotMembers(t, t1, t2, t3, u, p, nodeIDs, versionIDs, records, all, missing, n);
    PhasesMissing(t, t1, t2, t3, u, p, nodeIDs, versionIDs, records, all, missing, n);
    hide Phases, RowsOf, KeysDistinct, KeysOf, InSnapshot, Missing, ExpectedRows;
    if n in versionIDs {
      var i :| 0 <= i < |p.nodes| && IsNodeOf(nodeIDs, p, i, n);
      SnapshotNode(t, t1, t2, t3, u, p, nodeIDs, versionIDs, records, all, missing, i);
    } else if n in missing {
      StaleNode(t, t1, t2, t3, u, p, nodeIDs, versionIDs, records, all, missing, n);
    } else {
      UntouchedNode(t, t1, t2, t3, u, p, nodeIDs, versionIDs, records, all, missing, n);
    }
  }

  lemma SnapshotMembers(
    t: Tables, t1: Tables, t2: Tables, t3: Tables, u: Tables, p: Snapshot, nodeIDs: map<string, int>,
    versionIDs: map<int, int>, records: map<int, Facts>, all: map<int, int>, missing: set<int>, n: int)
    requires Phases(t, t1, t2, t3, u, p, nodeIDs, versionIDs, records, all, missing)
    ensures n in versionIDs <==> InSnapshot(u, p, n)
    ensures n in versionIDs ==> exists i :: 0 <= i < |p.nodes| && IsNodeOf(nodeIDs, p, i, n)
  {
    ResolvedIsKeyed(t, t1, p, nodeIDs);
    SeenAreSnapshot(t1, t2, p, nodeIDs, versionIDs, records, n);
    PhasesKeepRows(t, t1, t2, t3, u, p, nodeIDs, versionIDs, records, all, missing);
    hide Keyed, KeysDistinct, Switched, Gone, KeysOf;
  }

  lemma PhasesPublish(
    t: Tables, t1: Tables, t2: Tables, t3: Tables, u: Tables, p: Snapshot, nodeIDs: map<string, int>,
    versionIDs: map<int, int>, records: map<int, Facts>, all: map<int, int>, missing: set<int>)
    requires Sound(t) && Phases(t, t1, t2, t3, u, p, nodeIDs, versionIDs, records, all, missing) && ParentsExist(u)
    ensures Sound(u) && Published(t, u, p)
  {
    PhasesKeepRows(t, t1, t2, t3, u, p, nodeIDs, versionIDs, records, all, missing);
    hide Phases, RowsOf, KeysDistinct, RowsKept, OtherNode, ExpectedRows, NodeShows, InSnapshot;
    forall i | 0 <= i < |p.nodes| ensures InputPublished(u, p, i) {
      SnapshotNode(t, t1, t2, t3, u, p, nodeIDs, versionIDs, records, all, missing, i);
    }
    forall n
      ensures n in u.current ==> n in u.nodes && u.current[n] in u.versions && u.versions[u.current[n]].nodeID == n
      ensures RowsOf(u.search, n) == ExpectedRows(u, n)
      ensures !InSnapshot(u, p, n) ==> OtherNode(t, u, p, n)
    {
      PhasesNode(t, t1, t2, t3, u, p, nodeIDs, versionIDs, records, all, missing, n);
    }
  }

  // ----- a publication, told by the rows alone ---------------------------------------------------

  /** The index has one row for the node, and it says these facts. */
  predicate Listed(search: seq<SearchRow>, n: int, facts: Facts) {
    exists i :: 0 <= i < |search| && OnlyRow(search, n, i)
      && search[i].name == facts.name && search[i].qualifiedName == facts.qualifiedName && search[i].dataType == facts.dataType
  }

  predicate OnlyRow(search: seq<SearchRow>, n: int, i: nat)
    requires i < |search|
  {
    search[i].nodeID == n && forall j :: 0 <= j < |search| && search[j].nodeID == n ==> j == i
  }

  predicate Unlisted(search: seq<SearchRow>, n: int) {
    forall j :: 0 <= j < |search| ==> search[j].nodeID != n
  }

  lemma {:induction false} NoRows(search: seq<SearchRow>, n: int)
    ensures RowsOf(search, n) == [] <==> Unlisted(search, n)
  {
    if search != [] {
      var front := search[..|search| - 1];
      NoRows(front, n);
      assert forall j :: 0 <= j < |front| ==> front[j] == search[j];
    }
  }

  lemma {:induction false} OneRow(search: seq<SearchRow>, n: int, row: SearchRow)
    requires RowsOf(search, n) == [row]
    ensures exists i :: 0 <= i < |search| && OnlyRow(search, n, i) && search[i] == row
  {
    var front, last := search[..|search| - 1], |search| - 1;
    assert forall j :: 0 <= j < |front| ==> front[j] == search[j];
    if search[last].nodeID == n {
      assert RowsOf(search, n)[|RowsOf(front, n)|] == search[last];
      NoRows(front, n);
      assert OnlyRow(search, n, last);
    } else {
      OneRow(front, n, row);
      var i :| 0 <= i < |front| && OnlyRow(front, n, i) && front[i] == row;
      assert OnlyRow(search, n, i);
    }
  }

  /** The search index lists each node whose current version is active, once, with that version's names and type, and
      no other node. */
  lemma ActiveNodesAreListed(t: Tables, n: int)
    requires Sound(t)
    ensures if n in t.current && t.current[n] in t.versions && t.versions[t.current[n]].status == NodeActive
            then Listed(t.search, n, t.versions[t.current[n]].facts) else Unlisted(t.search, n)
  {
    assert RowsOf(t.search, n) == ExpectedRows(t, n);
    hide RowsOf, KeysDistinct, CurrentSound, ParentsExist;
    if IsActive(t, n) {
      OneRow(t.search, n, Entry(n, t.versions[t.current[n]].facts));
    } else {
      NoRows(t.search, n);
    }
  }

  /** The snapshot has nothing under this node's key. */
  predicate Unseen(p: Snapshot, row: NodeRow) {
    row.dataSource != p.dataSource || forall i :: 0 <= i < |p.nodes| ==> p.nodes[i].stableKey != row.stableKey
  }

  /** An active node of the source that the scan did not see, although it looked at all tables or at this one's. */
  predicate ScannedAway(t: Tables, p: Snapshot, n: int) {
    && n in t.nodes && t.nodes[n].dataSource == p.dataSource && Unseen(p, t.nodes[n])
    && n in t.current && t.current[n] in t.versions
    && var row := t.versions[t.current[n]];
       && row.status == NodeActive
       && (p.tables == []
           || (t.nodes[n].kind == NodeTable && row.facts.qualifiedName in p.tables)
           || (t.nodes[n].kind == NodeColumn && NamesTable(row.facts.qualifiedName, p.tables)))
  }

  /** The node has a new, stale version that repeats its last one, and is no longer listed. */
  predicate TurnedStale(t: Tables, u: Tables, p: Snapshot, n: int) {
    && Unlisted(u.search, n)
    && n in t.current && t.current[n] in t.versions && n in u.current && u.current[n] in u.versions
    && var was, row := t.versions[t.current[n]], u.versions[u.current[n]];
       && row.nodeID == n && row.scanRun == p.scanRun && row.status == NodeStale && row.parent == was.parent
       && row.facts.name == was.facts.name && row.facts.qualifiedName == was.facts.qualifiedName
       && row.facts.dataType == was.facts.dataType && row.facts.nullable == was.facts.nullable
       && row.facts.ordinal == was.facts.ordinal
       && row.facts.metadata == (if was.facts.metadata == "" then "{}" else was.facts.metadata)
  }

  /** The node's current version is the one it had, and it is listed exactly when it was. */
  predicate LeftAlone(t: Tables, u: Tables, n: int) {
    && (n in u.current <==> n in t.current)
    && (n in t.current ==>
          && u.current[n] == t.current[n] && t.current[n] in t.versions && u.current[n] in u.versions
          && u.versions[u.current[n]] == t.versions[t.current[n]])
    && if n in t.current && t.versions[t.current[n]].status == NodeActive
       then Listed(t.search, n, t.versions[t.current[n]].facts) && Listed(u.search, n, t.versions[t.current[n]].facts)
       else Unlisted(t.search, n) && Unlisted(u.search, n)
  }

  /** The node is active with what input `i` says of it, under its parent's node. */
  predicate SeenAs(u: Tables, p: Snapshot, n: int, i: nat)
    requires i < |p.nodes|
  {
    && n in u.nodes && u.nodes[n].dataSource == p.dataSource && u.nodes[n].stableKey == p.nodes[i].stableKey
    && n in u.current && u.current[n] in u.versions && Listed(u.search, n, p.nodes[i].facts)
    && var row := u.versions[u.current[n]];
       && row.nodeID == n && row.scanRun == p.scanRun && row.status == NodeActive && row.facts == p.nodes[i].facts
       && (if p.nodes[i].parentKey == "" then row.parent.None?
           else row.parent.Some? && row.parent.value in u.nodes
                && u.nodes[row.parent.value].dataSource == p.dataSource && u.nodes[row.parent.value].stableKey == p.nodes[i].parentKey)
  }

  ghost predicate InputSeen(u: Tables, p: Snapshot, i: nat)
    requires i < |p.nodes|
  {
    exists n :: SeenAs(u, p, n, i)
  }

  /** Every input has its node, and every node that has none is either scanned away or left alone. */
  ghost predicate Follows(t: Tables, u: Tables, p: Snapshot) {
    && (forall i :: 0 <= i < |p.nodes| ==> InputSeen(u, p, i))
    && (forall n :: n in t.nodes && Unseen(p, t.nodes[n]) ==>
          if ScannedAway(t, p, n) then TurnedStale(t, u, p, n) else LeftAlone(t, u, n))
    && (forall n :: n in t.nodes ==> n in u.nodes && u.nodes[n] == t.nodes[n])
    && (forall n :: n in u.nodes && n !in t.nodes ==>
          exists i :: 0 <= i < |p.nodes| && u.nodes[n] == NodeRow(p.dataSource, p.nodes[i].stableKey, p.nodes[i].kind))
  }

  lemma InputFollows(t: Tables, u: Tables, p: Snapshot, i: nat)
    requires Sound(u) && Published(t, u, p) && i < |p.nodes|
    ensures InputSeen(u, p, i)
  {
    assert InputPublished(u, p, i);
    var n :| NodeShows(u, p, n, i);
    ActiveNodesAreListed(u, n);
    hide RowsOf, KeysDistinct, IndexAgrees, Listed;
    assert SeenAs(u, p, n, i);
  }

  lemma UnseenKeys(p: Snapshot, row: NodeRow)
    ensures Unseen(p, row) <==> row.dataSource != p.dataSource || row.stableKey !in KeysOf(p)
  {
  }

  lemma MissingIsScannedAway(t: Tables, p: Snapshot, n: int)
    requires n in t.nodes
    ensures Missing(t, p, n) <==> ScannedAway(t, p, n)
  {
    UnseenKeys(p, t.nodes[n]);
    hide WithinTables, NamesTable, KeysOf, Unseen;
    if IsActive(t, n) {
      ScopeCovers(t.nodes[n].kind, t.versions[t.current[n]].facts.qualifiedName, p.tables);
    }
  }

  lemma NodeFollows(t: Tables, u: Tables, p: Snapshot, n: int)
    requires Sound(t) && Sound(u) && Published(t, u, p) && n in t.nodes && Unseen(p, t.nodes[n])
    ensures if ScannedAway(t, p, n) then TurnedStale(t, u, p, n) else LeftAlone(t, u, n)
  {
    MissingIsScannedAway(t, p, n);
    UnseenKeys(p, t.nodes[n]);
    ActiveNodesAreListed(t, n);
    ActiveNodesAreListed(u, n);
    assert OtherNode(t, u, p, n);
    hide RowsOf, KeysDistinct, IndexAgrees, Listed, Unlisted, WithinTables, NamesTable, KeysOf, Missing, ScannedAway;
  }

  lemma PublishedFollows(t: Tables, u: Tables, p: Snapshot)
    requires Sound(t) && Sound(u) && Published(t, u, p)
    ensures Follows(t, u, p)
  {
    hide Sound, InputSeen, ScannedAway, TurnedStale, LeftAlone, Unseen, InputPublished, OtherNode;
    forall i | 0 <= i < |p.nodes| ensures InputSeen(u, p, i) { InputFollows(t, u, p, i); }
    forall n | n in t.nodes && Unseen(p, t.nodes[n])
      ensures if ScannedAway(t, p, n) then TurnedStale(t, u, p, n) else LeftAlone(t, u, n)
    {
      NodeFollows(t, u, p, n);
    }
    forall n | n in u.nodes && n !in t.nodes
      ensures exists i :: 0 <= i < |p.nodes| && u.nodes[n] == NodeRow(p.dataSource, p.nodes[i].stableKey, p.nodes[i].kind)
    {
      assert InSnapshot(u, p, n) && KindFits(u, p, n);
    }
  }

  // ----- consequences ----------------------------------------------------------------------------

  /** After a full scan the active nodes of the source are exactly those of the snapshot. */
  lemma FullScanIsExact(t: Tables, u: Tables, p: Snapshot, n: int)
    requires Sound(t) && Sound(u) && Published(t, u, p) && p.tables == [] && n in u.nodes && u.nodes[n].dataSource == p.dataSource
    ensures IsActive(u, n) <==> InSnapshot(u, p, n)
  {
    hide RowsOf, IndexAgrees;
    if InSnapshot(u, p, n) {
      var i :| 0 <= i < |p.nodes| && p.nodes[i].stableKey == u.nodes[n].stableKey;
      assert InputPublished(u, p, i);
      var m :| NodeShows(u, p, m, i);
      assert SameKey(u.nodes[m], u.nodes[n]);
    } else {
      assert OtherNode(t, u, p, n);
      assert n in t.nodes;
    }
  }

  /** Nodes of other sources, and nodes outside the scope of the scan, keep their current version. */
  lemma OutOfScopeIsUntouched(t: Tables, u: Tables, p: Snapshot, n: int)
    requires Published(t, u, p) && !InSnapshot(u, p, n) && n in t.current
    requires n in t.nodes && t.current[n] in t.versions
    requires t.nodes[n].dataSource != p.dataSource
      || !WithinTables(t.nodes[n].kind, t.versions[t.current[n]].facts.qualifiedName, p.tables)
    ensures n in u.current && u.current[n] == t.current[n]
  {
    hide WithinTables;
    assert OtherNode(t, u, p, n);
  }

  /** A stable key names the same node through every later publication. */
  lemma KeyKeepsNode(t: Tables, u: Tables, a: int, b: int)
    requires RowsKept(t, u) && KeysDistinct(u) && a in t.nodes && b in u.nodes && SameKey(t.nodes[a], u.nodes[b])
    ensures a == b
  {
    assert SameKey(u.nodes[a], u.nodes[b]);
  }
}
