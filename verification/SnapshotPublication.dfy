/** One transaction per published snapshot: the catalog, its search index, and the declared foreign keys move
    together or not at all. */
module SnapshotPublication {
  import opened Wrappers
  import opened Scope
  import opened Supply
  import opened RelationHistory
  import opened RelationTables
  import opened RelationRepository
  import opened DeclaredKeys
  import opened Rules
  import opened ScanRuns
  import Catalog
  import Conditions

  type Int64 = Conditions.Int64

  /** The columns a relation may refer to. */
  function ActiveColumns(t: Catalog.Tables): set<int> {
    set n | n in t.nodes && t.nodes[n].kind == NodeColumn && Catalog.IsActive(t, n)
  }

  function CurrentNames(t: Catalog.Tables): map<int, string> {
    map n | n in t.current && t.current[n] in t.versions :: t.versions[t.current[n]].facts.qualifiedName
  }

  function CatalogFailure(e: Catalog.CatalogError): RelationError {
    match e
    case ConstraintViolated => RelationError.ConstraintViolated
    case IdentifiersExhausted => RelationError.IdentifiersExhausted
  }

  /** The qualified names of the snapshot, each with the node it was published as. */
  method QualifiedNodes(t: Catalog.Tables, p: Catalog.Snapshot, nodeIDs: map<string, int>) returns (qualified: map<string, Int64>)
    requires Catalog.KeysDistinct(t)
    requires forall i :: 0 <= i < |p.nodes| ==>
      p.nodes[i].stableKey in nodeIDs && Catalog.NodeShows(t, p, nodeIDs[p.nodes[i].stableKey], i)
    ensures forall i :: 0 <= i < |p.nodes| ==> p.nodes[i].facts.qualifiedName in qualified
    ensures forall name :: name in qualified ==>
      exists i :: 0 <= i < |p.nodes| && p.nodes[i].facts.qualifiedName == name && nodeIDs[p.nodes[i].stableKey] == qualified[name]
  {
    qualified := map[];
    for i := 0 to |p.nodes|
      invariant forall j :: 0 <= j < i ==> p.nodes[j].facts.qualifiedName in qualified
      invariant forall name :: name in qualified ==>
        exists j :: 0 <= j < i && p.nodes[j].facts.qualifiedName == name && nodeIDs[p.nodes[j].stableKey] == qualified[name]
    {
      var id := nodeIDs[p.nodes[i].stableKey];
      assert Catalog.NodeShows(t, p, id, i);
      qualified := qualified[p.nodes[i].facts.qualifiedName := id];
    }
  }

  ghost predicate KeysOfPublication(p: Catalog.Snapshot, keys: seq<ForeignKey>, q: Publication) {
    q.dataSource == p.dataSource && q.keys == keys && q.tables == p.tables
  }

  /** What the service checks of the keys of a snapshot: no key twice, and each joins two different columns of it. */
  ghost predicate KeysChecked(p: Catalog.Snapshot, keys: seq<ForeignKey>) {
    && (forall i, j :: 0 <= i < j < |keys| ==> keys[i] != keys[j])
    && forall i :: 0 <= i < |keys| ==>
      && keys[i].sourceColumn != keys[i].targetColumn
      && ColumnOf(p, keys[i].sourceColumn) && ColumnOf(p, keys[i].targetColumn)
  }

  predicate ColumnOf(p: Catalog.Snapshot, name: string) {
    exists i :: 0 <= i < |p.nodes| && p.nodes[i].kind == NodeColumn && p.nodes[i].facts.qualifiedName == name
  }

  /** Checked keys resolve to two different published nodes. */
  lemma CheckedKeysResolve(p: Catalog.Snapshot, u: Catalog.Tables, q: Publication)
    requires KeysChecked(p, q.keys) && NamesPublished(p, u, q) && Catalog.KeysDistinct(u)
    ensures Resolvable(q)
  {
    hide Catalog.IsActive;
    forall i | 0 <= i < |q.keys| ensures ResolvableKey(q, q.keys[i]) {
      var source, target := q.keys[i].sourceColumn, q.keys[i].targetColumn;
      assert ColumnOf(p, source) && ColumnOf(p, target);
      var a :| 0 <= a < |p.nodes| && NamedNode(p, u, q, source, a);
      var b :| 0 <= b < |p.nodes| && NamedNode(p, u, q, target, b);
    }
  }

  /** Every name the keys are resolved by is that of a node just published, and every published name resolves. */
  ghost predicate NamesPublished(p: Catalog.Snapshot, u: Catalog.Tables, q: Publication) {
    && (forall i :: 0 <= i < |p.nodes| ==> p.nodes[i].facts.qualifiedName in q.nodeIDs)
    && (forall name :: name in q.nodeIDs ==> exists i :: 0 <= i < |p.nodes| && NamedNode(p, u, q, name, i))
  }

  predicate NamedNode(p: Catalog.Snapshot, u: Catalog.Tables, q: Publication, name: string, i: nat)
    requires i < |p.nodes| && name in q.nodeIDs
  {
    p.nodes[i].facts.qualifiedName == name && Catalog.NodeShows(u, p, q.nodeIDs[name], i)
  }

  // ----- the declared keys after a publication, told by the rows alone ---------------------------

  predicate IsKey(p: Catalog.Snapshot, key: ForeignKey, k: StableKey) {
    && k.dataSource == p.dataSource && k.schema == key.schema && k.name == key.name && k.ordinal == key.ordinal
    && k.sourceColumn == key.sourceColumn && k.targetColumn == key.targetColumn
  }

  predicate Observed(p: Catalog.Snapshot, keys: seq<ForeignKey>, k: StableKey) {
    exists i :: 0 <= i < |keys| && IsKey(p, keys[i], k)
  }

  /** A present key of the source that the scan did not see, although it looked at all tables or at the one of the
      column the key starts at. */
  predicate KeyScannedAway(u: Catalog.Tables, p: Catalog.Snapshot, keys: seq<ForeignKey>, before: Tables, k: StableKey) {
    && k in before.mappings && before.mappings[k].present && k.dataSource == p.dataSource && !Observed(p, keys, k)
    && var n := before.mappings[k].sourceNode;
       && n in u.current && u.current[n] in u.versions
       && (p.tables == [] || NamesTable(u.versions[u.current[n]].facts.qualifiedName, p.tables))
  }

  /** An active node of the source that goes by this name. */
  predicate Called(u: Catalog.Tables, p: Catalog.Snapshot, n: int, name: string) {
    && n in u.nodes && u.nodes[n].dataSource == p.dataSource && n in u.current && u.current[n] in u.versions
    && u.versions[u.current[n]].status == Catalog.NodeActive && u.versions[u.current[n]].facts.qualifiedName == name
  }

  /** The rule copies the value of the column of one name to that of the other: always, and with full confidence. */
  predicate CopiesColumn(u: Catalog.Tables, p: Catalog.Snapshot, rule: Rule, source: string, target: string) {
    && Called(u, p, rule.source, source) && Called(u, p, rule.target, target) && rule.confidence == 10_000
    && rule.content.guard.None? && rule.content.selector.None?
    && rule.content.transform.kind == Conditions.ColumnCopy && rule.content.transform.nodeID == rule.source
  }

  /** The key is present. If it was before, its edge has not changed; if not, it now joins the two columns, unless
      somebody has suppressed it. */
  predicate KeyFound(u: Catalog.Tables, p: Catalog.Snapshot, before: Tables, now: Tables, k: StableKey) {
    && k in now.mappings && now.mappings[k].present
    && (k in before.mappings ==> now.mappings[k] == before.mappings[k].(present := true))
    && var r := now.mappings[k].relationID;
       if k in before.mappings && before.mappings[k].present then SameRow(before.edges, now.edges, r)
       else if r in now.edges then CopiesColumn(u, p, now.edges[r].rule, k.sourceColumn, k.targetColumn)
       else r in now.current && now.current[r].status == StatusSuppressed
  }

  predicate KeyGone(before: Tables, now: Tables, k: StableKey) {
    && k in before.mappings && k in now.mappings && now.mappings[k] == before.mappings[k].(present := false)
    && now.mappings[k].relationID !in now.edges
  }

  predicate KeyKept(before: Tables, now: Tables, k: StableKey) {
    && k in before.mappings && k in now.mappings && now.mappings[k] == before.mappings[k]
    && SameRow(before.edges, now.edges, now.mappings[k].relationID)
  }

  /** What has become of every key: those observed are found, those scanned away are gone, all others are as they were. */
  ghost predicate KeysFollow(u: Catalog.Tables, p: Catalog.Snapshot, keys: seq<ForeignKey>, before: Tables, now: Tables) {
    && (forall k :: k in now.mappings <==> k in before.mappings || Observed(p, keys, k))
    && forall k :: k in now.mappings ==>
         if Observed(p, keys, k) then KeyFound(u, p, before, now, k)
         else if KeyScannedAway(u, p, keys, before, k) then KeyGone(before, now, k)
         else KeyKept(before, now, k)
  }

  lemma KeysAreObserved(p: Catalog.Snapshot, keys: seq<ForeignKey>, q: Publication, k: StableKey)
    requires KeysOfPublication(p, keys, q)
    ensures k in KeysUpTo(q, |q.keys|) <==> Observed(p, keys, k)
  {
    if k in KeysUpTo(q, |q.keys|) {
      var i :| 0 <= i < |q.keys| && KeyOf(q, q.keys[i]) == k;
      assert IsKey(p, keys[i], k);
    }
    if Observed(p, keys, k) {
      var i :| 0 <= i < |keys| && IsKey(p, keys[i], k);
      assert KeyOf(q, q.keys[i]) == k;
    }
  }

  lemma VanishedAreScannedAway(
    u: Catalog.Tables, p: Catalog.Snapshot, keys: seq<ForeignKey>, q: Publication, before: Tables, k: StableKey)
    requires KeysOfPublication(p, keys, q) && q.names == CurrentNames(u)
    ensures k in VanishedKeys(q, before.mappings) <==> KeyScannedAway(u, p, keys, before, k)
  {
    KeysAreObserved(p, keys, q, k);
    hide KeysUpTo, Observed, WithinTables, NamesTable;
    if k in before.mappings && before.mappings[k].sourceNode in q.names {
      ScopeCovers(NodeColumn, q.names[before.mappings[k].sourceNode], p.tables);
    }
  }

  lemma ResolvedNodeIsCalled(p: Catalog.Snapshot, u: Catalog.Tables, q: Publication, name: string)
    requires NamesPublished(p, u, q) && name in q.nodeIDs
    ensures Called(u, p, q.nodeIDs[name], name)
  {
    var i :| 0 <= i < |p.nodes| && NamedNode(p, u, q, name, i);
  }

  lemma ObservedKeyJoins(
    u: Catalog.Tables, p: Catalog.Snapshot, keys: seq<ForeignKey>, q: Publication, now: Tables, k: StableKey, r: int)
    requires KeysChecked(p, keys) && KeysOfPublication(p, keys, q) && NamesPublished(p, u, q)
    requires JoinsObserved(q, now, k, r) && r in now.edges
    ensures CopiesColumn(u, p, now.edges[r].rule, k.sourceColumn, k.targetColumn)
  {
    hide NamesPublished, Called;
    var i :| 0 <= i < |q.keys| && KeyOf(q, q.keys[i]) == k && JoinsColumns(q, now, r, i);
    var source, target := q.keys[i].sourceColumn, q.keys[i].targetColumn;
    assert ColumnOf(p, source) && ColumnOf(p, target);
    ColumnsResolve(p, u, q, source);
    ColumnsResolve(p, u, q, target);
  }

  lemma ColumnsResolve(p: Catalog.Snapshot, u: Catalog.Tables, q: Publication, name: string)
    requires NamesPublished(p, u, q) && ColumnOf(p, name)
    ensures name in q.nodeIDs && Called(u, p, q.nodeIDs[name], name)
  {
    assert name in q.nodeIDs;
    ResolvedNodeIsCalled(p, u, q, name);
  }

  lemma KeyFollows(
    u: Catalog.Tables, p: Catalog.Snapshot, keys: seq<ForeignKey>, q: Publication, before: Tables, now: Tables,
    histories: map<int, RuleHistory>, k: StableKey)
    requires KeysChecked(p, keys) && KeysOfPublication(p, keys, q) && q.names == CurrentNames(u) && NamesPublished(p, u, q)
    requires Coupled(now, histories) && DeclaredCoupled(now, histories) && k in now.mappings
    requires Tracks(before.mappings, now.mappings, KeysUpTo(q, |q.keys|), VanishedKeys(q, before.mappings))
    requires EdgesFollow(q, before, now, KeysUpTo(q, |q.keys|), VanishedKeys(q, before.mappings))
    ensures if Observed(p, keys, k) then KeyFound(u, p, before, now, k)
            else if KeyScannedAway(u, p, keys, before, k) then KeyGone(before, now, k)
            else KeyKept(before, now, k)
  {
    KeysAreObserved(p, keys, q, k);
    VanishedAreScannedAway(u, p, keys, q, before, k);
    EffectiveIffPresentAndNotSuppressed(now, histories, k);
    assert EdgeFollows(q, before, now, KeysUpTo(q, |q.keys|), VanishedKeys(q, before.mappings), k);
    var r := now.mappings[k].relationID;
    if r in now.edges && JoinsObserved(q, now, k, r) { ObservedKeyJoins(u, p, keys, q, now, k, r); }
    hide Coupled, DeclaredCoupled, KeysUpTo, VanishedKeys, Observed, KeyScannedAway, CopiesColumn, JoinsObserved, KeysChecked,
      NamesPublished, CurrentNames;
  }

  lemma PublicationFollows(
    u: Catalog.Tables, p: Catalog.Snapshot, keys: seq<ForeignKey>, q: Publication, before: Tables, now: Tables,
    histories: map<int, RuleHistory>)
    requires KeysChecked(p, keys) && KeysOfPublication(p, keys, q) && q.names == CurrentNames(u) && NamesPublished(p, u, q)
    requires Coupled(now, histories) && DeclaredCoupled(now, histories)
    requires Tracks(before.mappings, now.mappings, KeysUpTo(q, |q.keys|), VanishedKeys(q, before.mappings))
    requires EdgesFollow(q, before, now, KeysUpTo(q, |q.keys|), VanishedKeys(q, before.mappings))
    ensures KeysFollow(u, p, keys, before, now)
  {
    hide KeysChecked, NamesPublished, CurrentNames, Coupled, DeclaredCoupled, EdgesFollow, KeysUpTo, VanishedKeys, Observed,
      KeyScannedAway, KeyFound, KeyGone, KeyKept, KeysOfPublication;
    forall k ensures k in now.mappings <==> k in before.mappings || Observed(p, keys, k) { KeysAreObserved(p, keys, q, k); }
    hide Tracks;
    forall k | k in now.mappings
      ensures if Observed(p, keys, k) then KeyFound(u, p, before, now, k)
              else if KeyScannedAway(u, p, keys, before, k) then KeyGone(before, now, k)
              else KeyKept(before, now, k)
    {
      KeyFollows(u, p, keys, q, before, now, histories, k);
    }
  }

  /** A scan limited to some tables leaves the columns of all other tables, and the keys that start at them, alone. */
  lemma OtherTablesAreLeftAlone(
    t: Catalog.Tables, u: Catalog.Tables, p: Catalog.Snapshot, keys: seq<ForeignKey>, before: Tables, now: Tables,
    n: int, table: string, column: string)
    requires Catalog.Follows(t, u, p) && KeysFollow(u, p, keys, before, now)
    requires n in t.nodes && t.nodes[n].kind == NodeColumn && Catalog.Unseen(p, t.nodes[n])
    requires n in t.current && t.current[n] in t.versions
    requires t.versions[t.current[n]].facts.qualifiedName == table + "." + column && '.' !in column
    requires p.tables != [] && table !in p.tables && !NamesTable(table, p.tables)
    ensures Catalog.LeftAlone(t, u, n)
    ensures forall k :: k in before.mappings && before.mappings[k].sourceNode == n && !Observed(p, keys, k) ==> KeyKept(before, now, k)
  {
    ColumnsFollowTables(table, column, p.tables);
    hide NamesTable, Observed, Catalog.Listed, Catalog.Unlisted, Catalog.Unseen;
    assert !Catalog.ScannedAway(t, p, n);
  }

  predicate PresentAt(t: Tables, k: StableKey, n: int) {
    k in t.mappings && t.mappings[k].sourceNode == n && t.mappings[k].present
  }

  /** A scan that does look at a table takes away the columns it no longer sees there, and the keys that start at them. */
  lemma ScannedTablesLoseColumns(
    t: Catalog.Tables, u: Catalog.Tables, p: Catalog.Snapshot, keys: seq<ForeignKey>, before: Tables, now: Tables,
    n: int, table: string, column: string)
    requires Catalog.Follows(t, u, p) && KeysFollow(u, p, keys, before, now)
    requires n in t.nodes && t.nodes[n].kind == NodeColumn && t.nodes[n].dataSource == p.dataSource && Catalog.Unseen(p, t.nodes[n])
    requires n in t.current && t.current[n] in t.versions && t.versions[t.current[n]].status == Catalog.NodeActive
    requires t.versions[t.current[n]].facts.qualifiedName == table + "." + column && '.' !in column
    requires p.tables == [] || table in p.tables
    ensures Catalog.TurnedStale(t, u, p, n)
    ensures forall k :: PresentAt(before, k, n) && k.dataSource == p.dataSource && !Observed(p, keys, k) ==>
      KeyGone(before, now, k)
  {
    ColumnsFollowTables(table, column, p.tables);
    hide NamesTable, Observed, Catalog.Listed, Catalog.Unlisted, Catalog.Unseen;
    assert Catalog.ScannedAway(t, p, n);
  }

  /** Relations may refer to the columns whose current version is active. */
  lemma OnlyActiveColumns(t: Catalog.Tables, n: int)
    ensures n in ActiveColumns(t) <==>
      && n in t.nodes && t.nodes[n].kind == NodeColumn
      && n in t.current && t.current[n] in t.versions && t.versions[t.current[n]].status == Catalog.NodeActive
  {
  }

  method PublishRows(
    catalog: Catalog.CatalogStore, db: Database, ids: Identifiers, p: Catalog.Snapshot, keys: seq<ForeignKey>,
    scanRun: string, prefix: StableKey -> string)
    returns (r: Outcome<()>, stale: nat, facts: seq<Fact>, ghost q: Publication)
    requires Catalog.Sound(catalog.t) && db.Valid() && Catalog.DistinctInputs(p)
    requires KeysChecked(p, keys)
    modifies catalog, db, ids
    ensures r.Failure? ==> ScanError(r.error)
    ensures r.Success? ==> Catalog.Sound(catalog.t) && Catalog.Published(old(catalog.t), catalog.t, p)
    ensures r.Success? ==> stale == |Catalog.MissingNodes(old(catalog.t), p)|
    ensures r.Success? ==> db.Valid() && db.columns == ActiveColumns(catalog.t) && ScanFrame(old(db.histories), db.histories)
    ensures r.Success? ==> KeysOfPublication(p, keys, q) && q.names == CurrentNames(catalog.t)
    ensures r.Success? ==>
      Tracks(old(db.t).mappings, db.t.mappings, KeysUpTo(q, |q.keys|), VanishedKeys(q, old(db.t).mappings))
    ensures r.Success? ==> NamesPublished(p, catalog.t, q)
    ensures r.Success? ==> |facts| == |keys| && Recorded(q, db.t.mappings, facts)
    ensures r.Success? ==>
      EdgesFollow(q, old(db.t), db.t, KeysUpTo(q, |q.keys|), VanishedKeys(q, old(db.t).mappings))
    ensures r.Success? ==> Catalog.Follows(old(catalog.t), catalog.t, p) && KeysFollow(catalog.t, p, keys, old(db.t), db.t)
  {
    hide Recorded, Coupled, DeclaredCoupled, Catalog.Published, Catalog.Sound, ScanFrame, Tracks, EdgesFollow, Catalog.NodeShows, Catalog.DistinctInputs, Resolvable, AllAccepted,
      ActiveColumns, CurrentNames;
    facts := [];
    var published;
    published, stale := catalog.PublishNodes(ids, p, 0);
    if published.Failure? {
      q := Publication(p.dataSource, scanRun, keys, p.tables, map[], map[], prefix);
      return Failure(CatalogFailure(published.error)), 0, [], q;
    }
    assert Catalog.KeysDistinct(catalog.t) by { Catalog.SoundParts(catalog.t); }
    var qualified := QualifiedNodes(catalog.t, p, published.value);
    db.columns := ActiveColumns(catalog.t);
    var publication := Publication(p.dataSource, scanRun, keys, p.tables, qualified, CurrentNames(catalog.t), prefix);
    q := publication;
    forall name | name in q.nodeIDs ensures exists i :: 0 <= i < |p.nodes| && NamedNode(p, catalog.t, q, name, i) {
      var i :| 0 <= i < |p.nodes| && p.nodes[i].facts.qualifiedName == name && published.value[p.nodes[i].stableKey] == qualified[name];
      assert NamedNode(p, catalog.t, q, name, i);
    }
    KeysStayDistinct(publication);
    CheckedKeysResolve(p, catalog.t, publication);
    r, facts := ReconcileDeclaredForeignKeys(db, ids, publication);
    hide Catalog.Follows, KeysFollow, NamesPublished, KeysChecked, KeysUpTo, VanishedKeys, KeysOfPublication;
    Catalog.PublishedFollows(old(catalog.t), catalog.t, p);
    if r.Success? { PublicationFollows(catalog.t, p, keys, q, old(db.t), db.t, db.histories); }
  }

  lemma KeysStayDistinct(q: Publication)
    requires forall i, j :: 0 <= i < j < |q.keys| ==> q.keys[i] != q.keys[j]
    ensures DistinctKeys(q)
  {
    forall i, j | 0 <= i < j < |q.keys| ensures KeyOf(q, q.keys[i]) != KeyOf(q, q.keys[j]) {
      var a, b := q.keys[i], q.keys[j];
      assert a == ForeignKey(a.schema, a.name, a.ordinal, a.sourceColumn, a.targetColumn);
      assert b == ForeignKey(b.schema, b.name, b.ordinal, b.sourceColumn, b.targetColumn);
    }
  }

  datatype PublicationError = RunRefused(run: RunError) | Refused(cause: RelationError)

  /** A snapshot is published whole or leaves no trace, its scan run included: success ends the run with what was
      counted. It is refused when the data source is gone or the run begun for it has ended. Any other failure is never
      an illegal transition: whatever people and earlier scans did to the declared keys, a scan can follow it. */
  method PublishSnapshot(
    scans: RunStore, catalog: Catalog.CatalogStore, db: Database, ids: Identifiers, p: Catalog.Snapshot,
    keys: seq<ForeignKey>, prestarted: bool, startedAt: string, scanRun: string, prefix: StableKey -> string)
    returns (r: Result<(), PublicationError>, facts: seq<Fact>, ghost q: Publication)
    requires Catalog.Sound(catalog.t) && db.Valid() && Catalog.DistinctInputs(p)
    requires KeysChecked(p, keys)
    modifies scans`runs, catalog, db, ids
    ensures Catalog.Sound(catalog.t) && db.Valid() && RunsAdvance(old(scans.runs), scans.runs)
    ensures r.Failure? ==> catalog.t == old(catalog.t) && db.t == old(db.t) && scans.runs == old(scans.runs) && facts == []
    ensures r.Failure? ==> db.columns == old(db.columns) && db.histories == old(db.histories)
    ensures r.Failure? && r.error.RunRefused? <==> !Publishable(old(scans.runs), scans.sources, p.scanRun, p.dataSource, prestarted)
    ensures r.Failure? && r.error.Refused? ==> ScanError(r.error.cause)
    ensures r.Success? ==> RunEnded(scans.runs, p.scanRun, p.dataSource, |p.nodes|, |Catalog.MissingNodes(old(catalog.t), p)|)
    ensures r.Success? ==> forall id :: id in scans.runs && id != p.scanRun ==> id in old(scans.runs) && scans.runs[id] == old(scans.runs)[id]
    ensures r.Success? ==> Catalog.Published(old(catalog.t), catalog.t, p) && db.columns == ActiveColumns(catalog.t)
    ensures r.Success? ==> ScanFrame(old(db.histories), db.histories) && KeysOfPublication(p, keys, q)
    ensures r.Success? ==>
      Tracks(old(db.t).mappings, db.t.mappings, KeysUpTo(q, |q.keys|), VanishedKeys(q, old(db.t).mappings))
    ensures r.Success? ==> NamesPublished(p, catalog.t, q)
    ensures r.Success? ==> |facts| == |keys| && Recorded(q, db.t.mappings, facts)
    ensures r.Success? ==>
      EdgesFollow(q, old(db.t), db.t, KeysUpTo(q, |q.keys|), VanishedKeys(q, old(db.t).mappings))
    ensures r.Success? ==> Catalog.Follows(old(catalog.t), catalog.t, p) && KeysFollow(catalog.t, p, keys, old(db.t), db.t)
  {
    hide AllAccepted, KeysChecked, Coupled, DeclaredCoupled, Catalog.Sound, Catalog.Published, ScanFrame, Tracks, EdgesFollow, NamesPublished, Recorded, ActiveColumns, KeysOfPublication,
      Catalog.MissingNodes, Catalog.Follows, KeysFollow;
    q := Publication(p.dataSource, scanRun, keys, p.tables, map[], map[], prefix);
    facts := [];
    var runs := scans.runs;
    var started := scans.StartPublication(p.scanRun, p.dataSource, prestarted, startedAt);
    if started.Failure? { return Failure(RunRefused(started.error)), [], q; }
    var nodes, rows, columns := catalog.t, db.t, db.columns;
    ghost var histories := db.histories;
    var published, stale;
    published, stale, facts, q := PublishRows(catalog, db, ids, p, keys, scanRun, prefix);
    if published.Failure? {
      catalog.t, db.t, db.columns := nodes, rows, columns;
      db.histories := histories;
      scans.runs := runs;
      return Failure(Refused(published.error)), [], q;
    }
    ghost var open := scans.runs;
    scans.CompletePublication(p.scanRun, |p.nodes|, stale, startedAt);
    RunsAdvanceOn(old(scans.runs), open, scans.runs);
    return Success(()), facts, q;
  }

  predicate RunEnded(runs: Runs, id: int, dataSource: int, nodes: nat, stale: nat) {
    && id in runs && runs[id].dataSource == dataSource && runs[id].status == RunSucceeded
    && runs[id].nodeCount == nodes && runs[id].staleCount == stale
  }
}
