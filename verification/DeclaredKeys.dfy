/** Publishing the foreign keys a schema scan observed: keys seen are approved without review, keys that
    disappear from the part scanned are tombstoned, and a suppressed key stays suppressed throughout. */
module DeclaredKeys {
  import opened Wrappers
  import opened RelationHistory
  import opened RelationTables
  import opened RelationWrites
  import opened RelationRepository
  import opened Rules
  import opened Scope
  import opened Supply
  import References
  import Conditions
  import Validation

  datatype ForeignKey = ForeignKey(schema: string, name: string, ordinal: int, sourceColumn: string, targetColumn: string)

  /** What reconciliation needs of a publication. `nodeIDs` resolves the qualified names of the snapshot;
      `names` are the qualified names of the current nodes; `prefix` is the start of a key's hash. */
  datatype Publication = Publication(
    dataSource: int, scanRun: string, keys: seq<ForeignKey>, tables: seq<string>,
    nodeIDs: map<string, Int64>, names: map<int, string>, prefix: StableKey -> string)

  const ScannerActor := "dbgraph-schema-scanner"
  const OriginSystem := 3

  function KeyOf(p: Publication, key: ForeignKey): StableKey {
    StableKey(p.dataSource, key.schema, key.name, key.ordinal, key.sourceColumn, key.targetColumn)
  }

  function RequestedBy(p: Publication, key: StableKey, action: string): Provenance {
    Provenance(ScannerActor, OriginSystem, "scan:" + p.scanRun + ":" + action + ":" + p.prefix(key))
  }

  function NodeID(p: Publication, name: string): Int64 {
    if name in p.nodeIDs then p.nodeIDs[name] else 0
  }

  type Int64 = Conditions.Int64

  /** A declared key copies its source column to its target column, unconditionally and with full confidence. */
  function KeyRule(source: Int64, target: int): Rule {
    Rule(source, target,
         References.Content(None, None, Conditions.Value(Conditions.ColumnCopy, source, "", None, [], None)), 10_000)
  }

  /** Two nodes that a key can join. */
  predicate Joinable(source: int, target: int) {
    0 < source && 0 < target && source != target
  }

  /** The rule of a key passes the validator. */
  lemma KeyRuleAccepted(source: Int64, target: int)
    requires Joinable(source, target)
    ensures AcceptedRule(KeyRule(source, target))
  {
    var copy := Conditions.Value(Conditions.ColumnCopy, source, "", None, [], None);
    assert Validation.ShapeValue(copy, Validation.DefaultLimits);
    assert Validation.DepthCases(copy.cases) == 0 && Validation.DepthValue(copy) == 1;
    assert Validation.SizeValue(copy) == 1;
    assert Validation.AcceptedValue(copy, Validation.DefaultLimits);
  }

  /** What the publication was checked for: both columns of every key are in the snapshot, and they differ. */
  predicate Resolvable(p: Publication) {
    forall i :: 0 <= i < |p.keys| ==> ResolvableKey(p, p.keys[i])
  }

  predicate ResolvableKey(p: Publication, key: ForeignKey) {
    && key.sourceColumn in p.nodeIDs && key.targetColumn in p.nodeIDs
    && Joinable(NodeID(p, key.sourceColumn), NodeID(p, key.targetColumn))
  }

  // ----- a key seen for the first time -----------------------------------------------------------

  function WithMapping(t: Tables, k: StableKey, row: MappingRow): Tables {
    t.(mappings := t.mappings[k := row])
  }

  function KeyVersion(t: Tables, r: int, v: int, k: StableKey, rule: Rule): Tables {
    WithVersion(WithRelation(t, r, RelationRow(DeclaredForeignKey, OfKey(k))), r, v, 1, ProposalContent, rule)
  }

  function KeyRows(t: Tables, r: int, v: int, k: StableKey, rule: Rule, e: EventRow): Tables {
    WithEdge(WithCurrent(WithEvent(KeyVersion(t, r, v, k, rule), e), r, CurrentRow(1, Some(v), None, StatusApproved)),
             r, EdgeRow(v, DeclaredForeignKey, rule))
  }

  lemma MappingsDoNotMatter(t: Tables, mappings: map<StableKey, MappingRow>, histories: map<int, RuleHistory>)
    requires Coupled(t, histories)
    ensures Coupled(t.(mappings := mappings), histories)
  {
    var u := t.(mappings := mappings);
    hide Invariant, Log;
    forall r | r in histories ensures Sound(u, r, histories[r]) {
      assert Sound(t, r, histories[r]);
      var h := histories[r];
      forall v | v in h.versions ensures HoldsVersion(u, r, v, h.versions[v]) { assert HoldsVersion(t, r, v, h.versions[v]); }
    }
  }

  predicate KeyIsNew(t: Tables, r: int, v: int, k: StableKey) {
    && r !in t.relations && v !in t.versions
    && forall q :: q in t.relations ==> t.relations[q].fingerprint != OfKey(k)
  }

  lemma KeyWritten(t: Tables, histories: map<int, RuleHistory>, r: int, v: int, k: StableKey, rule: Rule, e: EventRow)
    requires Housekeeping(t, histories.Keys) && KeyIsNew(t, r, v, k)
    requires e.relationID == r && e.versionID == v && e.event == EventApproved
    ensures var w := KeyVersion(t, r, v, k, rule); var g := Created(DeclaredForeignKey, v, rule);
      && Written(w, KeyRows(t, r, v, k, rule, e), r, g, e, None)
      && g.log == Logged(Log(t.events, r), e, None)
  {
    LogOfUnknown(t.events, r);
    hide Log;
  }

  lemma KeyVersionHeld(t: Tables, histories: map<int, RuleHistory>, r: int, v: int, k: StableKey, rule: Rule)
    requires Housekeeping(t, histories.Keys) && KeyIsNew(t, r, v, k)
    ensures var w := KeyVersion(t, r, v, k, rule); var g := Created(DeclaredForeignKey, v, rule);
      Prepared(t, w, r) && HoldsVersions(w, r, g) && w.relations[r].kind == g.kind
  {
  }

  lemma KeyCommits(
    t: Tables, u: Tables, histories: map<int, RuleHistory>, r: int, v: int, k: StableKey, rule: Rule, e: EventRow, source: int)
    requires Coupled(t, histories) && DeclaredCoupled(t, histories) && KeyIsNew(t, r, v, k)
    requires e.relationID == r && e.versionID == v && e.event == EventApproved
    requires u == WithMapping(KeyRows(t, r, v, k, rule, e), k, MappingRow(r, source, true))
    ensures r !in histories && k !in t.mappings
    ensures var after := histories[r := Created(DeclaredForeignKey, v, rule)];
      Coupled(u, after) && DeclaredCoupled(u, after)
  {
    var g := Created(DeclaredForeignKey, v, rule);
    var rows := KeyRows(t, r, v, k, rule, e);
    assert t.relations.Keys == histories.Keys;
    forall j | j in t.mappings ensures j != k { assert MappingSound(t, histories, j); }
    CreationEstablishesInvariant(DeclaredForeignKey, v, rule);
    KeyWritten(t, histories, r, v, k, rule, e);
    KeyVersionHeld(t, histories, r, v, k, rule);
    StepCommits(t, KeyVersion(t, r, v, k, rule), rows, histories, r, g, e, None);
    MappingsDoNotMatter(rows, u.mappings, histories[r := g]);
    KeyDeclared(t, u, histories, r, g, k);
  }

  lemma KeyDeclared(t: Tables, u: Tables, histories: map<int, RuleHistory>, r: int, g: RuleHistory, k: StableKey)
    requires DeclaredCoupled(t, histories) && t.relations.Keys == histories.Keys && r !in histories && k !in t.mappings
    requires u.relations == t.relations[r := RelationRow(DeclaredForeignKey, OfKey(k))]
    requires k in u.mappings && u.mappings[k].relationID == r && u.mappings[k].present && u.mappings == t.mappings[k := u.mappings[k]]
    requires g.kind == DeclaredForeignKey && g.now.status == StatusApproved
    ensures DeclaredCoupled(u, histories[r := g])
  {
    forall j | j in u.mappings ensures MappingSound(u, histories[r := g], j) {
      if j != k { assert MappingSound(t, histories, j); }
    }
  }

  // ----- a key that comes back or goes away ------------------------------------------------------

  /** What one publication on an existing relation writes: the new version, its event, and the superseding one. */
  datatype PublishWrite = PublishWrite(v: int, kind: Kind, rule: Rule, e: EventRow, second: EventRow)

  function PublishVersion(t: Tables, r: int, x: PublishWrite): Tables
    requires r in t.current
  {
    WithVersion(t, r, x.v, t.current[r].latest + 1, x.kind, x.rule)
  }

  function PublishRows(t: Tables, r: int, x: PublishWrite): Tables
    requires r in t.current
  {
    var row := CurrentRow(t.current[r].latest + 1, Some(x.v), None, StatusOfKind(x.kind));
    var u := Projected(PublishVersion(t, r, x), r, row, x.e, Some(x.second));
    if x.kind == ProposalContent then WithEdge(u, r, EdgeRow(x.v, DeclaredForeignKey, x.rule)) else WithoutEdge(u, r)
  }

  predicate PublishFits(t: Tables, histories: map<int, RuleHistory>, r: int, x: PublishWrite) {
    && r in histories && r in t.current && x.v !in t.versions && Enabled(histories[r], Publish(x.v, x.kind, x.rule))
    && x.e.relationID == r && x.e.versionID == x.v && x.e.event == OutcomeEvent(x.kind)
    && x.second.relationID == r && Some(x.second.versionID) == histories[r].now.active && x.second.event == EventSuperseded
  }

  function Published(h: RuleHistory, x: PublishWrite): RuleHistory
    requires Enabled(h, Publish(x.v, x.kind, x.rule))
  {
    Apply(h, Publish(x.v, x.kind, x.rule))
  }

  lemma PublishAddsVersion(t: Tables, histories: map<int, RuleHistory>, r: int, x: PublishWrite)
    requires PublishFits(t, histories, r, x) && Sound(t, r, histories[r]) && forall v :: v in t.stale ==> v in t.versions
    ensures var w := PublishVersion(t, r, x); Prepared(t, w, r) && HoldsVersions(w, r, Published(histories[r], x))
  {
    var h := histories[r];
    var added := AddVersion(h, x.v, x.kind, x.rule);
    hide Log, Invariant, HoldsEdge, HoldsVersions, Prepared, WithVersion, Enabled;
    VersionHeld(t, r, h, x.v, x.kind, x.rule);
    VersionPrepared(t, r, x.v, |h.now.order| + 1, x.kind, x.rule);
    hide Holds, Sound, AddVersion;
    SameVersions(PublishVersion(t, r, x), r, added, Published(h, x));
  }

  lemma SameVersions(t: Tables, r: int, h: RuleHistory, g: RuleHistory)
    requires HoldsVersions(t, r, h) && g.versions == h.versions
    ensures HoldsVersions(t, r, g)
  {
  }

  lemma PublishWritten(t: Tables, histories: map<int, RuleHistory>, r: int, x: PublishWrite)
    requires PublishFits(t, histories, r, x) && Holds(t, r, histories[r])
    ensures var g := Published(histories[r], x);
      && Written(PublishVersion(t, r, x), PublishRows(t, r, x), r, g, x.e, Some(x.second))
      && g.log == Logged(Log(t.events, r), x.e, Some(x.second))
  {
    hide Log, HoldsVersions, HoldsEdge, WithEvents, WithVersion;
    UntouchedByEvents(PublishVersion(t, r, x), x.e, Some(x.second));
    assert HoldsEdge(PublishRows(t, r, x), r, Published(histories[r], x)) by { PublishedEdge(t, histories, r, x); }
  }

  lemma PublishedEdge(t: Tables, histories: map<int, RuleHistory>, r: int, x: PublishWrite)
    requires PublishFits(t, histories, r, x) && Holds(t, r, histories[r])
    ensures HoldsEdge(PublishRows(t, r, x), r, Published(histories[r], x))
  {
    hide Log, HoldsVersions, WithEvents, WithVersion;
  }

  lemma PublishKeepsKind(t: Tables, histories: map<int, RuleHistory>, r: int, x: PublishWrite)
    requires PublishFits(t, histories, r, x) && Holds(t, r, histories[r])
    ensures r in PublishVersion(t, r, x).relations
    ensures PublishVersion(t, r, x).relations[r].kind == Published(histories[r], x).kind
  {
    hide HoldsVersions, HoldsEdge, Log;
  }

  lemma PublishedRowsCommit(t: Tables, histories: map<int, RuleHistory>, r: int, x: PublishWrite)
    requires Coupled(t, histories) && PublishFits(t, histories, r, x)
    ensures Coupled(PublishRows(t, r, x), histories[r := Published(histories[r], x)])
  {
    hide GetRelation, RelationOf, Holds, HoldsVersions, Prepared, Written, OnlyTouches, PublishVersion, PublishRows, StatusFits, ProposalFits;
    CurrentReads(t, histories, r);
    PublishAddsVersion(t, histories, r, x);
    assert Holds(t, r, histories[r]);
    PublishWritten(t, histories, r, x);
    PublishKeepsKind(t, histories, r, x);
    hide Housekeeping, Sound, Coupled, Enabled, Apply;
    ActionKeepsInvariant(histories[r], Publish(x.v, x.kind, x.rule));
    hide Invariant;
    StepCommits(t, PublishVersion(t, r, x), PublishRows(t, r, x), histories, r, Published(histories[r], x), x.e, Some(x.second));
  }

  lemma PublishCommits(t: Tables, u: Tables, histories: map<int, RuleHistory>, r: int, x: PublishWrite, k: StableKey)
    requires Coupled(t, histories) && DeclaredCoupled(t, histories) && PublishFits(t, histories, r, x)
    requires k in t.mappings && t.mappings[k].relationID == r
    requires u == WithMapping(PublishRows(t, r, x), k, t.mappings[k].(present := x.kind == ProposalContent))
    ensures var after := histories[r := Published(histories[r], x)]; Coupled(u, after) && DeclaredCoupled(u, after)
  {
    hide Coupled, Invariant;
    PublishedRowsCommit(t, histories, r, x);
    var g := Published(histories[r], x);
    MappingsDoNotMatter(PublishRows(t, r, x), u.mappings, histories[r := g]);
    PresenceRecorded(t, PublishRows(t, r, x), histories, r, g, k, x.kind == ProposalContent);
  }

  /** Changing one relation together with its presence flag keeps the correspondence. */
  lemma PresenceRecorded(
    t: Tables, v: Tables, histories: map<int, RuleHistory>, r: int, h: RuleHistory, k: StableKey, present: bool)
    requires DeclaredCoupled(t, histories) && v.relations == t.relations && v.mappings == t.mappings
    requires k in t.mappings && t.mappings[k].relationID == r && r in histories && h.kind == histories[r].kind
    requires PresenceFits(present, h.now.status)
    ensures DeclaredCoupled(WithMapping(v, k, t.mappings[k].(present := present)), histories[r := h])
  {
    var u := WithMapping(v, k, t.mappings[k].(present := present));
    assert MappingSound(t, histories, k);
    forall j | j in u.mappings ensures MappingSound(u, histories[r := h], j) {
      assert MappingSound(t, histories, j);
    }
  }

  // ----- what a scan may do to the histories -----------------------------------------------------

  /** Histories only grow; reviewed relations and suppressed keys are left alone; new relations are declared keys. */
  ghost predicate ScanFrame(before: map<int, RuleHistory>, after: map<int, RuleHistory>) {
    && (forall r :: r in before ==> r in after && ScanStep(before[r], after[r]))
    && (forall r :: r in after && r !in before ==> after[r].kind == DeclaredForeignKey)
  }

  ghost predicate ScanStep(h: RuleHistory, g: RuleHistory) {
    Extends(g, h) && (h.kind == ConditionalValueCopy || h.now.status == StatusSuppressed ==> g == h)
  }

  lemma ScanFramesCompose(a: map<int, RuleHistory>, b: map<int, RuleHistory>, c: map<int, RuleHistory>)
    requires ScanFrame(a, b) && ScanFrame(b, c)
    ensures ScanFrame(a, c)
  {
    forall r | r in a ensures r in c && ScanStep(a[r], c[r]) {
      assert ScanStep(a[r], b[r]) && ScanStep(b[r], c[r]);
    }
  }

  lemma NewKeyFrame(hs: map<int, RuleHistory>, r: int, g: RuleHistory)
    requires r !in hs && g.kind == DeclaredForeignKey
    ensures ScanFrame(hs, hs[r := g])
  {
  }

  lemma PublishFrame(hs: map<int, RuleHistory>, r: int, x: PublishWrite)
    requires r in hs && Enabled(hs[r], Publish(x.v, x.kind, x.rule))
    ensures ScanFrame(hs, hs[r := Published(hs[r], x)])
  {
    ActionExtends(hs[r], Publish(x.v, x.kind, x.rule));
  }

  /** Only the mapping of `k` differs. */
  predicate MappingSet(t: Tables, u: Tables, k: StableKey, present: bool) {
    k in t.mappings && u.mappings == t.mappings[k := t.mappings[k].(present := present)]
  }

  /** Only the effective edge of `r` may differ. */
  ghost predicate OnlyEdgeOf(t: Tables, u: Tables, r: int) {
    forall q: int :: q != r ==> SameRow(t.edges, u.edges, q)
  }

  /** If relation `r` is in effect, its edge joins these two nodes. */
  predicate Joins(t: Tables, r: int, source: Int64, target: int) {
    r in t.edges ==> t.edges[r].rule == KeyRule(source, target)
  }

  /** The allocator ran out, or a row was refused. */
  predicate WriteError(e: RelationError) {
    e in {ConstraintViolated, IdentifiersExhausted}
  }

  predicate ScanError(e: RelationError) {
    WriteError(e) || e == InvalidCommand
  }

  /** A key whose columns are not both active columns of the catalog. */
  ghost predicate Unresolvable(p: Publication, columns: set<int>) {
    exists i :: 0 <= i < |p.keys| && !({NodeID(p, p.keys[i].sourceColumn), NodeID(p, p.keys[i].targetColumn)} <= columns)
  }

  // ----- the transaction steps -------------------------------------------------------------------

  method NextTwo(ids: Identifiers) returns (pair: Outcome<(int, int)>)
    modifies ids
    ensures pair.Failure? ==> pair.error == IdentifiersExhausted
  {
    var a := ids.Next();
    if a.None? { return Failure(IdentifiersExhausted); }
    var b := ids.Next();
    if b.None? { return Failure(IdentifiersExhausted); }
    return Success((a.value, b.value));
  }

  function KeyEvent(p: Publication, k: StableKey, id: int, r: int, v: int): EventRow {
    Event(id, r, v, EventApproved, RequestedBy(p, k, "create"))
  }

  /** Every event added is about this relation, signed by the scanner, and a new one. */
  ghost predicate RecordedByScanner(t: Tables, u: Tables, r: int) {
    exists who: Provenance :: who.actor == "dbgraph-schema-scanner" && who.origin == 3 && EventsRecorded(t, u, r, who)
  }

  lemma ScannerRecords(t: Tables, u: Tables, r: int, p: Publication, k: StableKey, action: string)
    requires EventsRecorded(t, u, r, RequestedBy(p, k, action))
    ensures RecordedByScanner(t, u, r)
  {
    hide EventsRecorded;
  }

  method InsertDeclaredForeignKey(db: Database, ids: Identifiers, p: Publication, k: StableKey, source: Int64, target: Int64)
    returns (res: Outcome<int>)
    requires db.Valid() && Joinable(source, target)
    modifies db`t, db`histories, ids
    ensures res.Failure? ==> ScanError(res.error)
    ensures res == Failure(InvalidCommand) ==> !({source, target} <= db.columns)
    ensures res.Success? ==> {source, target} <= db.columns
    ensures res.Success? ==> db.Valid() && ScanFrame(old(db.histories), db.histories) && k !in old(db.t).mappings
    ensures res.Success? ==> db.t.mappings == old(db.t).mappings[k := MappingRow(res.value, source, true)]
    ensures res.Success? ==> res.value in db.histories && db.histories[res.value].now.status == StatusApproved
    ensures res.Success? ==>
      res.value !in old(db.t).edges && res.value in db.t.edges && OnlyEdgeOf(old(db.t), db.t, res.value)
      && Joins(db.t, res.value, source, target)
    ensures res.Success? ==> RecordedByScanner(old(db.t), db.t, res.value)
  {
    hide AllAccepted, AcceptedRule, Coupled, DeclaredCoupled, ScanFrame, EventClashes, StoredKind, RequestedBy;
    hide RecordedByScanner, EventsRecorded;
    var first :- NextTwo(ids);
    var second :- NextTwo(ids);
    var (r, v) := first;
    var event := KeyEvent(p, k, second.0, r, v);
    var rule := KeyRule(source, target);
    if !({source, target} <= db.columns) { return Failure(InvalidCommand); }
    if r in db.t.relations || exists q :: q in db.t.relations && db.t.relations[q].fingerprint == OfKey(k) {
      return Failure(ConstraintViolated);
    }
    db.t := WithRelation(db.t, r, RelationRow(DeclaredForeignKey, OfKey(k)));
    if v in db.t.versions { return Failure(ConstraintViolated); }
    db.t := WithVersion(db.t, r, v, 1, ProposalContent, rule);
    if EventClashes(db.t.events, event) { return Failure(ConstraintViolated); }
    db.t := WithEvent(db.t, event);
    db.t := WithCurrent(db.t, r, CurrentRow(1, Some(v), None, StatusApproved));
    db.t := WithEdge(db.t, r, EdgeRow(v, DeclaredForeignKey, rule));
    db.t := WithMapping(db.t, k, MappingRow(r, source, true));
    EventRecorded(old(db.t), db.t, event, r, RequestedBy(p, k, "create"));
    ScannerRecords(old(db.t), db.t, r, p, k, "create");
    KeyInserted(old(db.t), db.t, old(db.histories), r, v, k, rule, event, source);
    UnknownHasNoEdge(old(db.t), old(db.histories), r);
    KeyRuleAccepted(source, target);
    CreationAccepted(old(db.histories), r, DeclaredForeignKey, v, rule);
    db.histories := db.histories[r := Created(DeclaredForeignKey, v, rule)];
    return Success(r);
  }

  lemma UnknownHasNoEdge(t: Tables, histories: map<int, RuleHistory>, r: int)
    requires Coupled(t, histories) && r !in histories
    ensures r !in t.edges
  {
  }

  lemma KeyInserted(
    t: Tables, u: Tables, histories: map<int, RuleHistory>, r: int, v: int, k: StableKey, rule: Rule, e: EventRow, source: int)
    requires Coupled(t, histories) && DeclaredCoupled(t, histories) && KeyIsNew(t, r, v, k)
    requires e.relationID == r && e.versionID == v && e.event == EventApproved
    requires u == WithMapping(KeyRows(t, r, v, k, rule, e), k, MappingRow(r, source, true))
    ensures r !in histories && k !in t.mappings
    ensures var after := histories[r := Created(DeclaredForeignKey, v, rule)];
      Coupled(u, after) && DeclaredCoupled(u, after) && ScanFrame(histories, after)
  {
    hide *;
    KeyCommits(t, u, histories, r, v, k, rule, e, source);
    assert Created(DeclaredForeignKey, v, rule).kind == DeclaredForeignKey by { CreatedKind(v, rule); }
    NewKeyFrame(histories, r, Created(DeclaredForeignKey, v, rule));
  }

  lemma CreatedKind(v: int, rule: Rule)
    ensures Created(DeclaredForeignKey, v, rule).kind == DeclaredForeignKey
  {
  }

  /** A relation found in the one state its step expects is published, otherwise nothing is written. */
  ghost predicate PublishedOrKept(t: Tables, u: Tables, histories: map<int, RuleHistory>, r: int, x: Option<PublishWrite>, kind: Kind)
    requires r in t.current
  {
    if x.None? then u == t
    else
      x.value.kind == kind && PublishFits(t, histories, r, x.value) && u == PublishRows(t, r, x.value) && u.mappings == t.mappings
  }

  function PublishEvents(
    p: Publication, k: StableKey, r: int, v: int, old_: int, ids: (int, int), kind: Kind): (EventRow, EventRow)
  {
    var who := RequestedBy(p, k, if kind == ProposalContent then "restore" else "remove");
    (Event(ids.0, r, v, OutcomeEvent(kind), who), Event(ids.1, r, old_, EventSuperseded, who))
  }

  /** The revision, its two events and the projection row, in that order; the edge is the caller's. */
  method WriteRevision(db: Database, r: int, revisionNo: nat, x: PublishWrite) returns (ok: bool)
    modifies db`t
    ensures ok ==> x.v !in old(db.t).versions
    ensures ok ==> db.t == Projected(WithVersion(old(db.t), r, x.v, revisionNo, x.kind, x.rule), r,
                                     CurrentRow(revisionNo, Some(x.v), None, StatusOfKind(x.kind)), x.e, Some(x.second))
    ensures ok ==> !EventClashes(old(db.t).events, x.e) && !EventClashes(old(db.t).events + [x.e], x.second)
  {
    hide EventClashes, StoredKind;
    if x.v in db.t.versions { return false; }
    db.t := WithVersion(db.t, r, x.v, revisionNo, x.kind, x.rule);
    if EventClashes(db.t.events, x.e) { return false; }
    db.t := WithEvent(db.t, x.e);
    if EventClashes(db.t.events, x.second) { return false; }
    db.t := WithEvent(db.t, x.second);
    db.t := WithCurrent(db.t, r, CurrentRow(revisionNo, Some(x.v), None, StatusOfKind(x.kind)));
    return true;
  }

  method ReactivateDeclaredForeignKey(
    db: Database, ids: Identifiers, p: Publication, r: int, k: StableKey, source: Int64, target: Int64)
    returns (res: Outcome<()>, ghost x: Option<PublishWrite>)
    requires db.Valid() && r in db.histories && db.histories[r].kind == DeclaredForeignKey && r in db.t.current
    requires Joinable(source, target)
    modifies db`t, ids
    ensures res.Failure? ==>
      WriteError(res.error) || res.error == InvalidTransition || GetRelation(old(db.t), r) == Failure(res.error)
    ensures res.Failure? && res.error == InvalidTransition && GetRelation(old(db.t), r).Success? ==> db.histories[r].now.status !in {StatusSuppressed, StatusTombstoned}
    ensures res.Success? ==> PublishedOrKept(old(db.t), db.t, db.histories, r, x, ProposalContent)
    ensures res.Success? && x.Some? ==> RecordedByScanner(old(db.t), db.t, r)
    ensures res.Success? ==> (x.None? <==> db.histories[r].now.status == StatusSuppressed)
    ensures res.Success? && x.Some? ==> x.value.rule == KeyRule(source, target)
  {
    hide AllAccepted, AcceptedRule, Coupled, DeclaredCoupled, EventClashes, StoredKind, GetRelation, RequestedBy;
    hide RecordedByScanner, EventsRecorded;
    x := None;
    var current :- GetRelation(db.t, r);
    CurrentReads(db.t, db.histories, r);
    KeyUnderNoReview(db.histories[r], db.t, r);
    if current.status == StatusSuppressed { return Success(()), None; }
    if current.status != StatusTombstoned || current.active.None? || current.proposed.Some? {
      return Failure(InvalidTransition), None;
    }
    var first :- NextTwo(ids);
    var second :- NextTwo(ids);
    var v := first.0;
    var (approved, superseded) := PublishEvents(p, k, r, v, current.active.value.id, (first.1, second.0), ProposalContent);
    var rule := KeyRule(source, target);
    x := Some(PublishWrite(v, ProposalContent, rule, approved, superseded));
    var ok := WriteRevision(db, r, current.latest + 1, PublishWrite(v, ProposalContent, rule, approved, superseded));
    if !ok { return Failure(ConstraintViolated), None; }
    db.t := WithEdge(db.t, r, EdgeRow(v, DeclaredForeignKey, rule));
    TwoEventsRecorded(old(db.t), db.t, approved, superseded, r, RequestedBy(p, k, "restore"));
    ScannerRecords(old(db.t), db.t, r, p, k, "restore");
    VersionsAreKnown(old(db.t), db.histories[r], r);
    return Success(()), x;
  }

  /** A declared key has an active version, is not under review, and the tables say so. */
  lemma KeyUnderNoReview(h: RuleHistory, t: Tables, r: int)
    requires Sound(t, r, h) && h.kind == DeclaredForeignKey
    ensures h.now.active.Some? && h.now.active.value in h.versions && h.now.proposed.None?
    ensures h.versions[h.now.active.value].revisionNo == |h.now.order|
    ensures t.current[r] == RowOf(h)
  {
    hide Replay, Balanced, Log, HoldsVersions, HoldsEdge;
  }

  lemma VersionsAreKnown(t: Tables, h: RuleHistory, r: int)
    requires Sound(t, r, h)
    ensures forall v :: v in h.versions ==> v in t.versions
  {
    hide Invariant, Log, HoldsEdge;
    forall v | v in h.versions ensures v in t.versions { assert HoldsVersion(t, r, v, h.versions[v]); }
  }

  method RemoveDeclaredForeignKey(db: Database, ids: Identifiers, p: Publication, r: int, k: StableKey)
    returns (res: Outcome<()>, ghost x: Option<PublishWrite>)
    requires db.Valid() && r in db.histories && db.histories[r].kind == DeclaredForeignKey && r in db.t.current
    modifies db`t, ids
    ensures res.Failure? ==>
      WriteError(res.error) || res.error == InvalidTransition || GetRelation(old(db.t), r) == Failure(res.error)
    ensures res.Failure? && res.error == InvalidTransition && GetRelation(old(db.t), r).Success? ==>
      db.histories[r].now.status !in {StatusSuppressed, StatusTombstoned, StatusApproved}
    ensures res.Success? ==> PublishedOrKept(old(db.t), db.t, db.histories, r, x, ProposalTombstone)
    ensures res.Success? && x.Some? ==> RecordedByScanner(old(db.t), db.t, r)
    ensures res.Success? ==> (x.None? <==> db.histories[r].now.status in {StatusSuppressed, StatusTombstoned})
    ensures res.Success? && x.Some? ==> x.value.rule == db.histories[r].versions[db.histories[r].now.active.value].content
  {
    hide AllAccepted, AcceptedRule, Coupled, DeclaredCoupled, EventClashes, StoredKind, GetRelation, RequestedBy;
    hide RecordedByScanner, EventsRecorded;
    x := None;
    var current :- GetRelation(db.t, r);
    CurrentReads(db.t, db.histories, r);
    KeyUnderNoReview(db.histories[r], db.t, r);
    if current.status == StatusSuppressed || current.status == StatusTombstoned { return Success(()), None; }
    if current.status != StatusApproved || current.active.None? || current.proposed.Some? {
      return Failure(InvalidTransition), None;
    }
    var first :- NextTwo(ids);
    var second :- NextTwo(ids);
    var v := first.0;
    var (tombstoned, superseded) := PublishEvents(p, k, r, v, current.active.value.id, (first.1, second.0), ProposalTombstone);
    var rule := current.active.value.rule;
    x := Some(PublishWrite(v, ProposalTombstone, rule, tombstoned, superseded));
    var ok := WriteRevision(
      db, r, current.active.value.revisionNo + 1, PublishWrite(v, ProposalTombstone, rule, tombstoned, superseded));
    if !ok { return Failure(ConstraintViolated), None; }
    db.t := WithoutEdge(db.t, r);
    TwoEventsRecorded(old(db.t), db.t, tombstoned, superseded, r, RequestedBy(p, k, "remove"));
    ScannerRecords(old(db.t), db.t, r, p, k, "remove");
    VersionsAreKnown(old(db.t), db.histories[r], r);
    return Success(()), x;
  }

  // ----- reconciling -----------------------------------------------------------------------------

  /** Reappearing: relation and presence flag change together, and the transition is always legal. */
  method Reappear(db: Database, ids: Identifiers, p: Publication, k: StableKey, m: MappingRow, source: Int64, target: Int64)
    returns (res: Outcome<()>)
    requires db.Valid() && k in db.t.mappings && db.t.mappings[k] == m && Joinable(source, target)
    modifies db`t, db`histories, ids
    ensures res.Failure? ==> WriteError(res.error)
    ensures res.Success? ==> db.Valid() && ScanFrame(old(db.histories), db.histories) && MappingSet(old(db.t), db.t, k, true)
    ensures res.Success? ==> OnlyEdgeOf(old(db.t), db.t, m.relationID)
    ensures res.Success? ==>
      if m.present then SameRow(old(db.t).edges, db.t.edges, m.relationID) else Joins(db.t, m.relationID, source, target)
  {
    hide AllAccepted, AcceptedRule, Coupled, DeclaredCoupled, ScanFrame, GetRelation, PublishRows, PublishFits;
    MappingKnown(db.t, db.histories, k);
    ghost var x: Option<PublishWrite> := None;
    if !m.present {
      var step;
      step, x := ReactivateDeclaredForeignKey(db, ids, p, m.relationID, k, source, target);
      if step.Failure? { return step; }
    }
    db.t := WithMapping(db.t, k, db.t.mappings[k].(present := true));
    PresenceCommits(old(db.t), db.t, old(db.histories), m.relationID, x, k, true);
    PresenceEdges(old(db.t), db.t, old(db.histories), m.relationID, x, k, true);
    EffectiveIffPresentAndNotSuppressed(old(db.t), old(db.histories), k);
    KeyRuleAccepted(source, target);
    PublishedAccepted(old(db.histories), m.relationID, x);
    db.histories := if x.None? then db.histories else db.histories[m.relationID := Published(db.histories[m.relationID], x.value)];
    return Success(());
  }

  method Disappear(db: Database, ids: Identifiers, p: Publication, k: StableKey, m: MappingRow) returns (res: Outcome<()>)
    requires db.Valid() && k in db.t.mappings && db.t.mappings[k] == m && m.present
    modifies db`t, db`histories, ids
    ensures res.Failure? ==> WriteError(res.error)
    ensures res.Success? ==> db.Valid() && ScanFrame(old(db.histories), db.histories) && MappingSet(old(db.t), db.t, k, false)
    ensures res.Success? ==> OnlyEdgeOf(old(db.t), db.t, m.relationID) && m.relationID !in db.t.edges
  {
    hide AllAccepted, AcceptedRule, Coupled, DeclaredCoupled, ScanFrame, GetRelation, PublishRows, PublishFits;
    MappingKnown(db.t, db.histories, k);
    var step;
    ghost var x;
    step, x := RemoveDeclaredForeignKey(db, ids, p, m.relationID, k);
    if step.Failure? { return step; }
    db.t := WithMapping(db.t, k, db.t.mappings[k].(present := false));
    PresenceCommits(old(db.t), db.t, old(db.histories), m.relationID, x, k, false);
    PresenceEdges(old(db.t), db.t, old(db.histories), m.relationID, x, k, false);
    EffectiveIffPresentAndNotSuppressed(old(db.t), old(db.histories), k);
    CurrentReads(old(db.t), old(db.histories), m.relationID);
    if x.Some? { StoredAccepted(old(db.histories), m.relationID); }
    PublishedAccepted(old(db.histories), m.relationID, x);
    db.histories := if x.None? then db.histories else db.histories[m.relationID := Published(db.histories[m.relationID], x.value)];
    return Success(());
  }

  lemma MappingKnown(t: Tables, histories: map<int, RuleHistory>, k: StableKey)
    requires Coupled(t, histories) && DeclaredCoupled(t, histories) && k in t.mappings
    ensures var r := t.mappings[k].relationID;
      && r in histories && histories[r].kind == DeclaredForeignKey && r in t.current && GetRelation(t, r).Success?
      && PresenceFits(t.mappings[k].present, histories[r].now.status)
  {
    hide Invariant, Holds;
    assert MappingSound(t, histories, k);
    CurrentReads(t, histories, t.mappings[k].relationID);
  }

  lemma PresenceCommits(
    t: Tables, u: Tables, histories: map<int, RuleHistory>, r: int, x: Option<PublishWrite>, k: StableKey, present: bool)
    requires Coupled(t, histories) && DeclaredCoupled(t, histories) && r in t.current && r in histories
    requires k in t.mappings && t.mappings[k].relationID == r
    requires x.Some? ==> PublishFits(t, histories, r, x.value) && x.value.kind == (if present then ProposalContent else ProposalTombstone)
    requires x.None? ==> PresenceFits(present, histories[r].now.status)
    requires u == WithMapping(if x.None? then t else PublishRows(t, r, x.value), k, t.mappings[k].(present := present))
    ensures x.Some? ==> Enabled(histories[r], Publish(x.value.v, x.value.kind, x.value.rule))
    ensures var after := if x.None? then histories else histories[r := Published(histories[r], x.value)];
      Coupled(u, after) && DeclaredCoupled(u, after) && ScanFrame(histories, after)
    ensures MappingSet(t, u, k, present)
  {
    hide AllAccepted, AcceptedRule, Coupled, DeclaredCoupled, Invariant, Log;
    if x.None? {
      MappingsDoNotMatter(t, u.mappings, histories);
      assert histories[r := histories[r]] == histories;
      PresenceRecorded(t, t, histories, r, histories[r], k, present);
    } else {
      PublishCommits(t, u, histories, r, x.value, k);
      PublishFrame(histories, r, x.value);
    }
  }

  lemma PublishedAccepted(histories: map<int, RuleHistory>, r: int, x: Option<PublishWrite>)
    requires AllAccepted(histories)
    requires x.Some? ==>
      r in histories && Enabled(histories[r], Publish(x.value.v, x.value.kind, x.value.rule)) && AcceptedRule(x.value.rule)
    ensures AllAccepted(if x.None? then histories else histories[r := Published(histories[r], x.value)])
  {
    hide AllAccepted, AcceptedRule, Enabled;
    if x.Some? { ActionKeepsRules(histories, r, Publish(x.value.v, x.value.kind, x.value.rule)); }
  }

  lemma StoredAccepted(histories: map<int, RuleHistory>, r: int)
    requires AllAccepted(histories) && r in histories && Invariant(histories[r]) && histories[r].now.active.Some?
    ensures histories[r].now.active.value in histories[r].versions
    ensures AcceptedRule(histories[r].versions[histories[r].now.active.value].content)
  {
    hide Replay, Balanced;
    var h := histories[r];
    assert RulesAccepted(h);
    var v := h.now.active.value;
    assert v in h.versions && AcceptedRule(h.versions[v].content);
  }

  lemma PresenceEdges(
    t: Tables, u: Tables, histories: map<int, RuleHistory>, r: int, x: Option<PublishWrite>, k: StableKey, present: bool)
    requires r in t.current && k in t.mappings
    requires x.Some? ==> PublishFits(t, histories, r, x.value) && x.value.kind == (if present then ProposalContent else ProposalTombstone)
    requires u == WithMapping(if x.None? then t else PublishRows(t, r, x.value), k, t.mappings[k].(present := present))
    ensures OnlyEdgeOf(t, u, r) && (x.None? ==> u.edges == t.edges)
    ensures x.Some? ==> if present then r in u.edges && u.edges[r].rule == x.value.rule else r !in u.edges
  {
    hide PublishFits;
  }

  type Mappings = map<StableKey, MappingRow>

  /** The mappings of the data source whose source column is still a current node. */
  function LoadedMappings(p: Publication, t: Tables): Mappings {
    map k | k in t.mappings && k.dataSource == p.dataSource && t.mappings[k].sourceNode in p.names :: t.mappings[k]
  }

  function KeysUpTo(p: Publication, n: nat): set<StableKey>
    requires n <= |p.keys|
  {
    set i | 0 <= i < n :: KeyOf(p, p.keys[i])
  }

  predicate DistinctKeys(p: Publication) {
    forall i, j :: 0 <= i < j < |p.keys| ==> KeyOf(p, p.keys[i]) != KeyOf(p, p.keys[j])
  }

  /** A present key that the scan covered and did not see. */
  predicate Vanishes(p: Publication, mappings: Mappings, k: StableKey) {
    && k in mappings && mappings[k].present && k.dataSource == p.dataSource && mappings[k].sourceNode in p.names
    && k !in KeysUpTo(p, |p.keys|) && WithinTables(NodeColumn, p.names[mappings[k].sourceNode], p.tables)
  }

  function VanishedKeys(p: Publication, mappings: Mappings): set<StableKey> {
    set k | k in mappings && Vanishes(p, mappings, k)
  }

  /** Keys seen are present, keys gone are absent, all other mappings are as they were. */
  ghost predicate Tracks(before: Mappings, after: Mappings, seen: set<StableKey>, gone: set<StableKey>) {
    && (forall k :: k in after <==> k in before || k in seen)
    && (forall k :: k in before ==> after[k] == before[k].(present := k in seen || (k !in gone && before[k].present)))
    && (forall k :: k in seen ==> k in after && after[k].present)
  }

  lemma TrackSeen(before: Mappings, mid: Mappings, after: Mappings, seen: set<StableKey>, k: StableKey)
    requires Tracks(before, mid, seen, {}) && k !in seen && k in after && after[k].present && after == mid[k := after[k]]
    requires k in mid ==> after[k] == mid[k].(present := true)
    ensures Tracks(before, after, seen + {k}, {})
  {
  }

  lemma TrackGone(before: Mappings, mid: Mappings, after: Mappings, seen: set<StableKey>, gone: set<StableKey>, k: StableKey)
    requires Tracks(before, mid, seen, gone) && k !in seen && k in before && k in mid
    requires after == mid[k := mid[k].(present := false)]
    ensures Tracks(before, after, seen, gone + {k})
  {
  }

  lemma ScanFrameIsReflexive(hs: map<int, RuleHistory>)
    ensures ScanFrame(hs, hs)
  {
  }

  // ----- what a scan may do to the effective edges -----------------------------------------------

  predicate WasPresent(mappings: Mappings, k: StableKey) {
    k in mappings && mappings[k].present
  }

  /** Relation `r` stands for an observed key, whose two columns name the nodes its edge joins. */
  ghost predicate JoinsObserved(p: Publication, t: Tables, k: StableKey, r: int) {
    exists i :: 0 <= i < |p.keys| && KeyOf(p, p.keys[i]) == k && JoinsColumns(p, t, r, i)
  }

  predicate JoinsColumns(p: Publication, t: Tables, r: int, i: nat)
    requires i < |p.keys|
  {
    Joins(t, r, NodeID(p, p.keys[i].sourceColumn), NodeID(p, p.keys[i].targetColumn))
  }

  /** The edge of a key the scan lost is gone, that of a key it found or regained is the observed one, and every
      other edge of a declared key is as it was. */
  ghost predicate EdgeFollows(p: Publication, before: Tables, now: Tables, seen: set<StableKey>, gone: set<StableKey>, k: StableKey) {
    k in now.mappings
    && var r := now.mappings[k].relationID;
       if k in gone then r !in now.edges
       else if k in seen && !WasPresent(before.mappings, k) then JoinsObserved(p, now, k, r)
       else SameRow(before.edges, now.edges, r)
  }

  ghost predicate EdgesFollow(p: Publication, before: Tables, now: Tables, seen: set<StableKey>, gone: set<StableKey>) {
    forall k :: k in now.mappings ==> EdgeFollows(p, before, now, seen, gone, k)
  }

  /** Different keys stand for different relations. */
  lemma KeysApart(t: Tables, histories: map<int, RuleHistory>, j: StableKey, k: StableKey)
    requires DeclaredCoupled(t, histories) && j in t.mappings && k in t.mappings && j != k
    ensures t.mappings[j].relationID != t.mappings[k].relationID
  {
    assert MappingSound(t, histories, j) && MappingSound(t, histories, k);
  }

  /** A step on the relation of one key leaves the edges of all other keys alone. */
  lemma FollowStep(
    p: Publication, before: Tables, mid: Tables, now: Tables, histories: map<int, RuleHistory>,
    seen: set<StableKey>, gone: set<StableKey>, moreSeen: set<StableKey>, moreGone: set<StableKey>, k: StableKey)
    requires EdgesFollow(p, before, mid, seen, gone) && DeclaredCoupled(now, histories) && k in now.mappings
    requires now.mappings == mid.mappings[k := now.mappings[k]]
    requires OnlyEdgeOf(mid, now, now.mappings[k].relationID)
    requires (moreSeen == seen || moreSeen == seen + {k}) && (moreGone == gone || moreGone == gone + {k})
    requires EdgeFollows(p, before, now, moreSeen, moreGone, k)
    ensures EdgesFollow(p, before, now, moreSeen, moreGone)
  {
    forall j | j in now.mappings ensures EdgeFollows(p, before, now, moreSeen, moreGone, j) {
      if j != k {
        assert EdgeFollows(p, before, mid, seen, gone, j);
        KeysApart(now, histories, j, k);
        OtherFollows(p, before, mid, now, seen, gone, moreSeen, moreGone, j);
      }
    }
  }

  lemma OtherFollows(
    p: Publication, before: Tables, mid: Tables, now: Tables,
    seen: set<StableKey>, gone: set<StableKey>, moreSeen: set<StableKey>, moreGone: set<StableKey>, j: StableKey)
    requires EdgeFollows(p, before, mid, seen, gone, j) && j in now.mappings && now.mappings[j] == mid.mappings[j]
    requires SameRow(mid.edges, now.edges, now.mappings[j].relationID)
    requires (j in moreSeen <==> j in seen) && (j in moreGone <==> j in gone)
    ensures EdgeFollows(p, before, now, moreSeen, moreGone, j)
  {
    var r := now.mappings[j].relationID;
    if JoinsObserved(p, mid, j, r) {
      var i :| 0 <= i < |p.keys| && KeyOf(p, p.keys[i]) == j && JoinsColumns(p, mid, r, i);
      assert JoinsColumns(p, now, r, i);
    }
  }

  /** The key of row `i` has been observed. */
  lemma ObservedFollows(
    p: Publication, before: Tables, mid: Tables, now: Tables, histories: map<int, RuleHistory>, i: nat)
    requires i < |p.keys| && EdgesFollow(p, before, mid, KeysUpTo(p, i), {}) && DeclaredCoupled(now, histories)
    requires var k := KeyOf(p, p.keys[i]);
      && k in now.mappings && now.mappings == mid.mappings[k := now.mappings[k]] && k !in KeysUpTo(p, i)
      && OnlyEdgeOf(mid, now, now.mappings[k].relationID)
      && (k in mid.mappings <==> k in before.mappings)
      && (k in mid.mappings ==> mid.mappings[k] == before.mappings[k] && now.mappings[k].relationID == mid.mappings[k].relationID)
      && if WasPresent(before.mappings, k) then SameRow(mid.edges, now.edges, now.mappings[k].relationID)
         else JoinsColumns(p, now, now.mappings[k].relationID, i)
    ensures EdgesFollow(p, before, now, KeysUpTo(p, i) + {KeyOf(p, p.keys[i])}, {})
  {
    var k := KeyOf(p, p.keys[i]);
    hide KeyOf, Joins;
    if WasPresent(before.mappings, k) {
      assert EdgeFollows(p, before, mid, KeysUpTo(p, i), {}, k);
    } else {
      assert JoinsObserved(p, now, k, now.mappings[k].relationID);
    }
    assert EdgeFollows(p, before, now, KeysUpTo(p, i) + {k}, {}, k);
    FollowStep(p, before, mid, now, histories, KeysUpTo(p, i), {}, KeysUpTo(p, i) + {k}, {}, k);
  }

  lemma NothingFollows(p: Publication, t: Tables)
    ensures EdgesFollow(p, t, t, {}, {})
  {
  }

  /** The row that records, once and for all, that a scan observed a key. */
  datatype Fact = Fact(key: StableKey, relationID: int, source: int, target: int)

  predicate IsFactOf(p: Publication, mappings: Mappings, f: Fact, key: ForeignKey) {
    && f.key == KeyOf(p, key) && f.key in mappings && f.relationID == mappings[f.key].relationID
    && f.source == NodeID(p, key.sourceColumn) && f.target == NodeID(p, key.targetColumn)
  }

  /** One fact for each of the first keys, in order, naming the relation the key is mapped to. */
  predicate Recorded(p: Publication, mappings: Mappings, facts: seq<Fact>) {
    |facts| <= |p.keys| && forall i :: 0 <= i < |facts| ==> IsFactOf(p, mappings, facts[i], p.keys[i])
  }

  /** No key is mapped to another relation than before. */
  predicate SameRelations(before: Mappings, after: Mappings) {
    forall k :: k in before ==> k in after && after[k].relationID == before[k].relationID
  }

  lemma RecordedStays(p: Publication, before: Mappings, after: Mappings, facts: seq<Fact>)
    requires Recorded(p, before, facts) && SameRelations(before, after)
    ensures Recorded(p, after, facts)
  {
    hide KeyOf, NodeID;
    forall i | 0 <= i < |facts| ensures IsFactOf(p, after, facts[i], p.keys[i]) {
      assert IsFactOf(p, before, facts[i], p.keys[i]);
    }
  }

  method ObserveKeys(db: Database, ids: Identifiers, p: Publication, mappings: Mappings)
    returns (res: Outcome<set<StableKey>>, facts: seq<Fact>)
    requires db.Valid() && DistinctKeys(p) && Resolvable(p) && mappings == LoadedMappings(p, db.t)
    modifies db`t, db`histories, ids
    ensures res.Failure? ==> ScanError(res.error)
    ensures res == Failure(InvalidCommand) ==> Unresolvable(p, db.columns)
    ensures res.Success? ==> db.Valid() && ScanFrame(old(db.histories), db.histories) && res.value == KeysUpTo(p, |p.keys|)
    ensures res.Success? ==> Tracks(old(db.t).mappings, db.t.mappings, res.value, {})
    ensures res.Success? ==> EdgesFollow(p, old(db.t), db.t, res.value, {})
    ensures res.Success? ==> |facts| == |p.keys| && Recorded(p, db.t.mappings, facts)
  {
    hide AllAccepted, AcceptedRule, Coupled, DeclaredCoupled, ScanFrame, KeyOf, EdgesFollow, OnlyEdgeOf, Joins, NodeID, Recorded, SameRelations;
    facts := [];
    assert Recorded(p, db.t.mappings, facts) by { NothingRecorded(p, db.t.mappings); }
    ghost var before := db.t.mappings;
    var seen: set<StableKey> := {};
    ScanFrameIsReflexive(db.histories);
    NothingFollows(p, db.t);
    for i := 0 to |p.keys|
      invariant db.Valid() && ScanFrame(old(db.histories), db.histories)
      invariant seen == KeysUpTo(p, i) && Tracks(before, db.t.mappings, seen, {})
      invariant EdgesFollow(p, old(db.t), db.t, seen, {})
      invariant |facts| == i && Recorded(p, db.t.mappings, facts)
    {
      var key := p.keys[i];
      var k := KeyOf(p, key);
      var source, target := NodeID(p, key.sourceColumn), NodeID(p, key.targetColumn);
      ghost var rows, mid, hs := db.t, db.t.mappings, db.histories;
      assert k !in seen;
      if k !in mappings {
        var _ :- InsertDeclaredForeignKey(db, ids, p, k, source, target);
      } else {
        var _ :- Reappear(db, ids, p, k, mappings[k], source, target);
      }
      ScanFramesCompose(old(db.histories), hs, db.histories);
      TrackSeen(before, mid, db.t.mappings, seen, k);
      ObservedFollows(p, old(db.t), rows, db.t, db.histories, i);
      KeyIsRecorded(p, mid, db.t.mappings, facts, k, source, target);
      facts := facts + [Fact(k, db.t.mappings[k].relationID, source, target)];
      seen := seen + {k};
    }
    return Success(seen), facts;
  }

  lemma NothingRecorded(p: Publication, mappings: Mappings)
    ensures Recorded(p, mappings, [])
  {
  }

  lemma KeyIsRecorded(
    p: Publication, before: Mappings, after: Mappings, facts: seq<Fact>, k: StableKey, source: int, target: int)
    requires Recorded(p, before, facts) && |facts| < |p.keys| && k in after && after == before[k := after[k]]
    requires k in before ==> after[k].relationID == before[k].relationID
    requires var key := p.keys[|facts|];
      k == KeyOf(p, key) && source == NodeID(p, key.sourceColumn) && target == NodeID(p, key.targetColumn)
    ensures Recorded(p, after, facts + [Fact(k, after[k].relationID, source, target)])
  {
    RecordedStays(p, before, after, facts);
  }

  function Lost(p: Publication, mappings: Mappings, k: StableKey): set<StableKey> {
    if k in VanishedKeys(p, mappings) then {k} else {}
  }

  /** Removes a key that the scan covered and did not see. */
  method Settle(
    db: Database, ids: Identifiers, p: Publication, mappings: Mappings, seen: set<StableKey>, k: StableKey,
    ghost before: Tables, ghost gone: set<StableKey>)
    returns (res: Outcome<()>)
    requires db.Valid() && mappings == LoadedMappings(p, before) && seen == KeysUpTo(p, |p.keys|)
    requires k in mappings && k !in gone
    requires Tracks(before.mappings, db.t.mappings, seen, gone) && EdgesFollow(p, before, db.t, seen, gone)
    modifies db`t, db`histories, ids
    ensures res.Failure? ==> WriteError(res.error)
    ensures res.Success? ==> db.Valid() && ScanFrame(old(db.histories), db.histories)
    ensures res.Success? ==>
      var now := gone + Lost(p, before.mappings, k);
      Tracks(before.mappings, db.t.mappings, seen, now) && EdgesFollow(p, before, db.t, seen, now)
    ensures res.Success? ==> SameRelations(old(db.t).mappings, db.t.mappings)
  {
    hide AllAccepted, AcceptedRule, Coupled, DeclaredCoupled, ScanFrame, WithinTables, EdgesFollow, OnlyEdgeOf, JoinsObserved, KeysUpTo, SameRow;
    ghost var rows := db.t;
    ScanFrameIsReflexive(db.histories);
    assert Lost(p, before.mappings, k) == {} ==> gone + Lost(p, before.mappings, k) == gone;
    if !mappings[k].present || k in seen { return Success(()); }
    var within := NodeWithinTableScope(NodeColumn, p.names[mappings[k].sourceNode], p.tables);
    if !within { return Success(()); }
    assert Lost(p, before.mappings, k) == {k};
    assert db.t.mappings[k] == mappings[k];
    var _ :- Disappear(db, ids, p, k, mappings[k]);
    TrackGone(before.mappings, rows.mappings, db.t.mappings, seen, gone, k);
    hide Tracks;
    FollowStep(p, before, rows, db.t, db.histories, seen, gone, seen, gone + {k}, k);
    return Success(());
  }

  /** Reconciles the keys of a publication; `facts` are the rows it records about the scan. */
  method ReconcileDeclaredForeignKeys(db: Database, ids: Identifiers, p: Publication)
    returns (res: Outcome<()>, facts: seq<Fact>)
    requires db.Valid() && DistinctKeys(p) && Resolvable(p)
    modifies db`t, db`histories, ids
    ensures res.Failure? ==> ScanError(res.error)
    ensures res == Failure(InvalidCommand) ==> Unresolvable(p, db.columns)
    ensures res.Success? ==> db.Valid() && ScanFrame(old(db.histories), db.histories)
    ensures res.Success? ==>
      Tracks(old(db.t).mappings, db.t.mappings, KeysUpTo(p, |p.keys|), VanishedKeys(p, old(db.t).mappings))
    ensures res.Success? ==>
      EdgesFollow(p, old(db.t), db.t, KeysUpTo(p, |p.keys|), VanishedKeys(p, old(db.t).mappings))
    ensures res.Success? ==> |facts| == |p.keys| && Recorded(p, db.t.mappings, facts)
  {
    hide AllAccepted, AcceptedRule, Coupled, DeclaredCoupled, ScanFrame, EdgesFollow, Tracks, KeysUpTo, VanishedKeys, Vanishes, LoadedMappings, Lost, DistinctKeys;
    hide Database.Valid, Unresolvable, Recorded, SameRelations;
    facts := [];
    ghost var before := db.t;
    var mappings := LoadedMappings(p, db.t);
    var seen;
    seen, facts :- ObserveKeys(db, ids, p, mappings);
    var rest := mappings.Keys;
    ghost var vanished := VanishedKeys(p, before.mappings);
    NoneSettled(p, before);
    while rest != {}
      invariant rest <= mappings.Keys && db.Valid() && ScanFrame(old(db.histories), db.histories)
      invariant Tracks(before.mappings, db.t.mappings, seen, vanished - rest)
      invariant EdgesFollow(p, before, db.t, seen, vanished - rest)
      invariant |facts| == |p.keys| && Recorded(p, db.t.mappings, facts)
      decreases |rest|
    {
      var k :| k in rest;
      ghost var hs, mid := db.histories, db.t.mappings;
      var _ :- Settle(db, ids, p, mappings, seen, k, before, vanished - rest);
      ScanFramesCompose(old(db.histories), hs, db.histories);
      OneSettled(p, before.mappings, rest, k);
      RecordedStays(p, mid, db.t.mappings, facts);
      rest := rest - {k};
    }
    assert vanished - rest == vanished;
    return Success(()), facts;
  }

  lemma NoneSettled(p: Publication, t: Tables)
    ensures VanishedKeys(p, t.mappings) - LoadedMappings(p, t).Keys == {}
  {
  }

  lemma OneSettled(p: Publication, mappings: Mappings, rest: set<StableKey>, k: StableKey)
    requires k in rest
    ensures VanishedKeys(p, mappings) - rest + Lost(p, mappings, k) == VanishedKeys(p, mappings) - (rest - {k})
  {
    hide Vanishes;
  }

  /** In every state the transactions can reach, a declared key is in effect exactly when the last scan covering it
      saw it and nobody has suppressed it, and it is never awaiting review. */
  lemma EffectiveIffPresentAndNotSuppressed(t: Tables, histories: map<int, RuleHistory>, k: StableKey)
    requires Coupled(t, histories) && DeclaredCoupled(t, histories) && k in t.mappings
    ensures var r := t.mappings[k].relationID;
      && r in t.current && (r in t.edges <==> t.mappings[k].present && t.current[r].status != StatusSuppressed)
      && t.current[r].proposed.None?
  {
    var r := t.mappings[k].relationID;
    MappingKnown(t, histories, k);
    CurrentReads(t, histories, r);
    hide AllAccepted, AcceptedRule, Coupled, DeclaredCoupled, GetRelation, HoldsVersions, Log, Replay, Balanced, Numbered, ProposalFits;
  }
}
