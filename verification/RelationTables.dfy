/** The relation tables of the database, what of a relation's history they hold, and reading it back. */
module RelationTables {
  import opened Wrappers
  import opened RelationHistory
  import References

  /** What a revision says: its endpoints, its guard, selector and transform, and its confidence in basis points. */
  datatype Rule = Rule(source: int, target: int, content: References.Content, confidence: nat)

  type RuleHistory = History<Rule>

  /** The identity of a declared foreign key column pair within its data source. */
  datatype StableKey = StableKey(
    dataSource: int, schema: string, name: string, ordinal: int, sourceColumn: string, targetColumn: string)

  /** What a relation is deduplicated by. The program hashes it; distinct values have distinct hashes here. */
  datatype Fingerprint =
    | OfContent(kind: RelationType, proposal: Kind, source: int, target: int, content: References.Content)
    | OfKey(key: StableKey)

  datatype RelationRow = RelationRow(kind: RelationType, fingerprint: Fingerprint)

  /** A row of declared_foreign_key_relations: the relation of a key, its source column, and whether the last
      scan that covered it still saw it. */
  datatype MappingRow = MappingRow(relationID: int, sourceNode: int, present: bool)

  /** A stale revision is stored as a tombstone beside a row in relation_stale_versions. */
  datatype VersionRow = VersionRow(relationID: int, revisionNo: nat, storedKind: Kind, rule: Rule)

  datatype CurrentRow = CurrentRow(latest: nat, active: Option<int>, proposed: Option<int>, status: Status)

  datatype EventRow = EventRow(
    id: int, relationID: int, versionID: int, event: EventType, actor: string, origin: int, requestID: string)

  datatype EdgeRow = EdgeRow(versionID: int, kind: RelationType, rule: Rule)

  datatype Tables = Tables(
    relations: map<int, RelationRow>,
    versions: map<int, VersionRow>,
    stale: set<int>,
    current: map<int, CurrentRow>,
    events: seq<EventRow>,
    edges: map<int, EdgeRow>,
    mappings: map<StableKey, MappingRow>)

  function StoredKind(kind: Kind): Kind {
    if kind == ProposalStale then ProposalTombstone else kind
  }

  /** The events of one relation, in the order their transactions committed. */
  function Log(events: seq<EventRow>, relationID: int): seq<Entry> {
    if events == [] then []
    else
      var last := events[|events| - 1];
      var front := Log(events[..|events| - 1], relationID);
      if last.relationID == relationID then front + [Entry(last.event, last.versionID)] else front
  }

  // ----- what the tables hold --------------------------------------------------------------------

  function RowOf(h: RuleHistory): CurrentRow {
    CurrentRow(|h.now.order|, h.now.active, h.now.proposed, h.now.status)
  }

  predicate HoldsVersion(t: Tables, r: int, v: int, version: Version<Rule>) {
    && v in t.versions && t.versions[v] == VersionRow(r, version.revisionNo, StoredKind(version.kind), version.content)
    && (v in t.stale <==> version.kind == ProposalStale)
  }

  predicate HoldsVersions(t: Tables, r: int, h: RuleHistory) {
    && (forall v :: v in h.versions ==> HoldsVersion(t, r, v, h.versions[v]))
    && (forall v :: v in t.versions && t.versions[v].relationID == r ==> v in h.versions)
  }

  predicate HoldsEdge(t: Tables, r: int, h: RuleHistory) {
    if h.edge.None? then r !in t.edges
    else
      h.edge.value in h.versions && r in t.edges
      && t.edges[r] == EdgeRow(h.edge.value, h.kind, h.versions[h.edge.value].content)
  }

  /** The tables hold exactly this history of relation `r`. */
  predicate Holds(t: Tables, r: int, h: RuleHistory) {
    && r in t.relations && t.relations[r].kind == h.kind
    && r in t.current && t.current[r] == RowOf(h)
    && HoldsVersions(t, r, h) && HoldsEdge(t, r, h)
    && Log(t.events, r) == h.log
  }

  ghost predicate Sound(t: Tables, r: int, h: RuleHistory) {
    Holds(t, r, h) && Invariant(h)
  }

  predicate Housekeeping(t: Tables, known: set<int>) {
    && t.relations.Keys == known && t.current.Keys == known && t.edges.Keys <= known
    && (forall v :: v in t.versions ==> t.versions[v].relationID in known)
    && (forall v :: v in t.stale ==> v in t.versions)
    && (forall i :: 0 <= i < |t.events| ==> t.events[i].relationID in known)
    && (forall r, q :: r in t.relations && q in t.relations && t.relations[r].fingerprint == t.relations[q].fingerprint ==> r == q)
  }

  /** The tables hold the given histories and nothing else, and every history satisfies its invariant. */
  ghost predicate Coupled(t: Tables, histories: map<int, RuleHistory>) {
    && Housekeeping(t, histories.Keys)
    && (forall r :: r in histories ==> Sound(t, r, histories[r]))
  }

  /** A key that is present has a live relation, approved or suppressed; an absent one is tombstoned or suppressed. */
  predicate PresenceFits(present: bool, status: Status) {
    status == StatusSuppressed || status == (if present then StatusApproved else StatusTombstoned)
  }

  /** Declared foreign keys and their relations correspond one to one. */
  predicate DeclaredCoupled(t: Tables, histories: map<int, RuleHistory>) {
    && (forall k :: k in t.mappings ==> MappingSound(t, histories, k))
    && (forall r :: r in histories && histories[r].kind == DeclaredForeignKey ==>
          r in t.relations && t.relations[r].fingerprint.OfKey? && t.relations[r].fingerprint.key in t.mappings
          && t.mappings[t.relations[r].fingerprint.key].relationID == r)
  }

  predicate MappingSound(t: Tables, histories: map<int, RuleHistory>, k: StableKey) {
    k in t.mappings
    && var m := t.mappings[k];
       && m.relationID in histories && histories[m.relationID].kind == DeclaredForeignKey
       && m.relationID in t.relations && t.relations[m.relationID].fingerprint == OfKey(k)
       && PresenceFits(m.present, histories[m.relationID].now.status)
  }

  // ----- a transaction on one relation -----------------------------------------------------------

  predicate SameRow<K, T(==)>(a: map<K, T>, b: map<K, T>, k: K) {
    if k in a then k in b && a[k] == b[k] else k !in b
  }

  predicate NewVersionsOf(t: Tables, u: Tables, r: int) {
    && (forall v :: v in t.versions ==> v in u.versions && u.versions[v] == t.versions[v] && (v in t.stale <==> v in u.stale))
    && (forall v :: v in u.versions && v !in t.versions ==> u.versions[v].relationID == r)
    && (forall v :: v in u.stale ==> v in u.versions)
  }

  predicate NewEventsOf(t: Tables, u: Tables, r: int) {
    && t.events <= u.events
    && (forall i :: |t.events| <= i < |u.events| ==> u.events[i].relationID == r)
  }

  /** From `t` to `u`, rows were added or changed for relation `r` only. */
  ghost predicate OnlyTouches(t: Tables, u: Tables, r: int) {
    && (forall q :: q != r ==> SameRow(t.relations, u.relations, q) && SameRow(t.current, u.current, q) && SameRow(t.edges, u.edges, q))
    && NewVersionsOf(t, u, r) && NewEventsOf(t, u, r)
    && r in u.relations && r in u.current && (r in t.relations ==> u.relations[r] == t.relations[r])
    && (r !in t.relations ==> forall q :: q in t.relations ==> t.relations[q].fingerprint != u.relations[r].fingerprint)
  }

  lemma {:induction false} LogOfOthers(events: seq<EventRow>, more: seq<EventRow>, r: int)
    requires events <= more && forall i :: |events| <= i < |more| ==> more[i].relationID != r
    ensures Log(more, r) == Log(events, r)
    decreases |more|
  {
    if |events| < |more| {
      LogOfOthers(events, more[..|more| - 1], r);
    } else {
      assert events == more;
    }
  }

  lemma {:induction false} LogOfUnknown(events: seq<EventRow>, r: int)
    requires forall i :: 0 <= i < |events| ==> events[i].relationID != r
    ensures Log(events, r) == []
  {
    assert [] <= events;
    LogOfOthers([], events, r);
  }

  lemma LogAppends(events: seq<EventRow>, e: EventRow)
    ensures Log(events + [e], e.relationID) == Log(events, e.relationID) + [Entry(e.event, e.versionID)]
  {
    assert (events + [e])[..|events|] == events;
  }

  lemma OthersHold(t: Tables, u: Tables, r: int, q: int, h: RuleHistory)
    requires OnlyTouches(t, u, r) && q != r && Holds(t, q, h)
    ensures Holds(u, q, h)
  {
    LogOfOthers(t.events, u.events, q);
    hide Log, NewEventsOf;
    assert SameRow(t.relations, u.relations, q) && SameRow(t.current, u.current, q) && SameRow(t.edges, u.edges, q);
    forall v | v in h.versions ensures HoldsVersion(u, q, v, h.versions[v]) {
      assert HoldsVersion(t, q, v, h.versions[v]);
    }
  }

  lemma HousekeepingKept(t: Tables, u: Tables, r: int, known: set<int>)
    requires OnlyTouches(t, u, r) && Housekeeping(t, known)
    ensures Housekeeping(u, known + {r})
  {
    forall q
      ensures q in u.relations <==> q in known + {r}
      ensures q in u.current <==> q in known + {r}
      ensures q in u.edges ==> q in known + {r}
    {
      if q != r { assert SameRow(t.relations, u.relations, q) && SameRow(t.current, u.current, q) && SameRow(t.edges, u.edges, q); }
    }
    forall v | v in u.versions ensures u.versions[v].relationID in known + {r} {
      if v in t.versions { assert u.versions[v] == t.versions[v]; }
    }
    FingerprintsKept(t, u, r, known);
  }

  lemma FingerprintsKept(t: Tables, u: Tables, r: int, known: set<int>)
    requires OnlyTouches(t, u, r) && Housekeeping(t, known)
    ensures forall p, q :: p in u.relations && q in u.relations && u.relations[p].fingerprint == u.relations[q].fingerprint ==> p == q
  {
    forall q | q in u.relations && q != r
      ensures q in t.relations && u.relations[q] == t.relations[q]
    {
      assert SameRow(t.relations, u.relations, q) && SameRow(t.current, u.current, q) && SameRow(t.edges, u.edges, q);
    }
    hide NewVersionsOf, NewEventsOf;
  }

  /** A transaction that touches one relation and leaves it with a sound history leaves the database sound. */
  lemma TransactionCouples(t: Tables, u: Tables, histories: map<int, RuleHistory>, r: int, h: RuleHistory)
    requires Coupled(t, histories) && OnlyTouches(t, u, r) && Holds(u, r, h) && Invariant(h)
    ensures Coupled(u, histories[r := h])
  {
    hide Housekeeping, OnlyTouches, Holds, Invariant;
    HousekeepingKept(t, u, r, histories.Keys);
    var after := histories[r := h];
    assert after.Keys == histories.Keys + {r};
    assert Sound(u, r, h);
    forall q | q in after ensures Sound(u, q, after[q]) {
      if q != r { OthersSound(t, u, histories, r, q); }
    }
  }

  lemma OthersSound(t: Tables, u: Tables, histories: map<int, RuleHistory>, r: int, q: int)
    requires Coupled(t, histories) && OnlyTouches(t, u, r) && q != r && q in histories
    ensures Sound(u, q, histories[q])
  {
    assert Sound(t, q, histories[q]);
    hide OnlyTouches, Invariant, Holds;
    OthersHold(t, u, r, q, histories[q]);
  }

  /** A change to one relation that keeps its presence flag truthful keeps the correspondence. */
  lemma DeclaredKept(t: Tables, u: Tables, histories: map<int, RuleHistory>, r: int, h: RuleHistory)
    requires DeclaredCoupled(t, histories) && OnlyTouches(t, u, r) && u.mappings == t.mappings
    requires r in histories && r in t.relations && h.kind == histories[r].kind
    requires h.kind == DeclaredForeignKey ==> forall k :: k in t.mappings && t.mappings[k].relationID == r ==> PresenceFits(t.mappings[k].present, h.now.status)
    ensures DeclaredCoupled(u, histories[r := h])
  {
    hide NewVersionsOf, NewEventsOf;
    forall q | q in t.relations ensures q in u.relations && u.relations[q] == t.relations[q] {
      if q != r { assert SameRow(t.relations, u.relations, q) && SameRow(t.current, u.current, q) && SameRow(t.edges, u.edges, q); }
    }
    forall k | k in u.mappings ensures MappingSound(u, histories[r := h], k) {
      assert MappingSound(t, histories, k);
    }
  }

  // ----- the trigger on relation_current ---------------------------------------------------------

  /** What the schema's trigger on relation_current accepts. */
  predicate PairAccepted(t: Tables, r: int, row: CurrentRow) {
    && (row.status == StatusPending <==> row.active.None?)
    && (exists v :: v in t.versions && t.versions[v].relationID == r && t.versions[v].revisionNo == row.latest)
    && (row.active.Some? ==> row.active.value in t.versions && t.versions[row.active.value].relationID == r)
    && (row.proposed.Some? ==>
          && row.proposed.value in t.versions && t.versions[row.proposed.value].relationID == r
          && t.versions[row.proposed.value].revisionNo == row.latest && row.proposed != row.active)
    && (row.active.Some? ==>
          var v := row.active.value;
          match row.status
          case StatusPending => true
          case StatusApproved => t.versions[v].storedKind == ProposalContent && v !in t.stale
          case StatusSuppressed => t.versions[v].storedKind == ProposalContent && v !in t.stale
          case StatusTombstoned => t.versions[v].storedKind == ProposalTombstone && v !in t.stale
          case StatusStale => t.versions[v].storedKind == ProposalTombstone && v in t.stale)
  }

  /** The trigger never fires: the invariant already implies what it checks. */
  lemma TriggerIsImplied(t: Tables, r: int, h: RuleHistory)
    requires HoldsVersions(t, r, h) && Numbered(h) && StatusFits(h) && ProposalFits(h) && h.now.order != []
    ensures PairAccepted(t, r, RowOf(h))
  {
    var last := h.now.order[|h.now.order| - 1];
    assert HoldsVersion(t, r, last, h.versions[last]);
    if h.now.active.Some? { assert HoldsVersion(t, r, h.now.active.value, h.versions[h.now.active.value]); }
  }

  // ----- reading a relation back -----------------------------------------------------------------

  datatype Revision = Revision(id: int, relationID: int, revisionNo: nat, kind: Kind, rule: Rule)

  datatype Relation = Relation(
    id: int, kind: RelationType, latest: nat, status: Status,
    active: Option<Revision>, proposed: Option<Revision>, effective: bool)

  datatype RelationError =
    | InvalidCommand | Forbidden | RelationNotFound | RevisionConflict(current: nat) | PendingProposal
    | InvalidTransition | DuplicateRelation | ConstraintViolated | IdentifiersExhausted

  type Outcome<+T> = Result<T, RelationError>

  function LoadRevision(t: Tables, v: int): Outcome<Revision> {
    if v !in t.versions then Failure(ConstraintViolated)
    else
      var row := t.versions[v];
      Success(Revision(v, row.relationID, row.revisionNo, if v in t.stale then ProposalStale else row.storedKind, row.rule))
  }

  function LoadOptional(t: Tables, v: Option<int>): Outcome<Option<Revision>> {
    if v.None? then Success(None)
    else
      var revision :- LoadRevision(t, v.value);
      Success(Some(revision))
  }

  function GetRelation(t: Tables, r: int): Outcome<Relation> {
    if r !in t.relations || r !in t.current then Failure(RelationNotFound)
    else
      var row := t.current[r];
      var active :- LoadOptional(t, row.active);
      var proposed :- LoadOptional(t, row.proposed);
      Success(Relation(r, t.relations[r].kind, row.latest, row.status, active, proposed, r in t.edges))
  }

  function RevisionOf(h: RuleHistory, r: int, v: int): Revision
    requires v in h.versions
  {
    Revision(v, r, h.versions[v].revisionNo, h.versions[v].kind, h.versions[v].content)
  }

  function OptionalRevision(h: RuleHistory, r: int, v: Option<int>): Option<Revision>
    requires v.Some? ==> v.value in h.versions
  {
    if v.None? then None else Some(RevisionOf(h, r, v.value))
  }

  /** The relation a reader should see. */
  function RelationOf(h: RuleHistory, r: int): Relation
    requires Numbered(h) && StatusFits(h) && ProposalFits(h)
  {
    Relation(r, h.kind, |h.now.order|, h.now.status, OptionalRevision(h, r, h.now.active),
             OptionalRevision(h, r, h.now.proposed), h.edge.Some?)
  }

  /** Reading the tables recovers the relation, the stale kind included, and it is effective exactly while approved. */
  lemma ReadsBack(t: Tables, r: int, h: RuleHistory)
    requires Holds(t, r, h) && Invariant(h)
    ensures GetRelation(t, r) == Success(RelationOf(h, r))
    ensures RelationOf(h, r).effective <==> h.now.status == StatusApproved
  {
    hide Log, Replay, Balanced;
    if h.now.active.Some? { assert HoldsVersion(t, r, h.now.active.value, h.versions[h.now.active.value]); }
    if h.now.proposed.Some? { assert HoldsVersion(t, r, h.now.proposed.value, h.versions[h.now.proposed.value]); }
  }
}
