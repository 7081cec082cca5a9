/** Preparing a proposal outside the transaction that will commit it, and why what was read is still true then. */
module RelationCommands {
  import opened Wrappers
  import opened RelationHistory
  import opened RelationTables
  import opened RelationWrites
  import opened RelationRepository
  import opened Rules
  import References
  import Conditions
  import EdgeEvaluation
  import Graph
  import SearchSpace

  datatype Role = Viewer | Agent | Editor | Reviewer | Admin

  predicate CanCreateOrTombstone(role: Role) {
    role in {Agent, Editor, Admin}
  }

  predicate CanRevise(role: Role) {
    CanCreateOrTombstone(role) || role == Reviewer
  }

  /** The identifiers a command allocates before its transaction. */
  datatype Allocated = Allocated(relationID: int, versionID: int, eventID: int)

  // ----- content ---------------------------------------------------------------------------------

  function ReferencedNodes(rule: Rule): seq<int> {
    var recorded := References.RecordedReferences(rule.content);
    seq(|recorded|, i requires 0 <= i < |recorded| => recorded[i].nodeID)
  }

  function PrintOf(kind: RelationType, proposal: Kind, rule: Rule): Fingerprint {
    OfContent(kind, proposal, rule.source, rule.target, rule.content)
  }

  // ----- preparing -------------------------------------------------------------------------------

  function PrepareCreate(role: Role, kind: RelationType, rule: Rule, ids: Allocated, who: Provenance): Outcome<ProposalRecord> {
    if !CanCreateOrTombstone(role) then Failure(Forbidden)
    else if kind != ConditionalValueCopy || !AcceptedRule(rule) then Failure(InvalidCommand)
    else
      Success(ProposalRecord(ids.relationID, ids.versionID, ids.eventID, kind, PrintOf(kind, ProposalContent, rule), 1,
                             ProposalContent, rule, ReferencedNodes(rule), None, who))
  }

  function RequireRevision(current: Relation, expected: int): Outcome<()> {
    if expected <= 0 || expected != current.latest then Failure(RevisionConflict(current.latest)) else Success(())
  }

  function Revised(current: Relation, kind: Kind, rule: Rule, expected: int, ids: Allocated, who: Provenance): ProposalRecord {
    ProposalRecord(current.id, ids.versionID, ids.eventID, current.kind, PrintOf(current.kind, kind, rule), current.latest + 1,
                   kind, rule, ReferencedNodes(rule), Some(expected), who)
  }

  function PrepareRevision(
    role: Role, current: Relation, expected: int, rule: Rule, ids: Allocated, who: Provenance): Outcome<ProposalRecord>
  {
    if !CanRevise(role) then Failure(Forbidden)
    else
      var _ :- RequireRevision(current, expected);
      if current.kind == DeclaredForeignKey then Failure(Forbidden)
      else if current.proposed.Some? then Failure(PendingProposal)
      else if !AcceptedRule(rule) then Failure(InvalidCommand)
      else Success(Revised(current, ProposalContent, rule, expected, ids, who))
  }

  /** A tombstone or stale proposal repeats the rule of the active version. */
  function PrepareInvalidation(
    role: Role, current: Relation, expected: int, kind: Kind, ids: Allocated, who: Provenance): Outcome<ProposalRecord>
  {
    if !CanCreateOrTombstone(role) then Failure(Forbidden)
    else
      var _ :- RequireRevision(current, expected);
      if current.kind == DeclaredForeignKey then Failure(Forbidden)
      else if current.proposed.Some? then Failure(PendingProposal)
      else if current.active.None? || current.status == StatusTombstoned || current.status == StatusStale then
        Failure(InvalidTransition)
      else Success(Revised(current, kind, current.active.value.rule, expected, ids, who))
  }

  /** A prepared creation whose content an invalidated or rejected relation already stands for is turned into
      a revision of that relation. */
  function PrepareReproposal(current: Relation, prepared: ProposalRecord): Option<ProposalRecord> {
    var tombstoned := current.status == StatusTombstoned && current.active.Some? && current.active.value.kind == ProposalTombstone;
    var stale := current.status == StatusStale && current.active.Some? && current.active.value.kind == ProposalStale;
    var rejectedCreate := current.status == StatusPending && current.active.None?;
    if current.id <= 0 || current.latest == 0 || current.proposed.Some? || current.kind != prepared.kind
       || prepared.proposal != ProposalContent then None
    else if !tombstoned && !stale && !rejectedCreate then None
    else Some(prepared.(relationID := current.id, revisionNo := current.latest + 1, expected := Some(current.latest)))
  }

  lemma CreationIsWellFormed(role: Role, kind: RelationType, rule: Rule, ids: Allocated, who: Provenance)
    requires PrepareCreate(role, kind, rule, ids, who).Success?
    ensures var record := PrepareCreate(role, kind, rule, ids, who).value;
      && Creates(record) && AcceptedRule(record.rule)
      && forall n {:trigger n in RequiredNodes(record)} ::
           n in RequiredNodes(record) <==>
             n == rule.source || n == rule.target
             || exists i :: 0 <= i < |References.RecordedReferences(rule.content)| && References.RecordedReferences(rule.content)[i].nodeID == n
  {
    var record := PrepareCreate(role, kind, rule, ids, who).value;
    var recorded := References.RecordedReferences(rule.content);
    assert record.references == ReferencedNodes(rule);
    forall i | 0 <= i < |recorded| ensures recorded[i].nodeID in record.references {
      assert record.references[i] == recorded[i].nodeID;
    }
    forall n | n in record.references ensures exists i :: 0 <= i < |recorded| && recorded[i].nodeID == n {
      var i :| 0 <= i < |record.references| && record.references[i] == n;
      assert recorded[i].nodeID == n;
    }
  }

  // ----- when a command can be prepared ----------------------------------------------------------

  /** A creation is for those who write relations, of the reviewed kind, and joins two different nodes by parts that pass
      the validator. */
  lemma CreationIsPossible(role: Role, kind: RelationType, rule: Rule, ids: Allocated, who: Provenance)
    ensures PrepareCreate(role, kind, rule, ids, who).Success? <==>
      && (role == Agent || role == Editor || role == Admin) && kind == ConditionalValueCopy
      && 0 < rule.source && 0 < rule.target && rule.source != rule.target && rule.confidence <= 10_000
      && AcceptedPart(rule.content.guard) && AcceptedPart(rule.content.selector)
      && Validation.AcceptedValue(rule.content.transform, Validation.DefaultLimits)
    ensures PrepareCreate(role, kind, rule, ids, who) == Failure(Forbidden) <==> role != Agent && role != Editor && role != Admin
  {
    hide Validation.AcceptedValue, Validation.AcceptedBoolean;
  }

  predicate AcceptedPart(e: Option<Conditions.Boolean>) {
    e == None || Validation.AcceptedBoolean(e.value, Validation.DefaultLimits)
  }

  /** Two creations are the same one exactly when they join the same nodes by the same content, whatever the confidence. */
  lemma SameCreation(a: Rule, b: Rule, role: Role, kind: RelationType, ids: Allocated, jds: Allocated, who: Provenance)
    requires PrepareCreate(role, kind, a, ids, who).Success? && PrepareCreate(role, kind, b, jds, who).Success?
    ensures PrepareCreate(role, kind, a, ids, who).value.fingerprint == PrepareCreate(role, kind, b, jds, who).value.fingerprint <==>
      a.source == b.source && a.target == b.target && a.content == b.content
  {
    hide AcceptedRule;
  }

  /** Every state but the two in which a relation is or could be in effect rules an invalidation out. */
  lemma InvalidationIsPossible(
    h: RuleHistory, r: int, role: Role, expected: int, kind: Kind, ids: Allocated, who: Provenance)
    requires Invariant(h)
    ensures PrepareInvalidation(role, RelationOf(h, r), expected, kind, ids, who).Success? <==>
      && (role == Agent || role == Editor || role == Admin) && h.kind == ConditionalValueCopy
      && expected == |h.now.order| && expected > 0 && h.now.proposed.None?
      && (h.now.status == StatusApproved || h.now.status == StatusSuppressed)
    ensures PrepareInvalidation(role, RelationOf(h, r), expected, kind, ids, who).Success? ==>
      var record := PrepareInvalidation(role, RelationOf(h, r), expected, kind, ids, who).value;
      && record.relationID == r && record.proposal == kind && record.expected == Some(expected)
      && record.revisionNo == expected + 1 && record.who == who
      && h.now.active.Some? && h.now.active.value in h.versions && record.rule == h.versions[h.now.active.value].content
  {
    hide Replay, Balanced, ReferencedNodes;
  }

  /** A content revision may follow any state, as long as nothing is under review. */
  lemma RevisionIsPossible(
    h: RuleHistory, r: int, role: Role, expected: int, rule: Rule, ids: Allocated, who: Provenance)
    requires Invariant(h)
    ensures PrepareRevision(role, RelationOf(h, r), expected, rule, ids, who).Success? <==>
      && (role == Agent || role == Editor || role == Reviewer || role == Admin) && h.kind == ConditionalValueCopy
      && expected == |h.now.order| && expected > 0 && h.now.proposed.None? && AcceptedRule(rule)
    ensures PrepareRevision(role, RelationOf(h, r), expected, rule, ids, who).Success? ==>
      var record := PrepareRevision(role, RelationOf(h, r), expected, rule, ids, who).value;
      && record.relationID == r && record.proposal == ProposalContent && record.expected == Some(expected)
      && record.revisionNo == expected + 1 && record.who == who && record.rule == rule
  {
    hide Replay, Balanced, AcceptedRule, ReferencedNodes;
  }

  /** A creation is turned into a reproposal exactly when the relation it stands for has nothing under review and is
      neither in effect nor suppressed. */
  lemma ReproposalIsPossible(h: RuleHistory, r: int, prepared: ProposalRecord)
    requires Invariant(h) && Creates(prepared)
    ensures PrepareReproposal(RelationOf(h, r), prepared).Some? <==>
      && r > 0 && h.kind == ConditionalValueCopy && h.now.order != [] && h.now.proposed.None?
      && h.now.status != StatusApproved && h.now.status != StatusSuppressed
    ensures PrepareReproposal(RelationOf(h, r), prepared).Some? ==>
      var record := PrepareReproposal(RelationOf(h, r), prepared).value;
      && record.relationID == r && record.rule == prepared.rule && record.proposal == ProposalContent
      && record.revisionNo == |h.now.order| + 1 && record.expected == Some(|h.now.order|)
  {
    hide Replay, Balanced, AcceptedRule;
  }

  // ----- between prepare and commit --------------------------------------------------------------

  /** However other transactions interleave, an invalidation that commits invalidates the version it was prepared
      from: that version is still active, and is the one whose rule it repeats. */
  lemma InvalidationIsCurrent(
    h: RuleHistory, actions: seq<Action<Rule>>, t: Tables, columns: set<int>, r: int,
    role: Role, expected: int, kind: Kind, ids: Allocated, who: Provenance)
    requires Invariant(h) && Runs(h, actions) && Holds(t, r, Run(h, actions))
    requires PrepareInvalidation(role, RelationOf(h, r), expected, kind, ids, who).Success?
    requires RevisionAcceptable(t, columns, PrepareInvalidation(role, RelationOf(h, r), expected, kind, ids, who).value)
    ensures var g := Run(h, actions); var record := PrepareInvalidation(role, RelationOf(h, r), expected, kind, ids, who).value;
      && g.now.active.Some? && g.now.active == h.now.active && g.now.proposed.None?
      && g.now.active.value in g.versions && g.versions[g.now.active.value].content == record.rule
      && g.now.status in {StatusApproved, StatusSuppressed}
  {
    hide Replay, Balanced, HoldsVersions, HoldsEdge, Log, EventClashes, RequiredNodes, ReferencedNodes, Runs, Run;
    RevisionCheckSuffices(h, actions);
  }

  /** A content revision that commits finds the active version it was prepared against: nothing it replaces has
      changed since, apart from the relation having been suppressed or restored. */
  lemma RevisionIsCurrent(
    h: RuleHistory, actions: seq<Action<Rule>>, t: Tables, columns: set<int>, r: int,
    role: Role, expected: int, rule: Rule, ids: Allocated, who: Provenance)
    requires Invariant(h) && Runs(h, actions) && Holds(t, r, Run(h, actions))
    requires PrepareRevision(role, RelationOf(h, r), expected, rule, ids, who).Success?
    requires RevisionAcceptable(t, columns, PrepareRevision(role, RelationOf(h, r), expected, rule, ids, who).value)
    ensures var g := Run(h, actions); var record := PrepareRevision(role, RelationOf(h, r), expected, rule, ids, who).value;
      && g.now.active == h.now.active && g.now.proposed.None? && g.versions == h.versions
      && (g.now.status == h.now.status || {g.now.status, h.now.status} == {StatusApproved, StatusSuppressed})
      && record.revisionNo == |g.now.order| + 1 && record.relationID == r
  {
    hide Replay, Balanced, HoldsVersions, HoldsEdge, Log, EventClashes, RequiredNodes, ReferencedNodes, Runs, Run, AcceptedRule;
    RevisionCheckSuffices(h, actions);
  }

  /** A reproposal that commits finds the relation exactly as it was read: still invalidated or rejected. */
  lemma ReproposalIsCurrent(
    h: RuleHistory, actions: seq<Action<Rule>>, t: Tables, columns: set<int>, r: int, prepared: ProposalRecord)
    requires Invariant(h) && Runs(h, actions) && Holds(t, r, Run(h, actions))
    requires PrepareReproposal(RelationOf(h, r), prepared).Some?
    requires RevisionAcceptable(t, columns, PrepareReproposal(RelationOf(h, r), prepared).value)
    ensures Run(h, actions).now == h.now && Run(h, actions).versions == h.versions
  {
    hide Replay, Balanced, HoldsVersions, HoldsEdge, Log, EventClashes, RequiredNodes, Runs, Run;
    RevisionCheckSuffices(h, actions);
  }

  // ----- what the commands prepare is acceptable -------------------------------------------------

  lemma RevisionIsAccepted(role: Role, current: Relation, expected: int, rule: Rule, ids: Allocated, who: Provenance)
    requires PrepareRevision(role, current, expected, rule, ids, who).Success?
    ensures AcceptedRule(PrepareRevision(role, current, expected, rule, ids, who).value.rule)
    ensures current.kind == ConditionalValueCopy
  {
    hide AcceptedRule;
  }

  /** An invalidation repeats a stored rule, and every stored rule is an accepted one. */
  lemma InvalidationIsAccepted(
    histories: map<int, RuleHistory>, r: int, role: Role, expected: int, kind: Kind, ids: Allocated, who: Provenance)
    requires AllAccepted(histories) && r in histories && Invariant(histories[r])
    requires PrepareInvalidation(role, RelationOf(histories[r], r), expected, kind, ids, who).Success?
    ensures AcceptedRule(PrepareInvalidation(role, RelationOf(histories[r], r), expected, kind, ids, who).value.rule)
    ensures histories[r].kind == ConditionalValueCopy
  {
    hide AcceptedRule, Replay, Balanced;
    assert RulesAccepted(histories[r]);
  }

  lemma ReproposalIsAccepted(current: Relation, prepared: ProposalRecord)
    requires PrepareReproposal(current, prepared).Some? && AcceptedRule(prepared.rule)
    ensures AcceptedRule(PrepareReproposal(current, prepared).value.rule)
  {
    hide AcceptedRule;
  }

  // ----- every effective edge evaluates ----------------------------------------------------------

  /** In every valid database an edge that is in effect can be evaluated in every context. */
  lemma EffectiveEdgesEvaluate(db: Database, r: int, c: Conditions.Context)
    requires db.Valid() && r in db.t.edges
    ensures EdgeEvaluation.EvalEdge(db.t.edges[r].rule.content, c).Success?
  {
    assert r in db.histories.Keys;
    assert Sound(db.t, r, db.histories[r]) && RulesAccepted(db.histories[r]);
    assert AcceptedContent(db.t.edges[r].rule.content);
    ContentEvaluates(db.t.edges[r].rule.content, c);
  }

  /** The rows a trace reads are the effective edges. */
  ghost predicate RowsOf(t: Tables, rows: seq<EdgeEvaluation.Edge>) {
    forall e :: e in rows ==> e.relationID in t.edges && RowShows(t.edges[e.relationID], e)
  }

  predicate RowShows(row: EdgeRow, e: EdgeEvaluation.Edge) {
    e.versionID == row.versionID && e.source == row.rule.source && e.target == row.rule.target && e.content == row.rule.content
  }

  /** So no trace over the effective edges of a valid database fails on an edge, and its nodes are positive. */
  lemma TracesEvaluate(db: Database, q: Graph.Query)
    requires db.Valid() && RowsOf(db.t, q.rows)
    ensures !SearchSpace.SomeEdgeFails(q)
    ensures forall e :: e in q.rows ==> 0 < e.source && 0 < e.target && e.source != e.target
  {
    forall e | e in q.rows
      ensures EdgeEvaluation.EvalEdge(e.content, q.context).Success?
      ensures 0 < e.source && 0 < e.target && e.source != e.target
    {
      EffectiveEdgesEvaluate(db, e.relationID, q.context);
      EdgeIsAccepted(db, e.relationID);
    }
  }

  lemma EdgeIsAccepted(db: Database, r: int)
    requires db.Valid() && r in db.t.edges
    ensures AcceptedRule(db.t.edges[r].rule)
  {
    assert r in db.histories.Keys;
    assert Sound(db.t, r, db.histories[r]) && RulesAccepted(db.histories[r]);
    hide AcceptedRule;
  }
}
