/** The write transactions on reviewed relations. Each is one atomic step of the database: it commits every
    row it writes or, on any error, none. */
module RelationRepository {
  import opened Wrappers
  import opened RelationHistory
  import opened RelationTables
  import opened RelationWrites
  import opened Rules

  /** A proposal as the commands prepare it. `references` are the columns its rule reads. */
  datatype ProposalRecord = ProposalRecord(
    relationID: int, versionID: int, eventID: int, kind: RelationType, fingerprint: Fingerprint,
    revisionNo: nat, proposal: Kind, rule: Rule, references: seq<int>, expected: Option<int>, who: Provenance)

  datatype ReviewRecord = ReviewRecord(
    relationID: int, expected: int, approve: bool, eventID: int, supersededEventID: int, who: Provenance)

  datatype StateRecord = StateRecord(relationID: int, expected: int, eventID: int, who: Provenance)

  function RequiredNodes(record: ProposalRecord): set<int> {
    {record.rule.source, record.rule.target} + set n | n in record.references
  }

  function ProposedEvent(record: ProposalRecord): EventRow {
    Event(record.eventID, record.relationID, record.versionID, EventProposed, record.who)
  }

  /** Both ends of the rule and everything it reads are active columns. */
  predicate NodesKnown(record: ProposalRecord, columns: set<int>) {
    record.rule.source in columns && record.rule.target in columns
    && forall i :: 0 <= i < |record.references| ==> record.references[i] in columns
  }

  lemma RequiredAreKnown(record: ProposalRecord, columns: set<int>)
    ensures RequiredNodes(record) <= columns <==> NodesKnown(record, columns)
  {
    if RequiredNodes(record) <= columns {
      forall i | 0 <= i < |record.references| ensures record.references[i] in columns {
        assert record.references[i] in RequiredNodes(record);
      }
    }
  }

  lemma ProposalRecorded(t: Tables, u: Tables, record: ProposalRecord)
    requires !EventClashes(t.events, ProposedEvent(record)) && u.events == t.events + [ProposedEvent(record)]
    ensures EventsRecorded(t, u, record.relationID, record.who)
  {
    EventRecorded(t, u, ProposedEvent(record), record.relationID, record.who);
  }

  lemma ReviewRecorded(t: Tables, u: Tables, record: ReviewRecord)
    requires Reviewed(t, u, record)
    ensures EventsRecorded(t, u, record.relationID, record.who)
  {
    hide EventClashes, GetRelation, StatusOfKind;
    var current := GetRelation(t, record.relationID).value;
    var outcome := OutcomeRow(record, current.proposed.value);
    if record.approve && current.active.Some? {
      TwoEventsRecorded(t, u, outcome, SupersededRow(record, current.active.value), record.relationID, record.who);
    } else {
      EventRecorded(t, u, outcome, record.relationID, record.who);
    }
  }

  lemma StateRecorded(t: Tables, u: Tables, record: StateRecord, suppress: bool)
    requires StateChanged(t, u, record, suppress)
    ensures EventsRecorded(t, u, record.relationID, record.who)
  {
    hide EventClashes, GetRelation, IsPresent;
    var current := GetRelation(t, record.relationID).value;
    EventRecorded(t, u, StateRow(record, current.active.value, suppress), record.relationID, record.who);
  }

  // ----- when a transaction succeeds -------------------------------------------------------------

  predicate CreateAcceptable(t: Tables, columns: set<int>, record: ProposalRecord) {
    && (forall r :: r in t.relations ==> t.relations[r].fingerprint != record.fingerprint)
    && RequiredNodes(record) <= columns
    && record.relationID !in t.relations && record.versionID !in t.versions
    && !EventClashes(t.events, ProposedEvent(record))
  }

  predicate RevisionAcceptable(t: Tables, columns: set<int>, record: ProposalRecord) {
    && record.relationID in t.relations && record.relationID in t.current
    && var row := t.current[record.relationID];
       && (if record.expected.Some? then record.expected.value else 0) == row.latest
       && row.proposed.None? && record.revisionNo == row.latest + 1
       && RequiredNodes(record) <= columns && record.versionID !in t.versions
       && !EventClashes(t.events, ProposedEvent(record))
  }

  function ReviewAction(record: ReviewRecord): Action<Rule> {
    if record.approve then Approve else Reject
  }

  function OutcomeRow(record: ReviewRecord, proposed: Revision): EventRow {
    Event(record.eventID, record.relationID, proposed.id,
          if record.approve then OutcomeEvent(proposed.kind) else EventRejected, record.who)
  }

  function SupersededRow(record: ReviewRecord, active: Revision): EventRow {
    Event(record.supersededEventID, record.relationID, active.id, EventSuperseded, record.who)
  }

  predicate ReviewAcceptable(t: Tables, record: ReviewRecord) {
    var found := GetRelation(t, record.relationID);
    && found.Success?
    && var current := found.value;
       && record.expected == current.latest && current.proposed.Some? && current.proposed.value.revisionNo == record.expected
       && var outcome := OutcomeRow(record, current.proposed.value);
          && !EventClashes(t.events, outcome)
          && (record.approve && current.active.Some? ==>
                !EventClashes(t.events + [outcome], SupersededRow(record, current.active.value)))
  }

  function StateAction(suppress: bool): Action<Rule> {
    if suppress then Suppress else Restore
  }

  function StateRow(record: StateRecord, active: Revision, suppress: bool): EventRow {
    Event(record.eventID, record.relationID, active.id, if suppress then EventSuppressed else EventRestored, record.who)
  }

  predicate IsPresent(t: Tables, r: int) {
    exists k :: k in t.mappings && t.mappings[k].relationID == r && t.mappings[k].present
  }

  predicate StateAcceptable(t: Tables, record: StateRecord, suppress: bool) {
    var found := GetRelation(t, record.relationID);
    && found.Success?
    && var current := found.value;
       && record.expected == current.latest && current.active.Some? && current.proposed.None?
       && current.status == (if suppress then StatusApproved else StatusSuppressed)
       && (!suppress && current.kind == DeclaredForeignKey ==> IsPresent(t, record.relationID))
       && !EventClashes(t.events, StateRow(record, current.active.value, suppress))
  }

  predicate Creates(record: ProposalRecord) {
    && record.kind == ConditionalValueCopy && record.proposal == ProposalContent && record.revisionNo == 1
    && AcceptedRule(record.rule)
  }

  function CreatedBy(record: ProposalRecord): RuleHistory {
    Created(record.kind, record.versionID, record.rule)
  }

  // ----- when a transaction succeeds, told by the rows alone -------------------------------------

  /** No event has this identifier, and none says the same for the same request. */
  predicate FreshEvent(events: seq<EventRow>, id: int, event: EventType, who: Provenance) {
    forall i :: 0 <= i < |events| ==>
      && events[i].id != id
      && !(events[i].actor == who.actor && events[i].origin == who.origin
           && events[i].requestID == who.requestID && events[i].event == event)
  }

  lemma FreshMeans(events: seq<EventRow>, id: int, r: int, v: int, event: EventType, who: Provenance)
    ensures FreshEvent(events, id, event, who) <==> !EventClashes(events, Event(id, r, v, event, who))
  {
    var e := Event(id, r, v, event, who);
    if EventClashes(events, e) {
      var i :| 0 <= i < |events| && Clash(events[i], e);
    }
    if !EventClashes(events, e) {
      forall i | 0 <= i < |events| ensures !Clash(events[i], e) {}
    }
  }

  lemma CreateSucceeds(t: Tables, columns: set<int>, record: ProposalRecord)
    ensures CreateAcceptable(t, columns, record) <==>
      && (forall r :: r in t.relations ==> t.relations[r].fingerprint != record.fingerprint)
      && NodesKnown(record, columns) && record.relationID !in t.relations && record.versionID !in t.versions
      && FreshEvent(t.events, record.eventID, EventProposed, record.who)
  {
    RequiredAreKnown(record, columns);
    FreshMeans(t.events, record.eventID, record.relationID, record.versionID, EventProposed, record.who);
    hide EventClashes, FreshEvent, RequiredNodes, NodesKnown;
  }

  lemma RevisionSucceeds(t: Tables, columns: set<int>, record: ProposalRecord)
    requires record.expected.Some?
    ensures RevisionAcceptable(t, columns, record) <==>
      && record.relationID in t.relations && record.relationID in t.current
      && t.current[record.relationID].latest == record.expected.value && t.current[record.relationID].proposed == None
      && record.revisionNo == record.expected.value + 1
      && NodesKnown(record, columns) && record.versionID !in t.versions
      && FreshEvent(t.events, record.eventID, EventProposed, record.who)
  {
    RequiredAreKnown(record, columns);
    FreshMeans(t.events, record.eventID, record.relationID, record.versionID, EventProposed, record.who);
    hide EventClashes, FreshEvent, RequiredNodes, NodesKnown;
  }

  /** A review of the latest revision, while it is proposed, always succeeds under new event identifiers, unless the same
      request has already decided or superseded something. */
  lemma ReviewSucceeds(t: Tables, histories: map<int, RuleHistory>, record: ReviewRecord)
    requires Coupled(t, histories)
    ensures ReviewAcceptable(t, record) <==>
      && record.relationID in histories
      && var h := histories[record.relationID];
         && record.expected == |h.now.order| && h.now.proposed.Some? && h.now.proposed.value in h.versions
         && FreshEvent(t.events, record.eventID,
                       if record.approve then EventOfKind(h.versions[h.now.proposed.value].kind) else EventRejected, record.who)
         && (record.approve && h.now.active.Some? ==>
              record.supersededEventID != record.eventID
              && FreshEvent(t.events, record.supersededEventID, EventSuperseded, record.who))
  {
    CurrentReads(t, histories, record.relationID);
    hide Coupled, GetRelation, Replay, Balanced, EventClashes, FreshEvent, Log, Holds;
    if record.relationID in histories && histories[record.relationID].now.proposed.Some? {
      ReviewEvents(t.events, histories[record.relationID], record);
    }
  }

  /** The event by which a proposal of this kind takes effect. */
  function EventOfKind(kind: Kind): EventType {
    if kind == ProposalContent then EventApproved else if kind == ProposalTombstone then EventTombstoned else EventStale
  }

  lemma ReviewEvents(events: seq<EventRow>, h: RuleHistory, record: ReviewRecord)
    requires Invariant(h) && h.now.proposed.Some?
    ensures h.now.proposed.value in h.versions && h.versions[h.now.proposed.value].revisionNo == |h.now.order|
    ensures var proposed := RevisionOf(h, record.relationID, h.now.proposed.value);
      !EventClashes(events, OutcomeRow(record, proposed)) <==>
        FreshEvent(events, record.eventID, if record.approve then EventOfKind(proposed.kind) else EventRejected, record.who)
    ensures h.now.active.Some? ==> h.now.active.value in h.versions
    ensures h.now.active.Some? && record.approve ==>
      var proposed, active := RevisionOf(h, record.relationID, h.now.proposed.value), RevisionOf(h, record.relationID, h.now.active.value);
      !EventClashes(events + [OutcomeRow(record, proposed)], SupersededRow(record, active)) <==>
        record.supersededEventID != record.eventID && FreshEvent(events, record.supersededEventID, EventSuperseded, record.who)
  {
    hide Replay, Balanced;
    var proposed := RevisionOf(h, record.relationID, h.now.proposed.value);
    var outcome := OutcomeRow(record, proposed);
    FreshMeans(events, record.eventID, record.relationID, proposed.id, outcome.event, record.who);
    if h.now.active.Some? && record.approve {
      var active := RevisionOf(h, record.relationID, h.now.active.value);
      FreshMeans(events + [outcome], record.supersededEventID, record.relationID, active.id, EventSuperseded, record.who);
      FreshMore(events, outcome, record.supersededEventID, EventSuperseded, record.who);
    }
  }

  lemma FreshMore(events: seq<EventRow>, e: EventRow, id: int, event: EventType, who: Provenance)
    requires e.event != event
    ensures FreshEvent(events + [e], id, event, who) <==> FreshEvent(events, id, event, who) && e.id != id
  {
    var more := events + [e];
    assert more[|events|] == e && forall i :: 0 <= i < |events| ==> more[i] == events[i];
  }

  /** A relation in effect can be suppressed and a suppressed one restored, while nothing is under review; a declared key
      is only restored while the last scan that covered it saw it. */
  lemma StateSucceeds(t: Tables, histories: map<int, RuleHistory>, record: StateRecord, suppress: bool)
    requires Coupled(t, histories)
    ensures StateAcceptable(t, record, suppress) <==>
      && record.relationID in histories
      && var h := histories[record.relationID];
         && record.expected == |h.now.order| && h.now.proposed.None?
         && h.now.status == (if suppress then StatusApproved else StatusSuppressed)
         && (!suppress && h.kind == DeclaredForeignKey ==>
              exists k :: k in t.mappings && t.mappings[k].relationID == record.relationID && t.mappings[k].present)
         && FreshEvent(t.events, record.eventID, if suppress then EventSuppressed else EventRestored, record.who)
  {
    CurrentReads(t, histories, record.relationID);
    hide Coupled, GetRelation, Replay, Balanced, EventClashes, FreshEvent, Log, Holds;
    if record.relationID in histories && histories[record.relationID].now.active.Some? {
      FreshMeans(t.events, record.eventID, record.relationID, histories[record.relationID].now.active.value,
                 if suppress then EventSuppressed else EventRestored, record.who);
    }
  }

  class Database {
    var t: Tables
    var columns: set<int>
    ghost var histories: map<int, RuleHistory>

    ghost predicate Valid()
      reads this
    {
      Coupled(t, histories) && DeclaredCoupled(t, histories) && AllAccepted(histories)
    }

    constructor ()
      ensures Valid() && histories == map[] && t.relations == map[]
    {
      t := Tables(map[], map[], {}, map[], [], map[], map[]);
      columns := {};
      histories := map[];
    }

    // ----- creating ------------------------------------------------------------------------------

    method InsertCreateProposal(record: ProposalRecord) returns (r: Outcome<Relation>)
      requires Valid() && Creates(record)
      modifies this`t, this`histories
      ensures r.Success? <==> CreateAcceptable(old(t), columns, record)
      ensures r.Failure? ==> histories == old(histories)
      ensures r.Success? ==> Valid() && record.relationID !in old(histories)
      ensures r.Success? ==> histories == old(histories)[record.relationID := CreatedBy(record)]
      ensures r.Success? ==> OnlyTouches(old(t), t, record.relationID) && t.edges == old(t).edges
      ensures r.Success? ==> t.relations == old(t).relations[record.relationID := RelationRow(record.kind, record.fingerprint)]
      ensures r.Success? ==> r == GetRelation(t, record.relationID)
      ensures r.Success? ==> NodesKnown(record, columns) && EventsRecorded(old(t), t, record.relationID, record.who)
    {
      hide AllAccepted, AcceptedRule, Coupled, DeclaredCoupled, OnlyTouches, Log, EventClashes, GetRelation, Created, RequiredNodes, ProposedEvent, StoredKind, NodesKnown, EventsRecorded;
      if exists q :: q in t.relations && t.relations[q].fingerprint == record.fingerprint {
        return Failure(DuplicateRelation);
      }
      if !(RequiredNodes(record) <= columns) { return Failure(InvalidCommand); }
      if record.relationID in t.relations { return Failure(ConstraintViolated); }
      t := WithRelation(t, record.relationID, RelationRow(record.kind, record.fingerprint));
      if record.versionID in t.versions { return Failure(ConstraintViolated); }
      t := WithVersion(t, record.relationID, record.versionID, record.revisionNo, record.proposal, record.rule);
      if EventClashes(t.events, ProposedEvent(record)) { return Failure(ConstraintViolated); }
      t := WithEvent(t, ProposedEvent(record));
      t := WithCurrent(t, record.relationID, CurrentRow(1, None, Some(record.versionID), StatusPending));
      ProposalRecorded(old(t), t, record);
      RequiredAreKnown(record, columns);
      CreateCommits(old(t), t, columns, old(histories), record);
      CreationAccepted(histories, record.relationID, record.kind, record.versionID, record.rule);
      histories := histories[record.relationID := CreatedBy(record)];
      r := GetRelation(t, record.relationID);
    }

    method ProposeCreate(record: ProposalRecord) returns (r: Outcome<Relation>)
      requires Valid() && Creates(record)
      modifies this`t, this`histories
      ensures Valid() && (r.Success? <==> CreateAcceptable(old(t), columns, record))
      ensures r.Failure? ==> t == old(t) && histories == old(histories)
      ensures r.Success? ==> histories == old(histories)[record.relationID := CreatedBy(record)]
      ensures r.Success? ==> r == GetRelation(t, record.relationID) && t.edges == old(t).edges
      ensures r.Success? ==> NodesKnown(record, columns) && EventsRecorded(old(t), t, record.relationID, record.who)
    {
      hide *;
      var before := t;
      r := InsertCreateProposal(record);
      if r.Failure? { t := before; }
    }

    // ----- revising ------------------------------------------------------------------------------

    /** The commands refuse to prepare a revision of a declared foreign key, or one whose rule is not accepted. */
    predicate Revises(record: ProposalRecord)
      reads this
    {
      && AcceptedRule(record.rule)
      && (record.relationID in t.relations ==> t.relations[record.relationID].kind == ConditionalValueCopy)
    }

    method InsertRevisionProposal(record: ProposalRecord) returns (r: Outcome<Relation>)
      requires Valid() && Revises(record)
      modifies this`t, this`histories
      ensures r.Success? <==> RevisionAcceptable(old(t), columns, record)
      ensures r.Failure? ==> histories == old(histories)
      ensures r.Success? ==> Valid() && record.relationID in old(histories)
      ensures r.Success? ==> Enabled(old(histories)[record.relationID], ProposeAction(record))
      ensures r.Success? ==> histories == old(histories)[record.relationID := RevisedBy(old(histories)[record.relationID], record)]
      ensures r.Success? ==> OnlyTouches(old(t), t, record.relationID) && t.edges == old(t).edges
      ensures r.Success? ==> r == GetRelation(t, record.relationID)
      ensures r.Success? ==> NodesKnown(record, columns) && EventsRecorded(old(t), t, record.relationID, record.who)
    {
      hide AllAccepted, AcceptedRule, Coupled, DeclaredCoupled, OnlyTouches, Log, EventClashes, GetRelation, RequiredNodes, ProposedEvent, StoredKind, RevisedBy, Enabled, NodesKnown, EventsRecorded;
      CurrentReads(t, histories, record.relationID);
      var current :- GetRelation(t, record.relationID);
      var expected := if record.expected.Some? then record.expected.value else 0;
      if expected != current.latest { return Failure(RevisionConflict(current.latest)); }
      if current.proposed.Some? { return Failure(PendingProposal); }
      if record.revisionNo != current.latest + 1 { return Failure(InvalidCommand); }
      if !(RequiredNodes(record) <= columns) { return Failure(InvalidCommand); }
      if record.versionID in t.versions { return Failure(ConstraintViolated); }
      t := WithVersion(t, record.relationID, record.versionID, record.revisionNo, record.proposal, record.rule);
      if EventClashes(t.events, ProposedEvent(record)) { return Failure(ConstraintViolated); }
      t := WithEvent(t, ProposedEvent(record));
      t := WithCurrent(t, record.relationID,
                       t.current[record.relationID].(latest := record.revisionNo, proposed := Some(record.versionID)));
      ProposalRecorded(old(t), t, record);
      RequiredAreKnown(record, columns);
      RevisionCommits(old(t), t, columns, old(histories), record);
      RevisedAccepted(histories, record);
      histories := histories[record.relationID := RevisedBy(histories[record.relationID], record)];
      r := GetRelation(t, record.relationID);
    }

    method ProposeRevision(record: ProposalRecord) returns (r: Outcome<Relation>)
      requires Valid() && Revises(record)
      modifies this`t, this`histories
      ensures Valid() && (r.Success? <==> RevisionAcceptable(old(t), columns, record))
      ensures r.Failure? ==> t == old(t) && histories == old(histories)
      ensures r.Success? ==> record.relationID in old(histories) && Enabled(old(histories)[record.relationID], ProposeAction(record))
      ensures r.Success? ==> histories == old(histories)[record.relationID := RevisedBy(old(histories)[record.relationID], record)]
      ensures r.Success? ==> r == GetRelation(t, record.relationID)
      ensures t.edges == old(t).edges
      ensures r.Success? ==> NodesKnown(record, columns) && EventsRecorded(old(t), t, record.relationID, record.who)
    {
      hide *;
      var before := t;
      r := InsertRevisionProposal(record);
      if r.Failure? { t := before; }
    }

    // ----- reviewing -----------------------------------------------------------------------------

    method ReviewRows(record: ReviewRecord) returns (r: Outcome<Relation>)
      requires Valid()
      modifies this`t, this`histories
      ensures r.Success? <==> ReviewAcceptable(old(t), record)
      ensures r.Failure? ==> histories == old(histories)
      ensures r.Success? ==> Valid() && record.relationID in old(histories)
      ensures r.Success? ==> Enabled(old(histories)[record.relationID], ReviewAction(record))
      ensures r.Success? ==> histories == old(histories)[record.relationID := Apply(old(histories)[record.relationID], ReviewAction(record))]
      ensures r.Success? ==> r == GetRelation(t, record.relationID)
      ensures r.Success? ==> EventsRecorded(old(t), t, record.relationID, record.who)
    {
      hide AllAccepted, AcceptedRule, Coupled, DeclaredCoupled, EventClashes, GetRelation, Enabled, Apply, OutcomeRow, SupersededRow, StatusOfKind, EventsRecorded;
      CurrentReads(t, histories, record.relationID);
      var current :- GetRelation(t, record.relationID);
      if record.expected != current.latest { return Failure(RevisionConflict(current.latest)); }
      if current.proposed.None? || current.proposed.value.revisionNo != record.expected { return Failure(InvalidTransition); }
      var outcome := OutcomeRow(record, current.proposed.value);
      if EventClashes(t.events, outcome) { return Failure(ConstraintViolated); }
      t := WithEvent(t, outcome);
      if !record.approve {
        t := WithCurrent(t, current.id, t.current[current.id].(proposed := None));
      } else {
        if current.active.Some? {
          var superseded := SupersededRow(record, current.active.value);
          if EventClashes(t.events, superseded) { return Failure(ConstraintViolated); }
          t := WithEvent(t, superseded);
        }
        var status := StatusOfKind(current.proposed.value.kind);
        var row := t.current[current.id];
        t := WithCurrent(t, current.id, row.(active := row.proposed, proposed := None, status := status));
        t := WithoutEdge(t, current.id);
        if status == StatusApproved {
          t := WithEdge(t, current.id, EdgeOf(current.kind, current.proposed.value));
        }
      }
      ReviewRecorded(old(t), t, record);
      ReviewCommits(old(t), t, old(histories), record);
      ActionKeepsRules(histories, record.relationID, ReviewAction(record));
      histories := histories[record.relationID := Apply(histories[record.relationID], ReviewAction(record))];
      r := GetRelation(t, current.id);
    }

    method Review(record: ReviewRecord) returns (r: Outcome<Relation>)
      requires Valid()
      modifies this`t, this`histories
      ensures Valid() && (r.Success? <==> ReviewAcceptable(old(t), record))
      ensures r.Failure? ==> t == old(t) && histories == old(histories)
      ensures r.Success? ==> record.relationID in old(histories) && Enabled(old(histories)[record.relationID], ReviewAction(record))
      ensures r.Success? ==> histories == old(histories)[record.relationID := Apply(old(histories)[record.relationID], ReviewAction(record))]
      ensures r.Success? ==> r == GetRelation(t, record.relationID)
      ensures r.Success? ==> EventsRecorded(old(t), t, record.relationID, record.who)
    {
      hide *;
      var before := t;
      r := ReviewRows(record);
      if r.Failure? { t := before; }
    }

    // ----- suppressing and restoring -------------------------------------------------------------

    method ChangeStateRows(record: StateRecord, suppress: bool) returns (r: Outcome<Relation>)
      requires Valid()
      modifies this`t, this`histories
      ensures r.Success? <==> StateAcceptable(old(t), record, suppress)
      ensures r.Failure? ==> histories == old(histories)
      ensures r.Success? ==> Valid() && record.relationID in old(histories)
      ensures r.Success? ==> Enabled(old(histories)[record.relationID], StateAction(suppress))
      ensures r.Success? ==> histories == old(histories)[record.relationID := Apply(old(histories)[record.relationID], StateAction(suppress))]
      ensures r.Success? ==> r == GetRelation(t, record.relationID)
      ensures r.Success? ==> EventsRecorded(old(t), t, record.relationID, record.who)
    {
      hide AllAccepted, AcceptedRule, Coupled, DeclaredCoupled, EventClashes, GetRelation, Enabled, Apply, StateRow, IsPresent, EventsRecorded;
      CurrentReads(t, histories, record.relationID);
      var current :- GetRelation(t, record.relationID);
      if record.expected != current.latest { return Failure(RevisionConflict(current.latest)); }
      if current.active.None? || current.status == StatusTombstoned || current.proposed.Some? {
        return Failure(InvalidTransition);
      }
      if suppress && current.status != StatusApproved { return Failure(InvalidTransition); }
      if !suppress && current.status != StatusSuppressed { return Failure(InvalidTransition); }
      if !suppress && current.kind == DeclaredForeignKey {
        if !IsPresent(t, current.id) { return Failure(InvalidTransition); }
      }
      var status := if suppress then StatusSuppressed else StatusApproved;
      var event := StateRow(record, current.active.value, suppress);
      if EventClashes(t.events, event) { return Failure(ConstraintViolated); }
      t := WithEvent(t, event);
      t := WithCurrent(t, current.id, t.current[current.id].(status := status));
      t := WithoutEdge(t, current.id);
      if !suppress {
        t := WithEdge(t, current.id, EdgeOf(current.kind, current.active.value));
      }
      StateRecorded(old(t), t, record, suppress);
      StateCommits(old(t), t, old(histories), record, suppress);
      ActionKeepsRules(histories, record.relationID, StateAction(suppress));
      histories := histories[record.relationID := Apply(histories[record.relationID], StateAction(suppress))];
      r := GetRelation(t, current.id);
    }

    method ChangeState(record: StateRecord, suppress: bool) returns (r: Outcome<Relation>)
      requires Valid()
      modifies this`t, this`histories
      ensures Valid() && (r.Success? <==> StateAcceptable(old(t), record, suppress))
      ensures r.Failure? ==> t == old(t) && histories == old(histories)
      ensures r.Success? ==> record.relationID in old(histories) && Enabled(old(histories)[record.relationID], StateAction(suppress))
      ensures r.Success? ==> histories == old(histories)[record.relationID := Apply(old(histories)[record.relationID], StateAction(suppress))]
      ensures r.Success? ==> r == GetRelation(t, record.relationID)
      ensures r.Success? ==> EventsRecorded(old(t), t, record.relationID, record.who)
    {
      hide *;
      var before := t;
      r := ChangeStateRows(record, suppress);
      if r.Failure? { t := before; }
    }
  }

  /** What a reader sees of a relation, or that there is none, is decided by the histories. */
  lemma CurrentReads(t: Tables, histories: map<int, RuleHistory>, r: int)
    requires Coupled(t, histories)
    ensures r in histories <==> r in t.relations
    ensures r in histories <==> r in t.current
    ensures r !in histories ==> GetRelation(t, r) == Failure(RelationNotFound)
    ensures r in histories ==> Sound(t, r, histories[r]) && t.current[r] == RowOf(histories[r])
    ensures r in histories ==> GetRelation(t, r) == Success(RelationOf(histories[r], r))
  {
    assert r in t.relations.Keys <==> r in histories.Keys;
    assert r in t.current.Keys <==> r in histories.Keys;
    if r in histories {
      assert Sound(t, r, histories[r]);
      ReadsBack(t, r, histories[r]);
    }
  }

  function ProposeAction(record: ProposalRecord): Action<Rule> {
    Propose(record.versionID, record.proposal, record.rule)
  }

  function RevisedBy(h: RuleHistory, record: ProposalRecord): RuleHistory
    requires Enabled(h, ProposeAction(record))
  {
    Apply(h, ProposeAction(record))
  }

  lemma RevisedAccepted(histories: map<int, RuleHistory>, record: ProposalRecord)
    requires AllAccepted(histories) && record.relationID in histories && AcceptedRule(record.rule)
    requires Enabled(histories[record.relationID], ProposeAction(record))
    ensures AllAccepted(histories[record.relationID := RevisedBy(histories[record.relationID], record)])
  {
    hide AllAccepted, AcceptedRule, Enabled;
    ActionKeepsRules(histories, record.relationID, ProposeAction(record));
  }

  function RevisionRows(t: Tables, record: ProposalRecord): Tables
    requires record.relationID in t.current
  {
    var w := WithVersion(t, record.relationID, record.versionID, record.revisionNo, record.proposal, record.rule);
    WithCurrent(WithEvent(w, ProposedEvent(record)), record.relationID,
                t.current[record.relationID].(latest := record.revisionNo, proposed := Some(record.versionID)))
  }

  lemma RevisionWritten(t: Tables, columns: set<int>, h: RuleHistory, record: ProposalRecord)
    requires Sound(t, record.relationID, h) && h.kind == ConditionalValueCopy && forall v :: v in t.stale ==> v in t.versions
    requires RevisionAcceptable(t, columns, record)
    ensures Enabled(h, ProposeAction(record))
    ensures var g := RevisedBy(h, record);
      var w := WithVersion(t, record.relationID, record.versionID, record.revisionNo, record.proposal, record.rule);
      && Prepared(t, w, record.relationID) && Written(w, RevisionRows(t, record), record.relationID, g, ProposedEvent(record), None)
      && HoldsVersions(w, record.relationID, g) && g.log == Logged(Log(t.events, record.relationID), ProposedEvent(record), None)
  {
    var r := record.relationID;
    hide Log, EventClashes, Replay, Balanced;
    forall v | v in h.versions ensures v in t.versions { assert HoldsVersion(t, r, v, h.versions[v]); }
    VersionHeld(t, r, h, record.versionID, record.proposal, record.rule);
    VersionPrepared(t, r, record.versionID, record.revisionNo, record.proposal, record.rule);
  }

  lemma RevisionCommits(t: Tables, u: Tables, columns: set<int>, histories: map<int, RuleHistory>, record: ProposalRecord)
    requires Coupled(t, histories) && DeclaredCoupled(t, histories) && RevisionAcceptable(t, columns, record)
    requires t.relations[record.relationID].kind == ConditionalValueCopy && u == RevisionRows(t, record)
    ensures record.relationID in histories && Enabled(histories[record.relationID], ProposeAction(record))
    ensures var after := histories[record.relationID := RevisedBy(histories[record.relationID], record)];
      && Coupled(u, after) && DeclaredCoupled(u, after) && OnlyTouches(t, u, record.relationID) && u.edges == t.edges
    ensures GetRelation(u, record.relationID).Success?
  {
    var r := record.relationID;
    CurrentReads(t, histories, r);
    var h := histories[r];
    assert h.kind == ConditionalValueCopy;
    RevisionWritten(t, columns, h, record);
    var g := RevisedBy(h, record);
    var w := WithVersion(t, r, record.versionID, record.revisionNo, record.proposal, record.rule);
    ActionKeepsInvariant(h, ProposeAction(record));
    hide Invariant, Holds, HoldsVersions, Prepared, Written, OnlyTouches, Housekeeping;
    StepCommits(t, w, u, histories, r, g, ProposedEvent(record), None);
    DeclaredKept(t, u, histories, r, g);
    CurrentReads(u, histories[r := g], r);
  }


  function WithRelation(t: Tables, r: int, row: RelationRow): Tables {
    t.(relations := t.relations[r := row])
  }

  function CreateVersions(t: Tables, record: ProposalRecord): Tables {
    WithVersion(WithRelation(t, record.relationID, RelationRow(record.kind, record.fingerprint)),
                record.relationID, record.versionID, record.revisionNo, record.proposal, record.rule)
  }

  function CreateRows(t: Tables, record: ProposalRecord): Tables {
    WithCurrent(WithEvent(CreateVersions(t, record), ProposedEvent(record)),
                record.relationID, CurrentRow(1, None, Some(record.versionID), StatusPending))
  }

  lemma CreateWritten(t: Tables, columns: set<int>, histories: map<int, RuleHistory>, record: ProposalRecord)
    requires Housekeeping(t, histories.Keys) && CreateAcceptable(t, columns, record) && Creates(record)
    ensures var w := CreateVersions(t, record); var g := CreatedBy(record);
      && Prepared(t, w, record.relationID) && Written(w, CreateRows(t, record), record.relationID, g, ProposedEvent(record), None)
      && HoldsVersions(w, record.relationID, g) && g.log == Logged(Log(t.events, record.relationID), ProposedEvent(record), None)
  {
    LogOfUnknown(t.events, record.relationID);
    hide Log, EventClashes;
  }

  lemma CreateDeclared(t: Tables, u: Tables, histories: map<int, RuleHistory>, r: int, g: RuleHistory)
    requires DeclaredCoupled(t, histories) && OnlyTouches(t, u, r) && u.mappings == t.mappings
    requires r !in histories && g.kind == ConditionalValueCopy
    requires t.relations.Keys == histories.Keys
    ensures DeclaredCoupled(u, histories[r := g])
  {
    hide NewVersionsOf, NewEventsOf;
    forall q | q in t.relations ensures q in u.relations && u.relations[q] == t.relations[q] {
      assert SameRow(t.relations, u.relations, q) && SameRow(t.current, u.current, q) && SameRow(t.edges, u.edges, q);
    }
    forall k | k in u.mappings ensures MappingSound(u, histories[r := g], k) {
      assert MappingSound(t, histories, k);
    }
  }

  lemma CreateCommits(t: Tables, u: Tables, columns: set<int>, histories: map<int, RuleHistory>, record: ProposalRecord)
    requires Coupled(t, histories) && DeclaredCoupled(t, histories)
    requires CreateAcceptable(t, columns, record) && Creates(record) && u == CreateRows(t, record)
    ensures record.relationID !in histories
    ensures var g := CreatedBy(record); var after := histories[record.relationID := g];
      && Coupled(u, after) && DeclaredCoupled(u, after) && OnlyTouches(t, u, record.relationID) && u.edges == t.edges
      && GetRelation(u, record.relationID) == Success(RelationOf(g, record.relationID))
  {
    var g := CreatedBy(record);
    CreationEstablishesInvariant(record.kind, record.versionID, record.rule);
    CreateWritten(t, columns, histories, record);
    StepCommits(t, CreateVersions(t, record), u, histories, record.relationID, g, ProposedEvent(record), None);
    assert t.relations.Keys == histories.Keys;
    CreateDeclared(t, u, histories, record.relationID, g);
    assert Sound(u, record.relationID, g);
    ReadsBack(u, record.relationID, g);
  }

  // ----- why reviews and state changes commit ----------------------------------------------------

  function EdgeOf(kind: RelationType, revision: Revision): EdgeRow {
    EdgeRow(revision.id, kind, revision.rule)
  }

  /** The row, event and edge writes of a review, given what was read. */
  ghost predicate Reviewed(t: Tables, u: Tables, record: ReviewRecord) {
    && ReviewAcceptable(t, record) && record.relationID in t.current
    && var current := GetRelation(t, record.relationID).value;
       var outcome := OutcomeRow(record, current.proposed.value);
       var row := t.current[record.relationID];
       if !record.approve then u == WithCurrent(WithEvent(t, outcome), record.relationID, row.(proposed := None))
       else
         var second := if current.active.Some? then Some(SupersededRow(record, current.active.value)) else None;
         var status := StatusOfKind(current.proposed.value.kind);
         var v := Projected(t, record.relationID, row.(active := row.proposed, proposed := None, status := status), outcome, second);
         u == if status == StatusApproved
              then WithEdge(WithoutEdge(v, record.relationID), record.relationID, EdgeOf(current.kind, current.proposed.value))
              else WithoutEdge(v, record.relationID)
  }

  function SecondRow(h: RuleHistory, record: ReviewRecord): Option<EventRow>
    requires h.now.active.Some? ==> h.now.active.value in h.versions
  {
    if record.approve && h.now.active.Some?
    then Some(SupersededRow(record, RevisionOf(h, record.relationID, h.now.active.value))) else None
  }

  lemma ReviewWritten(t: Tables, u: Tables, h: RuleHistory, record: ReviewRecord)
    requires Sound(t, record.relationID, h) && Reviewed(t, u, record)
    ensures Enabled(h, ReviewAction(record)) && h.now.proposed.value in h.versions
    ensures var g := Apply(h, ReviewAction(record));
      var e := OutcomeRow(record, RevisionOf(h, record.relationID, h.now.proposed.value));
      && Written(t, u, record.relationID, g, e, SecondRow(h, record))
      && HoldsVersions(t, record.relationID, g) && g.log == Logged(Log(t.events, record.relationID), e, SecondRow(h, record))
  {
    hide Log, EventClashes, Replay, Balanced, GetRelation, HoldsVersions;
    ReadsBack(t, record.relationID, h);
    if record.approve { ApprovalWritten(t, u, h, record); } else { RejectionWritten(t, u, h, record); }
  }

  lemma ApprovalEnabled(t: Tables, h: RuleHistory, record: ReviewRecord)
    requires Holds(t, record.relationID, h) && Numbered(h) && StatusFits(h) && ProposalFits(h)
    requires ReviewAcceptable(t, record) && GetRelation(t, record.relationID) == Success(RelationOf(h, record.relationID))
    requires record.approve
    ensures h.now.proposed.Some? && h.now.proposed.value in h.versions && Enabled(h, Approve)
    ensures Apply(h, Approve).versions == h.versions && HoldsVersions(t, record.relationID, Apply(h, Approve))
  {
    hide Log, EventClashes, GetRelation;
  }

  lemma ApprovalWritten(t: Tables, u: Tables, h: RuleHistory, record: ReviewRecord)
    requires Holds(t, record.relationID, h) && Numbered(h) && StatusFits(h) && ProposalFits(h) && Reviewed(t, u, record) && record.approve
    requires GetRelation(t, record.relationID) == Success(RelationOf(h, record.relationID))
    ensures h.now.proposed.Some? && h.now.proposed.value in h.versions && Enabled(h, Approve)
    ensures var g := Apply(h, Approve);
      var e := OutcomeRow(record, RevisionOf(h, record.relationID, h.now.proposed.value));
      && Written(t, u, record.relationID, g, e, SecondRow(h, record)) && g.versions == h.versions
      && HoldsVersions(t, record.relationID, g) && g.log == Logged(Log(t.events, record.relationID), e, SecondRow(h, record))
  {
    ApprovalEnabled(t, h, record);
    hide Log, EventClashes, GetRelation, HoldsVersions, Numbered, ReviewAcceptable;
  }

  lemma RejectionWritten(t: Tables, u: Tables, h: RuleHistory, record: ReviewRecord)
    requires Holds(t, record.relationID, h) && Numbered(h) && StatusFits(h) && ProposalFits(h) && Reviewed(t, u, record) && !record.approve
    requires GetRelation(t, record.relationID) == Success(RelationOf(h, record.relationID))
    ensures h.now.proposed.Some? && h.now.proposed.value in h.versions && Enabled(h, Reject)
    ensures var g := Apply(h, Reject);
      var e := OutcomeRow(record, RevisionOf(h, record.relationID, h.now.proposed.value));
      && Written(t, u, record.relationID, g, e, None)
      && HoldsVersions(t, record.relationID, g) && g.log == Logged(Log(t.events, record.relationID), e, None)
  {
    hide Log, EventClashes, GetRelation;
  }

  lemma ReviewCommits(t: Tables, u: Tables, histories: map<int, RuleHistory>, record: ReviewRecord)
    requires Coupled(t, histories) && DeclaredCoupled(t, histories) && Reviewed(t, u, record)
    ensures record.relationID in histories && Enabled(histories[record.relationID], ReviewAction(record))
    ensures var after := histories[record.relationID := Apply(histories[record.relationID], ReviewAction(record))];
      Coupled(u, after) && DeclaredCoupled(u, after)
    ensures GetRelation(u, record.relationID).Success?
  {
    hide Log, Replay, Balanced, GetRelation;
    var r := record.relationID;
    CurrentReads(t, histories, r);
    var h := histories[r];
    ReviewWritten(t, u, h, record);
    var g := Apply(h, ReviewAction(record));
    var e := OutcomeRow(record, RevisionOf(h, r, h.now.proposed.value));
    ActionKeepsInvariant(h, ReviewAction(record));
    NothingPrepared(t, r);
    assert h.kind == ConditionalValueCopy && g.kind == h.kind;
    hide Invariant, Holds, HoldsVersions, Prepared, Written, OnlyTouches, Housekeeping, Reviewed;
    StepCommits(t, t, u, histories, r, g, e, SecondRow(h, record));
    DeclaredKept(t, u, histories, r, g);
    CurrentReads(u, histories[r := g], r);
  }

  ghost predicate StateChanged(t: Tables, u: Tables, record: StateRecord, suppress: bool) {
    && StateAcceptable(t, record, suppress) && record.relationID in t.current
    && var current := GetRelation(t, record.relationID).value;
       var status := if suppress then StatusSuppressed else StatusApproved;
       var v := WithoutEdge(WithCurrent(WithEvent(t, StateRow(record, current.active.value, suppress)), record.relationID,
                                        t.current[record.relationID].(status := status)), record.relationID);
       u == if suppress then v else WithEdge(v, record.relationID, EdgeOf(current.kind, current.active.value))
  }

  lemma StateWritten(t: Tables, u: Tables, h: RuleHistory, record: StateRecord, suppress: bool)
    requires Sound(t, record.relationID, h) && StateChanged(t, u, record, suppress)
    ensures Enabled(h, StateAction(suppress)) && h.now.active.value in h.versions
    ensures var g := Apply(h, StateAction(suppress));
      var e := StateRow(record, RevisionOf(h, record.relationID, h.now.active.value), suppress);
      && Written(t, u, record.relationID, g, e, None)
      && HoldsVersions(t, record.relationID, g) && g.log == Logged(Log(t.events, record.relationID), e, None)
  {
    hide Log, EventClashes, Replay, Balanced, GetRelation;
    ReadsBack(t, record.relationID, h);
  }

  lemma StateCommits(t: Tables, u: Tables, histories: map<int, RuleHistory>, record: StateRecord, suppress: bool)
    requires Coupled(t, histories) && DeclaredCoupled(t, histories) && StateChanged(t, u, record, suppress)
    ensures record.relationID in histories && Enabled(histories[record.relationID], StateAction(suppress))
    ensures var after := histories[record.relationID := Apply(histories[record.relationID], StateAction(suppress))];
      Coupled(u, after) && DeclaredCoupled(u, after)
    ensures GetRelation(u, record.relationID).Success?
  {
    hide Log, Replay, Balanced, GetRelation;
    var r := record.relationID;
    CurrentReads(t, histories, r);
    var h := histories[r];
    StateWritten(t, u, h, record, suppress);
    var g := Apply(h, StateAction(suppress));
    var e := StateRow(record, RevisionOf(h, r, h.now.active.value), suppress);
    ActionKeepsInvariant(h, StateAction(suppress));
    NothingPrepared(t, r);
    StateKeepsPresence(t, histories, record, suppress);
    hide Invariant, Holds, HoldsVersions, Prepared, Written, OnlyTouches, Housekeeping, StateChanged;
    StepCommits(t, t, u, histories, r, g, e, None);
    DeclaredKept(t, u, histories, r, g);
    CurrentReads(u, histories[r := g], r);
  }

  /** Only a present key can be approved, and only a present one is restored. */
  lemma StateKeepsPresence(t: Tables, histories: map<int, RuleHistory>, record: StateRecord, suppress: bool)
    requires Coupled(t, histories) && DeclaredCoupled(t, histories) && StateAcceptable(t, record, suppress)
    requires record.relationID in histories
    ensures histories[record.relationID].kind == DeclaredForeignKey ==>
      forall k :: k in t.mappings && t.mappings[k].relationID == record.relationID ==>
        PresenceFits(t.mappings[k].present, if suppress then StatusSuppressed else StatusApproved)
  {
    CurrentReads(t, histories, record.relationID);
    hide Coupled, GetRelation, EventClashes;
    forall k | k in t.mappings && t.mappings[k].relationID == record.relationID
      ensures !suppress && histories[record.relationID].kind == DeclaredForeignKey ==> t.mappings[k].present
    {
      assert MappingSound(t, histories, k);
      if !suppress && histories[record.relationID].kind == DeclaredForeignKey {
        var p :| p in t.mappings && t.mappings[p].relationID == record.relationID && t.mappings[p].present;
        assert MappingSound(t, histories, p);
      }
    }
  }
}
