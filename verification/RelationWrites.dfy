/** The rows each step of a relation's life writes, and why they hold the next history. */
module RelationWrites {
  import opened Wrappers
  import opened RelationHistory
  import opened RelationTables

  datatype Provenance = Provenance(actor: string, origin: int, requestID: string)

  function WithVersion(t: Tables, r: int, v: int, revisionNo: nat, kind: Kind, rule: Rule): Tables {
    t.(versions := t.versions[v := VersionRow(r, revisionNo, StoredKind(kind), rule)],
       stale := if kind == ProposalStale then t.stale + {v} else t.stale)
  }

  function WithEvent(t: Tables, e: EventRow): Tables {
    t.(events := t.events + [e])
  }

  function WithCurrent(t: Tables, r: int, row: CurrentRow): Tables {
    t.(current := t.current[r := row])
  }

  function WithEdge(t: Tables, r: int, edge: EdgeRow): Tables {
    t.(edges := t.edges[r := edge])
  }

  function WithoutEdge(t: Tables, r: int): Tables {
    t.(edges := t.edges - {r})
  }

  function Event(id: int, r: int, v: int, event: EventType, who: Provenance): EventRow {
    EventRow(id, r, v, event, who.actor, who.origin, who.requestID)
  }

  /** Two rows that UNIQUE(id) or UNIQUE(actor, origin, request_id, event_type) keeps apart. */
  predicate Clash(a: EventRow, b: EventRow) {
    a.id == b.id
    || (a.actor == b.actor && a.origin == b.origin && a.requestID == b.requestID && a.event == b.event)
  }

  predicate EventClashes(events: seq<EventRow>, e: EventRow) {
    exists i :: 0 <= i < |events| && Clash(events[i], e)
  }

  /** The events added are about this relation, name who acted, and neither repeat an identifier nor say the same thing
      for the same request twice. */
  ghost predicate EventsRecorded(t: Tables, u: Tables, r: int, who: Provenance) {
    && |t.events| < |u.events| && u.events[..|t.events|] == t.events
    && forall j :: |t.events| <= j < |u.events| ==> EventIsNew(u.events, j) && SignedBy(u.events[j], r, who)
  }

  predicate SignedBy(e: EventRow, r: int, who: Provenance) {
    e.relationID == r && e.actor == who.actor && e.origin == who.origin && e.requestID == who.requestID
  }

  predicate EventIsNew(events: seq<EventRow>, j: nat)
    requires j < |events|
  {
    forall i :: 0 <= i < j ==>
      && events[i].id != events[j].id
      && !(events[i].actor == events[j].actor && events[i].origin == events[j].origin
           && events[i].requestID == events[j].requestID && events[i].event == events[j].event)
  }

  lemma EventRecorded(t: Tables, u: Tables, e: EventRow, r: int, who: Provenance)
    requires !EventClashes(t.events, e) && u.events == t.events + [e] && SignedBy(e, r, who)
    ensures EventsRecorded(t, u, r, who)
  {
    forall i | 0 <= i < |t.events| ensures !Clash(t.events[i], e) {}
    assert EventIsNew(u.events, |t.events|);
  }

  lemma TwoEventsRecorded(t: Tables, u: Tables, e: EventRow, f: EventRow, r: int, who: Provenance)
    requires !EventClashes(t.events, e) && !EventClashes(t.events + [e], f) && u.events == t.events + [e] + [f]
    requires SignedBy(e, r, who) && SignedBy(f, r, who)
    ensures EventsRecorded(t, u, r, who)
  {
    var mid := t.(events := t.events + [e]);
    EventRecorded(t, mid, e, r, who);
    EventRecorded(mid, u, f, r, who);
    assert EventIsNew(mid.events, |t.events|);
    assert EventIsNew(u.events, |t.events|) by {
      assert forall i :: 0 <= i <= |t.events| ==> u.events[i] == mid.events[i];
    }
  }

  // ----- adding a version ------------------------------------------------------------------------

  lemma VersionHeld(t: Tables, r: int, h: RuleHistory, v: int, kind: Kind, rule: Rule)
    requires HoldsVersions(t, r, h) && v !in t.versions && v !in t.stale
    ensures HoldsVersions(WithVersion(t, r, v, |h.now.order| + 1, kind, rule), r, AddVersion(h, v, kind, rule))
  {
    var u := WithVersion(t, r, v, |h.now.order| + 1, kind, rule);
    var g := AddVersion(h, v, kind, rule);
    forall w | w in g.versions ensures HoldsVersion(u, r, w, g.versions[w]) {
      if w != v { assert HoldsVersion(t, r, w, h.versions[w]); }
    }
  }

  // ----- recording events and the new projection -------------------------------------------------

  function WithEvents(t: Tables, e: EventRow, second: Option<EventRow>): Tables {
    var u := WithEvent(t, e);
    if second.None? then u else WithEvent(u, second.value)
  }

  lemma EventsLogged(t: Tables, r: int, e: EventRow, second: Option<EventRow>)
    requires e.relationID == r && (second.Some? ==> second.value.relationID == r)
    ensures var u := WithEvents(t, e, second);
      && NewEventsOf(t, u, r)
      && Log(u.events, r) == Log(t.events, r) + [Entry(e.event, e.versionID)]
           + (if second.None? then [] else [Entry(second.value.event, second.value.versionID)])
  {
    LogAppends(t.events, e);
    if second.Some? { LogAppends(t.events + [e], second.value); }
  }

  /** The tables after the events and the new projection row. */
  function Projected(t: Tables, r: int, row: CurrentRow, e: EventRow, second: Option<EventRow>): Tables {
    WithCurrent(WithEvents(t, e, second), r, row)
  }

  function Logged(log: seq<Entry>, e: EventRow, second: Option<EventRow>): seq<Entry> {
    var one := log + [Entry(e.event, e.versionID)];
    if second.None? then one else one + [Entry(second.value.event, second.value.versionID)]
  }

  /** At most the relation row and versions of `r` have been added so far. */
  ghost predicate Prepared(t: Tables, w: Tables, r: int) {
    && w == t.(relations := w.relations, versions := w.versions, stale := w.stale)
    && NewVersionsOf(t, w, r) && r in w.relations
    && (forall q :: q != r ==> SameRow(t.relations, w.relations, q))
    && (r in t.relations ==> w.relations[r] == t.relations[r])
    && (r !in t.relations ==> forall q :: q in t.relations ==> t.relations[q].fingerprint != w.relations[r].fingerprint)
  }

  /** Events, projection and edge were then written for `r`, and its edge is the one `g` calls for. */
  ghost predicate Written(w: Tables, u: Tables, r: int, g: RuleHistory, e: EventRow, second: Option<EventRow>) {
    && e.relationID == r && (second.Some? ==> second.value.relationID == r)
    && u == Projected(w, r, RowOf(g), e, second).(edges := u.edges)
    && HoldsEdge(u, r, g) && forall q :: q != r ==> SameRow(w.edges, u.edges, q)
  }

  /** If the versions are already those of `g` and `g`'s log ends in the written events, `u` holds `g`. */
  lemma WrittenHolds(t: Tables, w: Tables, u: Tables, r: int, g: RuleHistory, e: EventRow, second: Option<EventRow>)
    requires Prepared(t, w, r) && Written(w, u, r, g, e, second)
    requires HoldsVersions(w, r, g) && w.relations[r].kind == g.kind && g.log == Logged(Log(t.events, r), e, second)
    ensures Holds(u, r, g)
  {
    EventsLogged(w, r, e, second);
    UntouchedByEvents(w, e, second);
    hide Log, WithEvents, NewVersionsOf, NewEventsOf;
    forall v | v in g.versions ensures HoldsVersion(u, r, v, g.versions[v]) { assert HoldsVersion(w, r, v, g.versions[v]); }
  }

  lemma WrittenTouches(t: Tables, w: Tables, u: Tables, r: int, g: RuleHistory, e: EventRow, second: Option<EventRow>)
    requires Prepared(t, w, r) && Written(w, u, r, g, e, second)
    ensures OnlyTouches(t, u, r) && u.mappings == t.mappings
  {
    EventsLogged(w, r, e, second);
    UntouchedByEvents(w, e, second);
    hide Log, WithEvents, HoldsEdge, RowOf;
    forall q | q != r
      ensures SameRow(t.relations, u.relations, q) && SameRow(t.current, u.current, q) && SameRow(t.edges, u.edges, q)
    {
      assert SameRow(t.relations, w.relations, q) && SameRow(w.edges, u.edges, q);
    }
  }

  lemma UntouchedByEvents(t: Tables, e: EventRow, second: Option<EventRow>)
    ensures WithEvents(t, e, second) == t.(events := WithEvents(t, e, second).events)
  {
  }

  lemma NothingPrepared(t: Tables, r: int)
    requires r in t.relations && forall v :: v in t.stale ==> v in t.versions
    ensures Prepared(t, t, r)
  {
  }

  lemma VersionPrepared(t: Tables, r: int, v: int, revisionNo: nat, kind: Kind, rule: Rule)
    requires r in t.relations && v !in t.versions && forall v :: v in t.stale ==> v in t.versions
    ensures Prepared(t, WithVersion(t, r, v, revisionNo, kind, rule), r)
  {
  }

  /** A step so written takes a sound database to a sound one holding the next history. */
  lemma StepCommits(
    t: Tables, w: Tables, u: Tables, histories: map<int, RuleHistory>, r: int, g: RuleHistory,
    e: EventRow, second: Option<EventRow>)
    requires Coupled(t, histories) && Prepared(t, w, r) && Written(w, u, r, g, e, second)
    requires HoldsVersions(w, r, g) && w.relations[r].kind == g.kind && g.log == Logged(Log(t.events, r), e, second)
    requires Invariant(g)
    ensures Coupled(u, histories[r := g]) && OnlyTouches(t, u, r) && u.mappings == t.mappings
  {
    hide *;
    WrittenHolds(t, w, u, r, g, e, second);
    WrittenTouches(t, w, u, r, g, e, second);
    TransactionCouples(t, u, histories, r, g);
  }
}
