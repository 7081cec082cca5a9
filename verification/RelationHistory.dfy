/** The life of one relation: its revisions, its append-only event log, the current projection and the
    effective edge, with the six things that can happen to it. Theorems here are about every run. */
module RelationHistory {
  import opened Wrappers

  datatype RelationType = ConditionalValueCopy | DeclaredForeignKey

  datatype Kind = ProposalContent | ProposalTombstone | ProposalStale

  datatype Status = StatusPending | StatusApproved | StatusSuppressed | StatusTombstoned | StatusStale

  datatype EventType =
    | EventProposed | EventApproved | EventRejected | EventSuperseded
    | EventTombstoned | EventSuppressed | EventRestored | EventStale

  datatype Entry = Entry(event: EventType, version: int)

  datatype Version<+C> = Version(revisionNo: nat, kind: Kind, content: C)

  /** The columns of relation_current; revision numbers are positions in `order`, counted from one. */
  datatype Projection = Projection(order: seq<int>, active: Option<int>, proposed: Option<int>, status: Status)

  datatype History<+C> = History(
    kind: RelationType, versions: map<int, Version<C>>, now: Projection, edge: Option<int>, log: seq<Entry>)

  // ----- replaying the log -----------------------------------------------------------------------

  const NothingYet := Projection([], None, None, StatusPending)

  function Introduce(p: Projection, v: int): Projection {
    if p.proposed == Some(v) then p else p.(order := p.order + [v])
  }

  function ReplayOne(p: Projection, e: Entry): Projection {
    match e.event
    case EventProposed => p.(order := p.order + [e.version], proposed := Some(e.version))
    case EventApproved => Introduce(p, e.version).(active := Some(e.version), proposed := None, status := StatusApproved)
    case EventTombstoned => Introduce(p, e.version).(active := Some(e.version), proposed := None, status := StatusTombstoned)
    case EventStale => Introduce(p, e.version).(active := Some(e.version), proposed := None, status := StatusStale)
    case EventRejected => p.(proposed := None)
    case EventSuppressed => p.(status := StatusSuppressed)
    case EventRestored => p.(status := StatusApproved)
    case EventSuperseded => p
  }

  /** The projection an observer of the events alone would compute. */
  function Replay(log: seq<Entry>): Projection {
    if log == [] then NothingYet else ReplayOne(Replay(log[..|log| - 1]), log[|log| - 1])
  }

  function Count(log: seq<Entry>, event: EventType, v: int): nat {
    if log == [] then 0
    else Count(log[..|log| - 1], event, v) + (if log[|log| - 1] == Entry(event, v) then 1 else 0)
  }

  function Activations(log: seq<Entry>, v: int): nat {
    Count(log, EventApproved, v) + Count(log, EventTombstoned, v) + Count(log, EventStale, v)
  }

  /** The review outcomes of a version: it was approved in one of three ways, or rejected. */
  function Outcomes(log: seq<Entry>, v: int): nat {
    Activations(log, v) + Count(log, EventRejected, v)
  }

  lemma LogGrows(log: seq<Entry>, e: Entry)
    ensures Replay(log + [e]) == ReplayOne(Replay(log), e)
    ensures forall event, v :: Count(log + [e], event, v) == Count(log, event, v) + (if e == Entry(event, v) then 1 else 0)
  {
    assert (log + [e])[..|log|] == log;
  }

  // ----- the invariant ---------------------------------------------------------------------------

  /** Revision numbers are exactly 1..latest, one version each. */
  predicate Numbered<C>(h: History<C>) {
    && (forall i :: 0 <= i < |h.now.order| ==>
          h.now.order[i] in h.versions && h.versions[h.now.order[i]].revisionNo == i + 1)
    && (forall v :: v in h.versions ==>
          0 < h.versions[v].revisionNo <= |h.now.order| && h.now.order[h.versions[v].revisionNo - 1] == v)
  }

  function StatusOfKind(kind: Kind): Status {
    match kind
    case ProposalContent => StatusApproved
    case ProposalTombstone => StatusTombstoned
    case ProposalStale => StatusStale
  }

  /** The status and the kind of the active version tell the same story. */
  predicate StatusFits<C>(h: History<C>) {
    if h.now.active.None? then h.now.status == StatusPending
    else
      && h.now.active.value in h.versions
      && var usual := StatusOfKind(h.versions[h.now.active.value].kind);
         h.now.status == usual || (h.now.status == StatusSuppressed && usual == StatusApproved)
  }

  /** A proposal is the latest version and is not the active one. */
  predicate ProposalFits<C>(h: History<C>) {
    h.now.proposed.Some? ==>
      && h.now.order != [] && h.now.proposed.value == h.now.order[|h.now.order| - 1]
      && h.now.proposed != h.now.active
  }

  /** One version's events: at most one outcome, and superseded once for each time it stopped being active. */
  predicate Balanced<C>(h: History<C>, v: int) {
    && Outcomes(h.log, v) <= 1
    && Count(h.log, EventSuperseded, v) + (if h.now.active == Some(v) then 1 else 0) == Activations(h.log, v)
    && (h.now.proposed == Some(v) || v !in h.versions ==> Outcomes(h.log, v) == 0)
    && Count(h.log, EventProposed, v) == (if h.kind == ConditionalValueCopy && v in h.versions then 1 else 0)
  }

  /** A declared foreign key is never under review, and its latest version is the active one. */
  predicate DeclaredFits<C>(h: History<C>) {
    h.kind == DeclaredForeignKey ==>
      && h.now.proposed.None? && h.now.status in {StatusApproved, StatusSuppressed, StatusTombstoned}
      && h.now.order != [] && h.now.active == Some(h.now.order[|h.now.order| - 1])
  }

  predicate Consistent<C>(h: History<C>) {
    && Replay(h.log) == h.now
    && h.edge == (if h.now.status == StatusApproved then h.now.active else None)
    && Numbered(h) && StatusFits(h) && ProposalFits(h) && DeclaredFits(h)
  }

  ghost predicate Invariant<C>(h: History<C>) {
    Consistent(h) && forall v :: Balanced(h, v)
  }

  // ----- what can happen -------------------------------------------------------------------------

  datatype Action<+C> =
    | Propose(version: int, kind: Kind, content: C)
    | Approve
    | Reject
    | Suppress
    | Restore
    | Publish(version: int, kind: Kind, content: C)

  /** A reviewed relation starts as a proposal; a declared foreign key starts approved. */
  function Created<C>(kind: RelationType, v: int, content: C): History<C> {
    var versions := map[v := Version(1, ProposalContent, content)];
    if kind == ConditionalValueCopy then
      History(kind, versions, Projection([v], None, Some(v), StatusPending), None, [Entry(EventProposed, v)])
    else
      History(kind, versions, Projection([v], Some(v), None, StatusApproved), Some(v), [Entry(EventApproved, v)])
  }

  predicate Enabled<C>(h: History<C>, a: Action<C>) {
    match a
    case Propose(v, _, _) => h.kind == ConditionalValueCopy && v !in h.versions && h.now.proposed.None?
    case Approve => h.now.proposed.Some? && h.now.proposed.value in h.versions
    case Reject => h.now.proposed.Some?
    case Suppress => h.now.active.Some? && h.now.proposed.None? && h.now.status == StatusApproved
    case Restore => h.now.active.Some? && h.now.proposed.None? && h.now.status == StatusSuppressed
    case Publish(v, kind, _) =>
      && h.kind == DeclaredForeignKey && v !in h.versions && h.now.proposed.None? && h.now.active.Some?
      && ((h.now.status == StatusTombstoned && kind == ProposalContent)
          || (h.now.status == StatusApproved && kind == ProposalTombstone))
  }

  function OutcomeEvent(kind: Kind): EventType {
    match kind
    case ProposalContent => EventApproved
    case ProposalTombstone => EventTombstoned
    case ProposalStale => EventStale
  }

  function Supersede(log: seq<Entry>, active: Option<int>): seq<Entry> {
    if active.None? then log else log + [Entry(EventSuperseded, active.value)]
  }

  /** Version `v` of the given kind becomes the active one; the outgoing version is superseded after it. */
  function Activate<C>(h: History<C>, v: int, kind: Kind): History<C> {
    var status := StatusOfKind(kind);
    h.(now := h.now.(active := Some(v), proposed := None, status := status),
       edge := if status == StatusApproved then Some(v) else None,
       log := Supersede(h.log + [Entry(OutcomeEvent(kind), v)], h.now.active))
  }

  function AddVersion<C>(h: History<C>, v: int, kind: Kind, content: C): History<C> {
    h.(versions := h.versions[v := Version(|h.now.order| + 1, kind, content)],
       now := h.now.(order := h.now.order + [v]))
  }

  function Apply<C>(h: History<C>, a: Action<C>): History<C>
    requires Enabled(h, a)
  {
    match a
    case Propose(v, kind, content) =>
      var added := AddVersion(h, v, kind, content);
      added.(now := added.now.(proposed := Some(v)), log := h.log + [Entry(EventProposed, v)])
    case Approve => Activate(h, h.now.proposed.value, h.versions[h.now.proposed.value].kind)
    case Reject => h.(now := h.now.(proposed := None), log := h.log + [Entry(EventRejected, h.now.proposed.value)])
    case Suppress =>
      h.(now := h.now.(status := StatusSuppressed), edge := None,
         log := h.log + [Entry(EventSuppressed, h.now.active.value)])
    case Restore =>
      h.(now := h.now.(status := StatusApproved), edge := h.now.active,
         log := h.log + [Entry(EventRestored, h.now.active.value)])
    case Publish(v, kind, content) => Activate(AddVersion(h, v, kind, content), v, kind)
  }

  // ----- the invariant is kept -------------------------------------------------------------------

  lemma FirstEntry(e: Entry)
    ensures Replay([e]) == ReplayOne(NothingYet, e)
    ensures forall event, v :: Count([e], event, v) == if e == Entry(event, v) then 1 else 0
  {
    assert [e][..0] == [];
  }

  lemma CreationBalances<C>(kind: RelationType, v: int, content: C, w: int)
    ensures Balanced(Created(kind, v, content), w)
  {
    FirstEntry(Created(kind, v, content).log[0]);
    hide Replay, Count;
  }

  lemma CreationEstablishesInvariant<C>(kind: RelationType, v: int, content: C)
    ensures Invariant(Created(kind, v, content))
  {
    var h := Created(kind, v, content);
    FirstEntry(h.log[0]);
    hide Replay, Balanced;
    assert Consistent(h);
    forall w ensures Balanced(h, w) { CreationBalances(kind, v, content, w); }
  }

  lemma ProposeKeeps<C>(h: History<C>, v: int, kind: Kind, content: C)
    requires Consistent(h) && Enabled(h, Propose(v, kind, content))
    ensures Consistent(Apply(h, Propose(v, kind, content)))
  {
    LogGrows(h.log, Entry(EventProposed, v));
    hide Replay, Count;
  }

  lemma ProposeBalances<C>(h: History<C>, v: int, kind: Kind, content: C, w: int)
    requires Enabled(h, Propose(v, kind, content)) && Balanced(h, w)
    ensures Balanced(Apply(h, Propose(v, kind, content)), w)
  {
    LogGrows(h.log, Entry(EventProposed, v));
    hide Replay, Count;
  }

  lemma SimpleKeeps<C>(h: History<C>, a: Action<C>)
    requires Consistent(h) && (a.Reject? || a.Suppress? || a.Restore?) && Enabled(h, a)
    ensures Consistent(Apply(h, a))
  {
    LogGrows(h.log, Apply(h, a).log[|h.log|]);
    hide Replay, Count;
  }

  lemma SimpleBalances<C>(h: History<C>, a: Action<C>, w: int)
    requires (a.Reject? || a.Suppress? || a.Restore?) && Enabled(h, a) && Balanced(h, w)
    requires a.Reject? ==> h.now.proposed.value in h.versions
    ensures Balanced(Apply(h, a), w)
  {
    LogGrows(h.log, Apply(h, a).log[|h.log|]);
    hide Replay, Count;
  }

  lemma ActivationReplays<C>(h: History<C>, v: int, kind: Kind)
    ensures Replay(Activate(h, v, kind).log) == ReplayOne(Replay(h.log), Entry(OutcomeEvent(kind), v))
  {
    var first := Entry(OutcomeEvent(kind), v);
    LogGrows(h.log, first);
    if h.now.active.Some? { LogGrows(h.log + [first], Entry(EventSuperseded, h.now.active.value)); }
  }

  lemma ActivationCounts<C>(h: History<C>, v: int, kind: Kind, event: EventType, w: int)
    ensures Count(Activate(h, v, kind).log, event, w) == Count(h.log, event, w)
      + (if event == OutcomeEvent(kind) && v == w then 1 else 0)
      + (if event == EventSuperseded && h.now.active == Some(w) then 1 else 0)
  {
    var first := Entry(OutcomeEvent(kind), v);
    LogGrows(h.log, first);
    if h.now.active.Some? { LogGrows(h.log + [first], Entry(EventSuperseded, h.now.active.value)); }
  }

  lemma ActivationOutcomes<C>(h: History<C>, v: int, kind: Kind, w: int)
    ensures var log := Activate(h, v, kind).log; var turned := if v == w then 1 else 0;
      && Outcomes(log, w) == Outcomes(h.log, w) + turned && Activations(log, w) == Activations(h.log, w) + turned
      && Count(log, EventSuperseded, w) == Count(h.log, EventSuperseded, w) + (if h.now.active == Some(w) then 1 else 0)
      && Count(log, EventProposed, w) == Count(h.log, EventProposed, w)
  {
    ActivationCounts(h, v, kind, EventApproved, w);
    ActivationCounts(h, v, kind, EventTombstoned, w);
    ActivationCounts(h, v, kind, EventStale, w);
    ActivationCounts(h, v, kind, EventRejected, w);
    ActivationCounts(h, v, kind, EventSuperseded, w);
    ActivationCounts(h, v, kind, EventProposed, w);
    hide Replay, Count, Activate;
  }

  lemma ApproveKeeps<C>(h: History<C>)
    requires Consistent(h) && Enabled(h, Approve)
    ensures Consistent(Apply(h, Approve))
  {
    ActivationReplays(h, h.now.proposed.value, h.versions[h.now.proposed.value].kind);
    hide Replay, Count;
  }

  lemma ApproveBalances<C>(h: History<C>, w: int)
    requires Enabled(h, Approve) && h.now.proposed != h.now.active && Balanced(h, w)
    ensures Balanced(Apply(h, Approve), w)
  {
    ActivationOutcomes(h, h.now.proposed.value, h.versions[h.now.proposed.value].kind, w);
    hide Replay, Count, Activations, Outcomes;
  }

  lemma PublishKeeps<C>(h: History<C>, v: int, kind: Kind, content: C)
    requires Consistent(h) && Enabled(h, Publish(v, kind, content))
    ensures Consistent(Apply(h, Publish(v, kind, content)))
  {
    ActivationReplays(AddVersion(h, v, kind, content), v, kind);
    hide Replay, Count;
  }

  lemma PublishBalances<C>(h: History<C>, v: int, kind: Kind, content: C, w: int)
    requires Enabled(h, Publish(v, kind, content)) && Balanced(h, w) && h.now.active != Some(v)
    ensures Balanced(Apply(h, Publish(v, kind, content)), w)
  {
    ActivationOutcomes(AddVersion(h, v, kind, content), v, kind, w);
    hide Replay, Count, Activations, Outcomes;
  }

  lemma ActionKeepsInvariant<C>(h: History<C>, a: Action<C>)
    requires Invariant(h) && Enabled(h, a)
    ensures Invariant(Apply(h, a))
  {
    hide Replay, Count, Activations, Outcomes, Balanced, Activate, AddVersion;
    match a
    case Propose(v, kind, content) =>
      ProposeKeeps(h, v, kind, content);
      forall w ensures Balanced(Apply(h, a), w) { assert Balanced(h, w); ProposeBalances(h, v, kind, content, w); }
    case Approve =>
      ApproveKeeps(h);
      forall w ensures Balanced(Apply(h, a), w) { assert Balanced(h, w); ApproveBalances(h, w); }
    case Publish(v, kind, content) =>
      PublishKeeps(h, v, kind, content);
      forall w ensures Balanced(Apply(h, a), w) { assert Balanced(h, w); PublishBalances(h, v, kind, content, w); }
    case _ =>
      SimpleKeeps(h, a);
      forall w ensures Balanced(Apply(h, a), w) { assert Balanced(h, w); SimpleBalances(h, a, w); }
  }

  // ----- every run -------------------------------------------------------------------------------

  predicate Runs<C>(h: History<C>, actions: seq<Action<C>>)
    decreases |actions|
  {
    actions == [] || (Enabled(h, actions[0]) && Runs(Apply(h, actions[0]), actions[1..]))
  }

  function Run<C>(h: History<C>, actions: seq<Action<C>>): History<C>
    requires Runs(h, actions)
    decreases |actions|
  {
    if actions == [] then h else Run(Apply(h, actions[0]), actions[1..])
  }

  lemma {:induction false} RunKeepsInvariant<C>(h: History<C>, actions: seq<Action<C>>)
    requires Invariant(h) && Runs(h, actions)
    ensures Invariant(Run(h, actions))
    decreases |actions|
  {
    hide Invariant, Enabled, Apply;
    if actions != [] {
      ActionKeepsInvariant(h, actions[0]);
      RunKeepsInvariant(Apply(h, actions[0]), actions[1..]);
    }
  }

  /** Nothing recorded is ever taken back: `g` extends `h`. */
  ghost predicate Extends<C>(g: History<C>, h: History<C>) {
    && g.kind == h.kind && h.log <= g.log && h.now.order <= g.now.order
    && (forall v :: v in h.versions ==> v in g.versions && g.versions[v] == h.versions[v])
  }

  lemma ActionExtends<C>(h: History<C>, a: Action<C>)
    requires Enabled(h, a)
    ensures Extends(Apply(h, a), h)
  {
  }

  lemma {:induction false} HistoryOnlyGrows<C>(h: History<C>, actions: seq<Action<C>>)
    requires Runs(h, actions)
    ensures Extends(Run(h, actions), h)
    decreases |actions|
  {
    hide Enabled, Apply;
    if actions != [] {
      ActionExtends(h, actions[0]);
      HistoryOnlyGrows(Apply(h, actions[0]), actions[1..]);
    }
  }

  /** Why comparing revision numbers is enough. Suppressing, restoring and reviewing do not advance the
      number, yet if it is unchanged since a moment with no open proposal, then no review happened in
      between: the active version and every other version are the ones seen then. */
  lemma {:induction false} RevisionCheckSuffices<C>(h: History<C>, actions: seq<Action<C>>)
    requires Runs(h, actions) && h.now.proposed.None?
    requires |Run(h, actions).now.order| == |h.now.order|
    ensures var g := Run(h, actions);
      && g.now.active == h.now.active && g.now.proposed.None? && g.now.order == h.now.order
      && g.versions == h.versions
      && (g.now.status == h.now.status || {g.now.status, h.now.status} == {StatusApproved, StatusSuppressed})
    decreases |actions|
  {
    if actions != [] {
      var next := Apply(h, actions[0]);
      HistoryOnlyGrows(next, actions[1..]);
      RevisionCheckSuffices(next, actions[1..]);
    }
  }

  lemma {:induction false} CountGrows(log: seq<Entry>, longer: seq<Entry>, event: EventType, v: int)
    requires log <= longer
    ensures Count(log, event, v) <= Count(longer, event, v)
    decreases |longer|
  {
    if log != longer {
      CountGrows(log, longer[..|longer| - 1], event, v);
    } else {
      assert log == longer;
    }
  }

  /** A version that was superseded or rejected never takes effect again. */
  lemma PastVersionsStayPast<C>(h: History<C>, actions: seq<Action<C>>, v: int)
    requires Invariant(h) && Runs(h, actions)
    requires Count(h.log, EventSuperseded, v) > 0 || Count(h.log, EventRejected, v) > 0
    ensures var g := Run(h, actions);
      g.now.active != Some(v) && g.now.proposed != Some(v) && g.edge != Some(v)
  {
    var g := Run(h, actions);
    RunKeepsInvariant(h, actions);
    HistoryOnlyGrows(h, actions);
    CountGrows(h.log, g.log, EventSuperseded, v);
    CountGrows(h.log, g.log, EventRejected, v);
    hide Runs, Run, Count, Replay, Numbered, StatusFits, DeclaredFits;
    assert Balanced(g, v);
  }

  ghost predicate HasRevision<C>(h: History<C>, number: nat) {
    exists v :: v in h.versions && h.versions[v].revisionNo == number
  }

  /** The revision numbers in use are 1, 2, ... up to the latest, each used once. */
  ghost predicate Gapless<C>(h: History<C>) {
    && (forall k {:trigger HasRevision(h, k)} :: 0 <= k ==> (HasRevision(h, k) <==> 1 <= k <= |h.now.order|))
    && (forall v, w :: v in h.versions && w in h.versions && h.versions[v].revisionNo == h.versions[w].revisionNo ==> v == w)
  }

  /** A version is decided at most once, and superseded exactly once if it took effect and no longer does. */
  predicate DecidedOnce<C>(h: History<C>, v: int) {
    && Outcomes(h.log, v) <= 1
    && Count(h.log, EventSuperseded, v) == (if Activations(h.log, v) == 1 && h.now.active != Some(v) then 1 else 0)
  }

  /** Only an approved relation has an edge, and the edge is its active version, which is content. */
  predicate EdgeIsActiveContent<C>(h: History<C>) {
    && (h.edge.Some? <==> h.now.status == StatusApproved)
    && (h.edge.Some? ==>
          h.edge == h.now.active && h.edge.value in h.versions && h.versions[h.edge.value].kind == ProposalContent)
  }

  lemma InvariantNumbers<C>(h: History<C>)
    requires Invariant(h)
    ensures Gapless(h)
  {
    hide Replay, Balanced;
    forall k | 1 <= k <= |h.now.order| ensures HasRevision(h, k) {
      var v := h.now.order[k - 1];
      assert v in h.versions && h.versions[v].revisionNo == k;
    }
  }

  lemma InvariantDecides<C>(h: History<C>, v: int)
    requires Invariant(h)
    ensures DecidedOnce(h, v)
  {
    hide Replay, Count;
    assert Balanced(h, v);
  }

  /** What holds of a relation after any run from its creation. */
  lemma EveryReachableHistory<C>(kind: RelationType, v: int, content: C, actions: seq<Action<C>>)
    requires Runs(Created(kind, v, content), actions)
    ensures var h := Run(Created(kind, v, content), actions);
      && Replay(h.log) == h.now && Gapless(h) && (forall w :: DecidedOnce(h, w)) && EdgeIsActiveContent(h)
      && (kind == DeclaredForeignKey ==> h.now.proposed.None?)
  {
    var h := Run(Created(kind, v, content), actions);
    CreationEstablishesInvariant(kind, v, content);
    RunKeepsInvariant(Created(kind, v, content), actions);
    HistoryOnlyGrows(Created(kind, v, content), actions);
    InvariantNumbers(h);
    hide Runs, Run, Replay, Balanced, Gapless, DecidedOnce;
    forall w ensures DecidedOnce(h, w) { InvariantDecides(h, w); }
    assert h.kind == kind;
  }
}
