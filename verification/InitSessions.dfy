/** Relation-init sessions: numbered batches of proposals, and the reproposals they defer to completion. */
module InitSessions {
  import opened Wrappers
  import opened RelationHistory
  import opened RelationTables
  import opened RelationRepository
  import opened RelationCommands
  import opened Rules

  datatype Mode = ModeFull | ModeIncremental

  datatype SessionStatus = StatusOpen | StatusCompleted | StatusFailed | StatusCancelled

  /** `scope` is the text of the JSON object the session was begun with; it names the relations an incremental session
      is limited to. */
  datatype SessionRow = SessionRow(
    repositoryID: int, mode: Mode, sourceCommit: string, scope: string, status: SessionStatus,
    actor: string, origin: int, requestID: string)

  datatype ItemStatus = ItemCreated | ItemDeduplicated | ItemReproposed

  datatype Item = Item(relationID: int, status: ItemStatus)

  datatype BatchResult = BatchResult(batchID: int, batchNo: int, items: seq<Item>, unresolved: seq<int>)

  datatype BatchRow = BatchRow(id: int, sessionID: int, batchNo: int, key: string, digest: string, result: BatchResult)

  datatype CandidateRow = CandidateRow(batchID: int, record: ProposalRecord)

  /** Something a batch could not turn into a proposal. */
  datatype Finding = Finding(id: int, repositoryID: int, fingerprint: string, summary: string)

  datatype FindingRow = FindingRow(finding: Finding, batchID: int)

  /** Candidates and sightings are keyed by session and relation; origins map a relation to its repository; no finding
      has been resolved yet. */
  datatype SessionTables = SessionTables(
    sessions: map<int, SessionRow>, batches: seq<BatchRow>, candidates: map<(int, int), CandidateRow>,
    seen: set<(int, int)>, origins: map<int, int>, findings: map<int, FindingRow>)

  datatype InitError =
    | InvalidInit | InitNotFound | InitNotOpen | BatchConflict | IdempotencyConflict | IncompleteBatches
    | CompletionBudgetExceeded | Rejected(cause: RelationError)

  type InitOutcome<+T> = Result<T, InitError>

  // ----- batch numbers ---------------------------------------------------------------------------

  function CountOf(batches: seq<BatchRow>, x: int): nat {
    if batches == [] then 0
    else CountOf(batches[..|batches| - 1], x) + (if batches[|batches| - 1].sessionID == x then 1 else 0)
  }

  /** COALESCE(MAX(batch_no), 0) */
  function MaxNo(batches: seq<BatchRow>, x: int): int {
    if batches == [] then 0
    else
      var front, last := MaxNo(batches[..|batches| - 1], x), batches[|batches| - 1];
      if last.sessionID == x && last.batchNo > front then last.batchNo else front
  }

  ghost predicate NumberedInOrder(batches: seq<BatchRow>) {
    forall i :: 0 <= i < |batches| ==> batches[i].batchNo == CountOf(batches[..i], batches[i].sessionID) + 1
  }

  lemma {:induction false} MaximumIsCount(batches: seq<BatchRow>, x: int)
    requires NumberedInOrder(batches)
    ensures MaxNo(batches, x) == CountOf(batches, x)
  {
    if batches != [] {
      var front := batches[..|batches| - 1];
      forall i | 0 <= i < |front| ensures front[i].batchNo == CountOf(front[..i], front[i].sessionID) + 1 {
        assert front[..i] == batches[..i];
      }
      MaximumIsCount(front, x);
    }
  }

  lemma CountAppends(batches: seq<BatchRow>, b: BatchRow)
    ensures forall x :: CountOf(batches + [b], x) == CountOf(batches, x) + (if b.sessionID == x then 1 else 0)
  {
    assert (batches + [b])[..|batches|] == batches;
  }

  lemma {:induction false} BatchCountGrows(batches: seq<BatchRow>, more: seq<BatchRow>, x: int)
    requires batches <= more
    ensures CountOf(batches, x) <= CountOf(more, x)
    decreases |more|
  {
    if |batches| < |more| {
      BatchCountGrows(batches, more[..|more| - 1], x);
    } else {
      assert batches == more;
    }
  }

  // ----- findings --------------------------------------------------------------------------------

  type Findings = map<int, FindingRow>

  predicate SameFinding(a: Finding, b: Finding) {
    a.repositoryID == b.repositoryID && a.fingerprint == b.fingerprint
  }

  /** UNIQUE(repository_id, fingerprint, status) */
  predicate FindingsUnique(findings: Findings) {
    forall a, b :: a in findings && b in findings && SameFinding(findings[a].finding, findings[b].finding) ==> a == b
  }

  predicate Known(findings: Findings, f: Finding) {
    exists id :: id in findings && SameFinding(findings[id].finding, f)
  }

  /** The identifier stands for the finding. */
  predicate StandsFor(findings: Findings, id: int, f: Finding) {
    id in findings && SameFinding(findings[id].finding, f)
  }

  ghost predicate AllStandFor(findings: Findings, ids: seq<int>, fs: seq<Finding>) {
    |ids| == |fs| && forall i :: 0 <= i < |fs| ==> StandsFor(findings, ids[i], fs[i])
  }

  /** A finding is known by its repository and its fingerprint. */
  lemma StandingMeans(findings: Findings, id: int, f: Finding)
    ensures StandsFor(findings, id, f) <==>
      && id in findings && findings[id].finding.repositoryID == f.repositoryID && findings[id].finding.fingerprint == f.fingerprint
  {
  }

  /** Those not in the table yet, in order. */
  function NewFindings(findings: Findings, fs: seq<Finding>): seq<Finding> {
    if fs == [] then []
    else
      var front, last := NewFindings(findings, fs[..|fs| - 1]), fs[|fs| - 1];
      if Known(findings, last) then front else front + [last]
  }

  /** All of them can be added: none is there, and no two of them are the same. */
  predicate Insertable(findings: Findings, fs: seq<Finding>) {
    && (forall i :: 0 <= i < |fs| ==> fs[i].id > 0 && fs[i].id !in findings && !Known(findings, fs[i]))
    && (forall i, j :: 0 <= i < j < |fs| ==> fs[i].id != fs[j].id && !SameFinding(fs[i], fs[j]))
  }

  function WithFindings(findings: Findings, fs: seq<Finding>, batchID: int): Findings {
    if fs == [] then findings
    else WithFindings(findings, fs[..|fs| - 1], batchID)[fs[|fs| - 1].id := FindingRow(fs[|fs| - 1], batchID)]
  }

  lemma {:induction false} FindingsAdded(findings: Findings, fs: seq<Finding>, batchID: int)
    requires FindingsUnique(findings) && Insertable(findings, fs)
    ensures FindingsUnique(WithFindings(findings, fs, batchID))
    ensures OnlyAdded(findings, WithFindings(findings, fs, batchID), fs, batchID)
  {
    hide Insertable, SameFinding, FindingsUnique;
    if fs != [] {
      var front, last := fs[..|fs| - 1], fs[|fs| - 1];
      assert fs == front + [last];
      PartInsertable(findings, fs, |fs| - 1);
      FindingsAdded(findings, front, batchID);
      var mid := WithFindings(findings, front, batchID);
      hide WithFindings, OnlyAdded;
      LastIsNovel(findings, mid, front, last, batchID);
      OneAdded(findings, mid, front, last, batchID);
      OneUnique(mid, last, batchID);
    }
  }

  lemma LastIsNovel(findings: Findings, mid: Findings, front: seq<Finding>, last: Finding, batchID: int)
    requires OnlyAdded(findings, mid, front, batchID) && Insertable(findings, front + [last])
    ensures last.id !in mid && !Known(mid, last)
  {
    var fs := front + [last];
    assert fs[|front|] == last;
    forall id | id in mid ensures id != last.id && !SameFinding(mid[id].finding, last) {
      if id !in findings {
        var i :| 0 <= i < |front| && front[i].id == id;
        assert fs[i] == front[i];
      }
    }
  }

  lemma OneUnique(mid: Findings, last: Finding, batchID: int)
    requires FindingsUnique(mid) && last.id !in mid && !Known(mid, last)
    ensures FindingsUnique(mid[last.id := FindingRow(last, batchID)])
  {
  }

  /** The table with these findings added and nothing else changed. */
  ghost predicate OnlyAdded(findings: Findings, more: Findings, fs: seq<Finding>, batchID: int) {
    && (forall id :: id in more <==> id in findings || exists i :: 0 <= i < |fs| && fs[i].id == id)
    && (forall id :: id in findings ==> more[id] == findings[id])
    && (forall i :: 0 <= i < |fs| ==> fs[i].id in more && more[fs[i].id] == FindingRow(fs[i], batchID))
  }

  lemma OneAdded(findings: Findings, mid: Findings, front: seq<Finding>, last: Finding, batchID: int)
    requires OnlyAdded(findings, mid, front, batchID) && last.id !in mid
    ensures OnlyAdded(findings, mid[last.id := FindingRow(last, batchID)], front + [last], batchID)
  {
    var fs, more := front + [last], mid[last.id := FindingRow(last, batchID)];
    forall id ensures id in more <==> id in findings || exists i :: 0 <= i < |fs| && fs[i].id == id {
      if id in more && id !in findings {
        if id == last.id {
          assert fs[|front|].id == id;
        } else {
          var i :| 0 <= i < |front| && front[i].id == id;
          assert fs[i].id == id;
        }
      }
      if i :| 0 <= i < |fs| && fs[i].id == id { assert i < |front| ==> front[i].id == id; }
    }
  }

  /** The next finding can be added exactly when nothing added before is in its way. */
  lemma NextInsertable(findings: Findings, fs: seq<Finding>, batchID: int, i: nat)
    requires FindingsUnique(findings) && i < |fs| && Insertable(findings, fs[..i])
    requires forall j :: 0 <= j < |fs| ==> !Known(findings, fs[j])
    ensures var mid := WithFindings(findings, fs[..i], batchID);
      Insertable(findings, fs[..i + 1]) <==> fs[i].id > 0 && fs[i].id !in mid && !Known(mid, fs[i])
  {
    FindingsAdded(findings, fs[..i], batchID);
    var mid := WithFindings(findings, fs[..i], batchID);
    assert fs[..i + 1] == fs[..i] + [fs[i]];
    hide WithFindings, FindingsUnique, Known, Insertable, OnlyAdded;
    if fs[i].id > 0 && fs[i].id !in mid && !Known(mid, fs[i]) {
      NovelIsInsertable(findings, mid, fs[..i], fs[i], batchID);
    }
    if Insertable(findings, fs[..i + 1]) {
      LastIsNovel(findings, mid, fs[..i], fs[i], batchID);
      assert fs[i].id > 0 by { LastIsPositive(findings, fs[..i], fs[i]); }
    }
  }

  lemma LastIsPositive(findings: Findings, front: seq<Finding>, last: Finding)
    requires Insertable(findings, front + [last])
    ensures last.id > 0
  {
    assert (front + [last])[|front|] == last;
  }

  lemma NovelIsInsertable(findings: Findings, mid: Findings, front: seq<Finding>, last: Finding, batchID: int)
    requires OnlyAdded(findings, mid, front, batchID) && Insertable(findings, front)
    requires last.id > 0 && last.id !in mid && !Known(mid, last)
    ensures Insertable(findings, front + [last])
  {
    forall j | 0 <= j < |front| ensures front[j].id != last.id && !SameFinding(front[j], last) {
      assert front[j].id in mid && mid[front[j].id].finding == front[j];
    }
    assert !Known(findings, last) by {
      assert forall id :: id in findings ==> id in mid && mid[id] == findings[id];
    }
  }

  lemma {:induction false} NewAreUnknown(findings: Findings, fs: seq<Finding>)
    ensures forall j :: 0 <= j < |NewFindings(findings, fs)| ==> !Known(findings, NewFindings(findings, fs)[j])
    ensures forall f :: f in NewFindings(findings, fs) <==> f in fs && !Known(findings, f)
  {
    if fs != [] {
      NewAreUnknown(findings, fs[..|fs| - 1]);
      assert fs == fs[..|fs| - 1] + [fs[|fs| - 1]];
    }
  }

  /** The first of these cannot be added, so neither can all. */
  lemma PartInsertable(findings: Findings, fs: seq<Finding>, i: nat)
    requires i <= |fs| && Insertable(findings, fs)
    ensures Insertable(findings, fs[..i])
  {
  }

  /** The identifiers are new. */
  predicate NewIDs(findings: Findings, fs: seq<Finding>) {
    && (forall i :: 0 <= i < |fs| ==> fs[i].id > 0 && fs[i].id !in findings)
    && (forall i, j :: 0 <= i < j < |fs| ==> fs[i].id != fs[j].id)
  }

  /** No finding is reported twice unless it is in the table already. */
  predicate ReportedOnce(findings: Findings, fs: seq<Finding>) {
    forall i, j :: 0 <= i < j < |fs| && SameFinding(fs[i], fs[j]) ==> Known(findings, fs[i])
  }

  /** Under new identifiers, the new findings of a batch can be stored exactly when none of them is reported twice. */
  lemma {:induction false} StoredUnlessTwice(findings: Findings, fs: seq<Finding>)
    requires NewIDs(findings, fs)
    ensures Insertable(findings, NewFindings(findings, fs)) <==> ReportedOnce(findings, fs)
  {
    if fs != [] {
      var front, last := fs[..|fs| - 1], fs[|fs| - 1];
      assert fs == front + [last];
      StoredUnlessTwice(findings, front);
      NewAreUnknown(findings, front);
      var novel := NewFindings(findings, front);
      assert forall f :: f in novel ==> f in front && f.id != last.id;
      hide NewFindings;
      OnceMore(findings, front, last);
      if !Known(findings, last) { OneMoreInsertable(findings, novel, last); }
    }
  }

  lemma OnceMore(findings: Findings, front: seq<Finding>, last: Finding)
    ensures ReportedOnce(findings, front + [last]) <==>
      ReportedOnce(findings, front) && forall f :: f in front && SameFinding(f, last) ==> Known(findings, f)
  {
    var fs := front + [last];
    if ReportedOnce(findings, fs) {
      assert forall i, j :: 0 <= i < j < |front| ==> fs[i] == front[i] && fs[j] == front[j];
      forall f | f in front && SameFinding(f, last) ensures Known(findings, f) {
        var i :| 0 <= i < |front| && front[i] == f;
        assert fs[i] == f && fs[|front|] == last;
      }
    }
  }

  lemma OneMoreInsertable(findings: Findings, novel: seq<Finding>, last: Finding)
    requires last.id > 0 && last.id !in findings && !Known(findings, last) && forall f :: f in novel ==> f.id != last.id
    ensures Insertable(findings, novel + [last]) <==>
      Insertable(findings, novel) && forall f :: f in novel ==> !SameFinding(f, last)
  {
    var more := novel + [last];
    if Insertable(findings, more) {
      PartInsertable(findings, more, |novel|);
      assert more[..|novel|] == novel;
      forall f | f in novel ensures !SameFinding(f, last) {
        var i :| 0 <= i < |novel| && novel[i] == f;
        assert more[i] == f && more[|novel|] == last;
      }
    }
  }

  // ----- invariant and evolution -----------------------------------------------------------------

  /** Batches are numbered 1, 2, ... per session and known by their keys, and every candidate names a relation its
      session has seen. */
  ghost predicate SessionsSound(s: SessionTables) {
    && NumberedInOrder(s.batches)
    && (forall c :: c in s.candidates ==> c in s.seen && s.candidates[c].record.relationID == c.1)
    && (forall x, y :: x in s.sessions && y in s.sessions && SameRequest(s.sessions[x], s.sessions[y]) ==> x == y)
    && KeysUnique(s.batches) && FindingsUnique(s.findings)
  }

  /** UNIQUE(session_id, idempotency_key) */
  ghost predicate KeysUnique(batches: seq<BatchRow>) {
    forall i, j :: 0 <= i < j < |batches| ==> !(batches[i].sessionID == batches[j].sessionID && batches[i].key == batches[j].key)
  }

  /** UNIQUE(actor, origin, request_id) */
  predicate SameRequest(a: SessionRow, b: SessionRow) {
    a.actor == b.actor && a.origin == b.origin && a.requestID == b.requestID
  }

  predicate SameTerms(a: SessionRow, b: SessionRow) {
    a.repositoryID == b.repositoryID && a.mode == b.mode && a.sourceCommit == b.sourceCommit && a.scope == b.scope
  }

  /** Deferred proposals are for reviewed relations, and their rules are accepted. */
  predicate Reviewable(s: SessionTables, histories: map<int, RuleHistory>) {
    forall c :: c in s.candidates ==> IsReviewed(histories, c.1) && AcceptedRule(s.candidates[c].record.rule)
  }

  predicate IsReviewed(histories: map<int, RuleHistory>, r: int) {
    r in histories && histories[r].kind == ConditionalValueCopy
  }

  ghost predicate HistoriesExtend(before: map<int, RuleHistory>, after: map<int, RuleHistory>) {
    forall r :: r in before ==> r in after && Extends(after[r], before[r])
  }

  /** Whatever other transactions do to the relations, the deferred proposals stay reviewable. */
  lemma StaysReviewable(s: SessionTables, before: map<int, RuleHistory>, after: map<int, RuleHistory>)
    requires Reviewable(s, before) && HistoriesExtend(before, after)
    ensures Reviewable(s, after)
  {
    hide AcceptedRule;
    forall c | c in s.candidates ensures IsReviewed(after, c.1) && AcceptedRule(s.candidates[c].record.rule) {
      assert IsReviewed(before, c.1);
      assert Extends(after[c.1], before[c.1]);
    }
  }

  ghost predicate SameSession(s: SessionTables, u: SessionTables, x: int) {
    && (forall r :: (x, r) in u.seen ==> (x, r) in s.seen)
    && (forall r :: (x, r) in u.candidates ==> (x, r) in s.candidates)
  }

  predicate SessionAdvances(a: SessionRow, b: SessionRow) {
    b == a.(status := b.status) && (a.status != StatusOpen ==> b.status == a.status)
  }

  /** What any run of session transactions does: rows are only added, a closed session stays closed, and a
      session with no new batch has no new sightings and no new candidates. */
  ghost predicate Evolves(s: SessionTables, u: SessionTables) {
    && s.batches <= u.batches && s.seen <= u.seen
    && (forall c :: c in s.candidates ==> c in u.candidates && u.candidates[c] == s.candidates[c])
    && (forall x :: x in s.sessions ==> x in u.sessions && SessionAdvances(s.sessions[x], u.sessions[x]))
    && (forall x :: CountOf(u.batches, x) == CountOf(s.batches, x) ==> SameSession(s, u, x))
    && (forall f :: f in s.findings ==> f in u.findings && u.findings[f] == s.findings[f])
  }

  lemma EvolvesIsReflexive(s: SessionTables)
    ensures Evolves(s, s)
  {
  }

  lemma EvolutionsCompose(s: SessionTables, t: SessionTables, u: SessionTables)
    requires Evolves(s, t) && Evolves(t, u)
    ensures Evolves(s, u)
  {
    forall x | x in s.sessions ensures x in u.sessions && SessionAdvances(s.sessions[x], u.sessions[x]) {
      assert SessionAdvances(s.sessions[x], t.sessions[x]) && SessionAdvances(t.sessions[x], u.sessions[x]);
    }
    forall x | CountOf(u.batches, x) == CountOf(s.batches, x) ensures SameSession(s, u, x) {
      BatchCountGrows(s.batches, t.batches, x);
      BatchCountGrows(t.batches, u.batches, x);
      assert SameSession(s, t, x) && SameSession(t, u, x);
    }
  }

  function GetSession(s: SessionTables, x: int): InitOutcome<SessionRow> {
    if x !in s.sessions then Failure(InitNotFound) else Success(s.sessions[x])
  }

  function CandidateKeys(s: SessionTables, x: int): set<int> {
    set c | c in s.candidates && c.0 == x :: c.1
  }

  function SeenKeys(s: SessionTables, x: int): set<int> {
    set c | c in s.seen && c.0 == x :: c.1
  }

  /** If the number of batches is the same at two moments, nothing was seen or deferred in between. */
  lemma EqualCountsMeanNoBatch(s: SessionTables, u: SessionTables, x: int)
    requires Evolves(s, u) && CountOf(s.batches, x) == CountOf(u.batches, x)
    ensures SeenKeys(u, x) == SeenKeys(s, x) && CandidateKeys(u, x) == CandidateKeys(s, x)
    ensures forall r :: r in CandidateKeys(s, x) ==> u.candidates[(x, r)] == s.candidates[(x, r)]
  {
    assert SameSession(s, u, x);
    forall r ensures r in SeenKeys(u, x) <==> r in SeenKeys(s, x) {
      assert r in SeenKeys(u, x) <==> (x, r) in u.seen;
      assert r in SeenKeys(s, x) <==> (x, r) in s.seen;
    }
    forall r ensures r in CandidateKeys(u, x) <==> r in CandidateKeys(s, x) {
      assert r in CandidateKeys(u, x) <==> (x, r) in u.candidates;
      assert r in CandidateKeys(s, x) <==> (x, r) in s.candidates;
    }
  }

  // ----- accepting a batch -----------------------------------------------------------------------

  datatype BatchRecord = BatchRecord(
    batchID: int, sessionID: int, batchNo: int, key: string, digest: string, proposals: seq<ProposalRecord>,
    unresolved: seq<Finding>)

  /** Proposals put off until completion: each names a reviewed relation the session has not deferred yet. */
  ghost predicate Deferrable(s: SessionTables, x: int, deferred: seq<ProposalRecord>, histories: map<int, RuleHistory>) {
    && (forall i :: 0 <= i < |deferred| ==> IsReviewed(histories, deferred[i].relationID) && (x, deferred[i].relationID) !in s.candidates)
    && (forall i :: 0 <= i < |deferred| ==> AcceptedRule(deferred[i].rule))
    && (forall i, j :: 0 <= i < j < |deferred| ==> deferred[i].relationID != deferred[j].relationID)
  }

  predicate IsOpen(s: SessionTables, x: int) {
    x in s.sessions && s.sessions[x].status == StatusOpen
  }

  predicate Names(b: BatchRow, record: BatchRecord) {
    b.sessionID == record.sessionID && b.key == record.key
  }

  predicate Repeats(s: SessionTables, record: BatchRecord) {
    exists i :: 0 <= i < |s.batches| && Names(s.batches[i], record)
  }

  /** What a repeated batch is answered: what it was answered the first time, if its content is the same. */
  ghost predicate AnsweredAgain(s: SessionTables, record: BatchRecord, r: InitOutcome<BatchResult>) {
    forall i :: 0 <= i < |s.batches| && Names(s.batches[i], record) ==>
      r == if s.batches[i].digest == record.digest then Success(s.batches[i].result) else Failure(IdempotencyConflict)
  }

  lemma KeyNamesBatch(s: SessionTables, record: BatchRecord, i: nat)
    requires SessionsSound(s) && i < |s.batches| && Names(s.batches[i], record)
    ensures forall j :: 0 <= j < |s.batches| && Names(s.batches[j], record) ==> j == i
  {
  }

  lemma NumberWithinCount(s: SessionTables, i: nat)
    requires SessionsSound(s) && i < |s.batches|
    ensures s.batches[i].batchNo <= CountOf(s.batches, s.batches[i].sessionID)
  {
    var x := s.batches[i].sessionID;
    assert s.batches[..i + 1][..i] == s.batches[..i];
    BatchCountGrows(s.batches[..i + 1], s.batches, x);
  }

  /** The item stands for the relation with the fingerprint of its proposal. */
  predicate Stands(t: Tables, proposal: ProposalRecord, item: Item) {
    item.relationID in t.relations && t.relations[item.relationID].fingerprint == proposal.fingerprint
  }

  ghost predicate AllStand(t: Tables, proposals: seq<ProposalRecord>, items: seq<Item>) {
    |items| <= |proposals| && forall i :: 0 <= i < |items| ==> Stands(t, proposals[i], items[i])
  }

  /** An item is marked as created exactly when it is the first to name a relation that was not there before. */
  predicate MarkedFirst(known: set<int>, items: seq<Item>, i: nat)
    requires i < |items|
  {
    items[i].status == ItemCreated <==> items[i].relationID !in known && forall j :: 0 <= j < i ==> items[j].relationID != items[i].relationID
  }

  ghost predicate CreationsMarked(known: set<int>, items: seq<Item>, relations: set<int>) {
    && known <= relations
    && (forall i :: 0 <= i < |items| ==> items[i].relationID in relations && MarkedFirst(known, items, i))
    && (forall q :: q in relations && q !in known ==> Listed(items, q))
  }

  lemma OneMoreItem(
    t: Tables, u: Tables, proposals: seq<ProposalRecord>, items: seq<Item>, item: Item,
    known: set<int>, relations: set<int>, more: set<int>)
    requires |items| < |proposals| && AllStand(t, proposals, items) && CreationsMarked(known, items, relations)
    requires forall q :: q in t.relations ==> q in u.relations && u.relations[q] == t.relations[q]
    requires Stands(u, proposals[|items|], item) && more == relations + {item.relationID}
    requires item.status == ItemCreated <==> item.relationID !in relations
    ensures AllStand(u, proposals, items + [item]) && CreationsMarked(known, items + [item], more)
  {
    var next := items + [item];
    forall i | 0 <= i < |next| ensures Stands(u, proposals[i], next[i]) {
      if i < |items| { assert Stands(t, proposals[i], items[i]); }
    }
    forall q | q in more && q !in known ensures Listed(next, q) {
      if q == item.relationID {
        assert next[|items|].relationID == q;
      } else {
        assert Listed(items, q);
        var j :| 0 <= j < |items| && items[j].relationID == q;
        assert next[j].relationID == q;
      }
    }
    forall i | 0 <= i < |next| ensures MarkedFirst(known, next, i) {
      if i < |items| {
        assert MarkedFirst(known, items, i);
        assert forall j :: 0 <= j < i ==> next[j] == items[j];
      } else {
        LastMarked(known, items, item, relations);
      }
    }
  }

  lemma NothingMarked(t: Tables, proposals: seq<ProposalRecord>, known: set<int>)
    ensures AllStand(t, proposals, []) && CreationsMarked(known, [], known)
  {
  }

  lemma SameRelations(t: Tables, histories: map<int, RuleHistory>)
    requires Coupled(t, histories)
    ensures t.relations.Keys == histories.Keys
  {
    hide Sound;
  }

  lemma LastMarked(known: set<int>, items: seq<Item>, item: Item, relations: set<int>)
    requires CreationsMarked(known, items, relations)
    requires item.status == ItemCreated <==> item.relationID !in relations
    ensures MarkedFirst(known, items + [item], |items|)
  {
    var next := items + [item];
    if item.relationID in relations && item.relationID !in known {
      assert Listed(items, item.relationID);
      var j :| 0 <= j < |items| && items[j].relationID == item.relationID;
      assert next[j].relationID == item.relationID;
    } else if item.relationID !in relations {
      forall j | 0 <= j < |items| ensures next[j].relationID != item.relationID { assert items[j].relationID in relations; }
    }
  }

  predicate ItemsKnown(items: seq<Item>, histories: map<int, RuleHistory>) {
    forall i :: 0 <= i < |items| ==> items[i].relationID in histories
  }

  predicate DeferredAreItems(deferred: seq<ProposalRecord>, items: seq<Item>) {
    forall i :: 0 <= i < |deferred| ==> Listed(items, deferred[i].relationID)
  }

  predicate Scheduled(deferred: seq<ProposalRecord>, r: int) {
    exists i :: 0 <= i < |deferred| && deferred[i].relationID == r
  }

  /** Every item marked as reproposed has been deferred. */
  predicate ItemsScheduled(items: seq<Item>, deferred: seq<ProposalRecord>) {
    forall i :: 0 <= i < |items| && items[i].status == ItemReproposed ==> Scheduled(deferred, items[i].relationID)
  }

  lemma OneMoreScheduled(items: seq<Item>, item: Item, deferred: seq<ProposalRecord>, next: seq<ProposalRecord>)
    requires ItemsScheduled(items, deferred) && deferred <= next
    requires item.status == ItemReproposed ==> Scheduled(next, item.relationID)
    ensures ItemsScheduled(items + [item], next)
  {
    forall r | Scheduled(deferred, r) ensures Scheduled(next, r) {
      var i :| 0 <= i < |deferred| && deferred[i].relationID == r;
      assert next[i].relationID == r;
    }
  }

  /** What the session remembers of the items of a batch. */
  predicate ItemsRecorded(s: SessionTables, x: int, items: seq<Item>) {
    forall i :: 0 <= i < |items| ==>
      && (x, items[i].relationID) in s.seen && items[i].relationID in s.origins
      && (items[i].status == ItemReproposed ==> (x, items[i].relationID) in s.candidates)
  }

  // ----- what becomes of each proposal of a batch ------------------------------------------------

  predicate HistoriesKept(before: map<int, RuleHistory>, after: map<int, RuleHistory>) {
    forall r :: r in before ==> r in after && after[r] == before[r]
  }

  /** An item for this relation has been marked as reproposed. */
  predicate Reproposes(items: seq<Item>, r: int) {
    exists j :: 0 <= j < |items| && items[j] == Item(r, ItemReproposed)
  }

  ghost predicate Invalidated(histories: map<int, RuleHistory>, r: int, proposal: ProposalRecord) {
    r in histories && Invariant(histories[r]) && PrepareReproposal(RelationOf(histories[r], r), proposal).Some?
  }

  /** A created relation begins with its proposal. One that was there is reproposed exactly when it had been invalidated
      or rejected, and the session has not deferred it yet. */
  ghost predicate ItemJudged(
    s: SessionTables, x: int, histories: map<int, RuleHistory>, proposal: ProposalRecord, earlier: seq<Item>, item: Item)
  {
    && item.relationID in histories
    && (item.status == ItemCreated ==>
          item.relationID == proposal.relationID && histories[item.relationID] == CreatedBy(proposal))
    && (item.status != ItemCreated ==>
         (item.status == ItemReproposed <==>
            Invalidated(histories, item.relationID, proposal)
            && (x, item.relationID) !in s.candidates && !Reproposes(earlier, item.relationID)))
  }

  ghost predicate Judged(
    s: SessionTables, x: int, histories: map<int, RuleHistory>, proposals: seq<ProposalRecord>, items: seq<Item>)
  {
    |items| <= |proposals| && forall i :: 0 <= i < |items| ==> ItemJudged(s, x, histories, proposals[i], items[..i], items[i])
  }

  /** What is deferred is the reproposal prepared for an item that is marked so. */
  ghost predicate DeferredFrom(histories: map<int, RuleHistory>, proposals: seq<ProposalRecord>, items: seq<Item>, d: ProposalRecord) {
    exists i :: 0 <= i < |items| && i < |proposals| && PreparedFor(histories, proposals[i], items[i], d)
  }

  ghost predicate PreparedFor(histories: map<int, RuleHistory>, proposal: ProposalRecord, item: Item, d: ProposalRecord) {
    && item == Item(d.relationID, ItemReproposed) && Invalidated(histories, d.relationID, proposal)
    && PrepareReproposal(RelationOf(histories[d.relationID], d.relationID), proposal) == Some(d)
  }

  ghost predicate AllDeferred(
    histories: map<int, RuleHistory>, proposals: seq<ProposalRecord>, items: seq<Item>, deferred: seq<ProposalRecord>)
  {
    && (forall k :: 0 <= k < |deferred| ==> DeferredFrom(histories, proposals, items, deferred[k]))
    && (forall r :: Reproposes(items, r) ==> Scheduled(deferred, r))
  }

  lemma NothingJudged(s: SessionTables, x: int, histories: map<int, RuleHistory>, proposals: seq<ProposalRecord>)
    ensures Judged(s, x, histories, proposals, []) && AllDeferred(histories, proposals, [], [])
  {
  }

  lemma ReproposesMore(items: seq<Item>, item: Item, r: int)
    ensures Reproposes(items + [item], r) <==> Reproposes(items, r) || item == Item(r, ItemReproposed)
  {
    var more := items + [item];
    assert more[|items|] == item;
    if Reproposes(items, r) {
      var j :| 0 <= j < |items| && items[j] == Item(r, ItemReproposed);
      assert more[j] == items[j];
    }
  }

  lemma DeferredAreReproposed(
    histories: map<int, RuleHistory>, proposals: seq<ProposalRecord>, items: seq<Item>, deferred: seq<ProposalRecord>, r: int)
    requires AllDeferred(histories, proposals, items, deferred)
    ensures Scheduled(deferred, r) <==> Reproposes(items, r)
  {
    if Scheduled(deferred, r) {
      var k :| 0 <= k < |deferred| && deferred[k].relationID == r;
      assert DeferredFrom(histories, proposals, items, deferred[k]);
      var i :| 0 <= i < |items| && i < |proposals| && PreparedFor(histories, proposals[i], items[i], deferred[k]);
    }
  }

  lemma JudgedMore(
    s: SessionTables, x: int, before: map<int, RuleHistory>, after: map<int, RuleHistory>, proposals: seq<ProposalRecord>,
    items: seq<Item>, item: Item)
    requires Judged(s, x, before, proposals, items) && HistoriesKept(before, after) && |items| < |proposals|
    requires ItemJudged(s, x, after, proposals[|items|], items, item)
    ensures Judged(s, x, after, proposals, items + [item])
  {
    var more := items + [item];
    hide Reproposes, ItemJudged;
    forall i | 0 <= i < |more| ensures ItemJudged(s, x, after, proposals[i], more[..i], more[i]) {
      if i < |items| {
        assert more[..i] == items[..i];
        assert ItemJudged(s, x, before, proposals[i], items[..i], items[i]);
        JudgedStays(s, x, before, after, proposals[i], items[..i], items[i]);
      } else {
        assert more[..i] == items;
      }
    }
  }

  /** What `ConsiderExisting` decides is the judgment on the item. */
  lemma ExistingJudged(
    s: SessionTables, x: int, histories: map<int, RuleHistory>, proposal: ProposalRecord, items: seq<Item>, r: int,
    status: ItemStatus, deferred: seq<ProposalRecord>, next: seq<ProposalRecord>)
    requires r in histories && Invariant(histories[r]) && (Scheduled(deferred, r) <==> Reproposes(items, r))
    requires status == ItemReproposed || (status == ItemDeduplicated && next == deferred)
    requires status == ItemReproposed <==>
      PrepareReproposal(RelationOf(histories[r], r), proposal).Some? && (x, r) !in s.candidates && !Scheduled(deferred, r)
    requires status == ItemReproposed ==>
      |next| == |deferred| + 1 && next[..|deferred|] == deferred && next[|deferred|].relationID == r
      && PrepareReproposal(RelationOf(histories[r], r), proposal) == Some(next[|deferred|])
    ensures ItemJudged(s, x, histories, proposal, items, Item(r, status))
    ensures status == ItemReproposed ==> PreparedFor(histories, proposal, Item(r, status), next[|deferred|])
  {
    hide Invariant, Scheduled, Reproposes, PrepareReproposal;
  }

  lemma CreatedJudged(
    s: SessionTables, x: int, before: map<int, RuleHistory>, after: map<int, RuleHistory>, proposal: ProposalRecord, items: seq<Item>)
    requires proposal.relationID !in before && after == before[proposal.relationID := CreatedBy(proposal)]
    ensures HistoriesKept(before, after)
    ensures ItemJudged(s, x, after, proposal, items, Item(proposal.relationID, ItemCreated))
  {
  }

  lemma JudgedStays(
    s: SessionTables, x: int, before: map<int, RuleHistory>, after: map<int, RuleHistory>, proposal: ProposalRecord,
    earlier: seq<Item>, item: Item)
    requires ItemJudged(s, x, before, proposal, earlier, item) && HistoriesKept(before, after)
    ensures ItemJudged(s, x, after, proposal, earlier, item)
  {
    hide Reproposes, Invariant, CreatedBy;
  }

  lemma DeferredMore(
    before: map<int, RuleHistory>, after: map<int, RuleHistory>, proposals: seq<ProposalRecord>, items: seq<Item>, item: Item,
    deferred: seq<ProposalRecord>, next: seq<ProposalRecord>)
    requires AllDeferred(before, proposals, items, deferred) && HistoriesKept(before, after) && |items| < |proposals|
    requires if item.status == ItemReproposed
             then |next| == |deferred| + 1 && next[..|deferred|] == deferred
                  && PreparedFor(after, proposals[|items|], item, next[|deferred|])
             else next == deferred
    ensures AllDeferred(after, proposals, items + [item], next)
  {
    var more := items + [item];
    hide Invalidated;
    forall k | 0 <= k < |next| ensures DeferredFrom(after, proposals, more, next[k]) {
      if k < |deferred| {
        assert next[k] == next[..|deferred|][k];
        assert DeferredFrom(before, proposals, items, deferred[k]);
        var i :| 0 <= i < |items| && i < |proposals| && PreparedFor(before, proposals[i], items[i], deferred[k]);
        PreparedStays(before, after, proposals[i], items[i], deferred[k]);
        assert more[i] == items[i];
      } else {
        assert more[|items|] == item;
      }
    }
    hide DeferredFrom;
    forall r | Reproposes(more, r) ensures Scheduled(next, r) {
      ReproposesMore(items, item, r);
      if Reproposes(items, r) {
        assert Scheduled(deferred, r);
        var i :| 0 <= i < |deferred| && deferred[i].relationID == r;
        assert next[..|deferred|] == deferred ==> next[i] == next[..|deferred|][i];
        assert next[i].relationID == r;
      } else {
        assert next[|deferred|].relationID == r;
      }
    }
  }

  lemma PreparedStays(
    before: map<int, RuleHistory>, after: map<int, RuleHistory>, proposal: ProposalRecord, item: Item, d: ProposalRecord)
    requires PreparedFor(before, proposal, item, d) && HistoriesKept(before, after)
    ensures PreparedFor(after, proposal, item, d)
  {
    hide Invariant;
  }

  predicate Listed(items: seq<Item>, r: int) {
    exists j :: 0 <= j < |items| && items[j].relationID == r
  }

  lemma CreationExtends(hs: map<int, RuleHistory>, r: int, g: RuleHistory)
    requires r !in hs
    ensures HistoriesExtend(hs, hs[r := g])
  {
  }

  lemma ExtensionsCompose(a: map<int, RuleHistory>, b: map<int, RuleHistory>, c: map<int, RuleHistory>)
    requires HistoriesExtend(a, b) && HistoriesExtend(b, c)
    ensures HistoriesExtend(a, c)
  {
    forall r | r in a ensures r in c && Extends(c[r], a[r]) {
      assert Extends(b[r], a[r]) && Extends(c[r], b[r]);
    }
  }

  lemma DeferrableStays(
    s: SessionTables, x: int, deferred: seq<ProposalRecord>, items: seq<Item>, before: map<int, RuleHistory>, after: map<int, RuleHistory>)
    requires Deferrable(s, x, deferred, before) && ItemsKnown(items, before) && HistoriesExtend(before, after)
    ensures Deferrable(s, x, deferred, after) && ItemsKnown(items, after)
  {
    forall i | 0 <= i < |deferred| ensures IsReviewed(after, deferred[i].relationID) {
      assert IsReviewed(before, deferred[i].relationID);
      assert Extends(after[deferred[i].relationID], before[deferred[i].relationID]);
    }
  }

  /** The deferrals of one more proposal. */
  lemma DeferOne(s: SessionTables, x: int, deferred: seq<ProposalRecord>, histories: map<int, RuleHistory>, d: ProposalRecord)
    requires Deferrable(s, x, deferred, histories) && IsReviewed(histories, d.relationID) && (x, d.relationID) !in s.candidates
    requires AcceptedRule(d.rule)
    requires forall i :: 0 <= i < |deferred| ==> deferred[i].relationID != d.relationID
    ensures Deferrable(s, x, deferred + [d], histories)
  {
  }

  lemma NothingYetDeferred(s: SessionTables, x: int, histories: map<int, RuleHistory>)
    ensures Deferrable(s, x, [], histories) && HistoriesExtend(histories, histories)
  {
  }

  lemma DeferredStayItems(deferred: seq<ProposalRecord>, items: seq<Item>, next: seq<ProposalRecord>, more: seq<Item>)
    requires DeferredAreItems(deferred, items) && |more| == |items| + 1 && more[..|items|] == items
    requires next == deferred
      || (|next| == |deferred| + 1 && next[..|deferred|] == deferred && next[|deferred|].relationID == more[|items|].relationID)
    ensures DeferredAreItems(next, more)
  {
    assert forall j :: 0 <= j < |items| ==> more[j] == more[..|items|][j];
    forall i | 0 <= i < |next| ensures Listed(more, next[i].relationID) {
      if i < |deferred| {
        assert next[i] == next[..|deferred|][i];
        assert Listed(items, deferred[i].relationID);
        var j :| 0 <= j < |items| && items[j].relationID == deferred[i].relationID;
        assert more[j] == items[j];
      } else {
        assert more[|items|].relationID == next[i].relationID;
      }
    }
  }

  lemma CreatedIsNew(
    first: map<int, RuleHistory>, hs: map<int, RuleHistory>, after: map<int, RuleHistory>, r: int, g: RuleHistory)
    requires HistoriesExtend(first, hs) && r !in hs && after == hs[r := g]
    ensures HistoriesExtend(hs, after) && HistoriesExtend(first, after)
  {
    CreationExtends(hs, r, g);
    ExtensionsCompose(first, hs, after);
  }

  /** Each deferral became a candidate; existing candidates stayed. */
  ghost predicate CandidatesAdded(s: SessionTables, u: SessionTables, x: int, batchID: int, deferred: seq<ProposalRecord>) {
    && (forall c :: c in s.candidates ==> c in u.candidates && u.candidates[c] == s.candidates[c])
    && (forall c :: c in u.candidates && c !in s.candidates ==> c.0 == x && u.candidates[c].batchID == batchID)
    && (forall c :: c in u.candidates && c !in s.candidates ==>
          exists i :: 0 <= i < |deferred| && c.1 == deferred[i].relationID && u.candidates[c].record == deferred[i])
    && (forall i :: 0 <= i < |deferred| ==> (x, deferred[i].relationID) in u.candidates)
  }

  lemma OneCandidate(
    s: SessionTables, mid: SessionTables, u: SessionTables, x: int, batchID: int, deferred: seq<ProposalRecord>, d: ProposalRecord)
    requires CandidatesAdded(s, mid, x, batchID, deferred)
    requires (x, d.relationID) in mid.candidates ==> u == mid
    requires (x, d.relationID) !in mid.candidates ==>
      u.candidates == mid.candidates[(x, d.relationID) := CandidateRow(batchID, d)]
    ensures CandidatesAdded(s, u, x, batchID, deferred + [d])
  {
    var more := deferred + [d];
    forall c | c in u.candidates && c !in s.candidates
      ensures exists i :: 0 <= i < |more| && c.1 == more[i].relationID && u.candidates[c].record == more[i]
    {
      if c in mid.candidates {
        var i :| 0 <= i < |deferred| && c.1 == deferred[i].relationID && mid.candidates[c].record == deferred[i];
        assert more[i] == deferred[i];
      } else {
        assert more[|deferred|] == d;
      }
    }
  }

  ghost predicate SeenAdded(s: SessionTables, u: SessionTables, x: int, items: seq<Item>) {
    forall c :: c in u.seen <==> c in s.seen || (c.0 == x && Listed(items, c.1))
  }

  /** The relations of the items that had no origin now come from this repository. */
  ghost predicate OriginsAdded(s: SessionTables, u: SessionTables, repositoryID: int, items: seq<Item>) {
    && (forall r :: r in u.origins <==> r in s.origins || Listed(items, r))
    && (forall r :: r in u.origins ==> u.origins[r] == if r in s.origins then s.origins[r] else repositoryID)
  }

  lemma SeenByOne(s: SessionTables, mid: SessionTables, u: SessionTables, x: int, repositoryID: int, items: seq<Item>, item: Item)
    requires SeenAdded(s, mid, x, items) && OriginsAdded(s, mid, repositoryID, items)
    requires u.seen == mid.seen + {(x, item.relationID)}
    requires u.origins ==
      if item.relationID in mid.origins then mid.origins else mid.origins[item.relationID := repositoryID]
    ensures SeenAdded(s, u, x, items + [item]) && OriginsAdded(s, u, repositoryID, items + [item])
  {
    forall r ensures Listed(items + [item], r) <==> Listed(items, r) || r == item.relationID { ListedByOne(items, item, r); }
  }

  lemma NothingListed(s: SessionTables, x: int, repositoryID: int)
    ensures SeenAdded(s, s, x, []) && OriginsAdded(s, s, repositoryID, [])
  {
  }

  lemma ListedByOne(items: seq<Item>, item: Item, r: int)
    ensures Listed(items + [item], r) <==> Listed(items, r) || r == item.relationID
  {
    var more := items + [item];
    if Listed(items, r) {
      var j :| 0 <= j < |items| && items[j].relationID == r;
      assert more[j].relationID == r;
    }
    assert more[|items|] == item;
  }

  lemma ItemsAreSeen(s: SessionTables, u: SessionTables, x: int, items: seq<Item>)
    requires SeenAdded(s, u, x, items)
    ensures s.seen <= u.seen && (forall c :: c in u.seen && c !in s.seen ==> c.0 == x)
    ensures forall i :: 0 <= i < |items| ==> (x, items[i].relationID) in u.seen
  {
    forall i | 0 <= i < |items| ensures (x, items[i].relationID) in u.seen { assert Listed(items, items[i].relationID); }
  }

  lemma SoundMaximum(s: SessionTables, x: int)
    requires SessionsSound(s)
    ensures MaxNo(s.batches, x) == CountOf(s.batches, x)
  {
    MaximumIsCount(s.batches, x);
  }

  /** The rows of an accepted batch keep the invariant and are a legal evolution. */
  lemma BatchAccepted(
    s: SessionTables, u: SessionTables, row: BatchRow, deferred: seq<ProposalRecord>, items: seq<Item>,
    before: map<int, RuleHistory>, after: map<int, RuleHistory>)
    requires SessionsSound(s) && Reviewable(s, before) && HistoriesExtend(before, after)
    requires u == s.(batches := s.batches + [row], candidates := u.candidates, seen := u.seen, origins := u.origins, findings := u.findings)
    requires FindingsUnique(u.findings) && forall f :: f in s.findings ==> f in u.findings && u.findings[f] == s.findings[f]
    requires row.batchNo == CountOf(s.batches, row.sessionID) + 1
    requires forall i :: 0 <= i < |s.batches| ==> !(s.batches[i].sessionID == row.sessionID && s.batches[i].key == row.key)
    requires CandidatesAdded(s, u, row.sessionID, row.id, deferred) && SeenAdded(s, u, row.sessionID, items)
    requires Deferrable(s, row.sessionID, deferred, after) && DeferredAreItems(deferred, items)
    ensures SessionsSound(u) && Reviewable(u, after) && Evolves(s, u)
  {
    StaysReviewable(s, before, after);
    RowsEvolve(s, u, row, deferred, items);
    KeysAppend(s.batches, row);
    hide HistoriesExtend, CountOf, KeysUnique, AcceptedRule, SeenAdded, FindingsUnique, Evolves;
    NumberedAppends(s.batches, row);
    hide Reviewable, Deferrable, DeferredAreItems, NumberedInOrder, IsReviewed;
    forall c | c in u.candidates
      ensures c in u.seen && u.candidates[c].record.relationID == c.1
      ensures IsReviewed(after, c.1) && AcceptedRule(u.candidates[c].record.rule)
    {
      CandidateAccepted(s, u, row.sessionID, row.id, deferred, items, after, c);
    }
    ReviewableByEach(u, after);
  }

  lemma RowsEvolve(s: SessionTables, u: SessionTables, row: BatchRow, deferred: seq<ProposalRecord>, items: seq<Item>)
    requires u == s.(batches := s.batches + [row], candidates := u.candidates, seen := u.seen, origins := u.origins, findings := u.findings)
    requires forall f :: f in s.findings ==> f in u.findings && u.findings[f] == s.findings[f]
    requires CandidatesAdded(s, u, row.sessionID, row.id, deferred) && SeenAdded(s, u, row.sessionID, items)
    ensures Evolves(s, u)
  {
    ItemsAreSeen(s, u, row.sessionID, items);
    CountAppends(s.batches, row);
    hide CountOf, SeenAdded;
    forall x | CountOf(u.batches, x) == CountOf(s.batches, x) ensures SameSession(s, u, x) {
      assert x != row.sessionID;
    }
  }

  lemma ReviewableByEach(s: SessionTables, histories: map<int, RuleHistory>)
    requires forall c :: c in s.candidates ==> IsReviewed(histories, c.1) && AcceptedRule(s.candidates[c].record.rule)
    ensures Reviewable(s, histories)
  {
    hide IsReviewed, AcceptedRule;
  }

  lemma CandidateAccepted(
    s: SessionTables, u: SessionTables, x: int, batchID: int, deferred: seq<ProposalRecord>, items: seq<Item>,
    after: map<int, RuleHistory>, c: (int, int))
    requires CandidatesAdded(s, u, x, batchID, deferred) && SeenAdded(s, u, x, items) && c in u.candidates
    requires Deferrable(s, x, deferred, after) && DeferredAreItems(deferred, items) && Reviewable(s, after)
    requires c in s.candidates ==> c in s.seen && s.candidates[c].record.relationID == c.1
    ensures c in u.seen && u.candidates[c].record.relationID == c.1
    ensures IsReviewed(after, c.1) && AcceptedRule(u.candidates[c].record.rule)
  {
    hide AcceptedRule, IsReviewed;
    if c !in s.candidates {
      var i :| 0 <= i < |deferred| && c.1 == deferred[i].relationID && u.candidates[c].record == deferred[i];
      assert Listed(items, deferred[i].relationID);
    }
  }

  lemma FindingsStand(findings: Findings, fs: seq<Finding>, ids: seq<int>, batchID: int)
    requires FindingsUnique(findings) && Insertable(findings, NewFindings(findings, fs)) && |ids| == |fs|
    requires forall i :: 0 <= i < |fs| ==>
      if Known(findings, fs[i]) then StandsFor(findings, ids[i], fs[i]) else ids[i] == fs[i].id
    ensures AllStandFor(WithFindings(findings, NewFindings(findings, fs), batchID), ids, fs)
  {
    var novel := NewFindings(findings, fs);
    FindingsAdded(findings, novel, batchID);
    NewAreUnknown(findings, fs);
    var more := WithFindings(findings, novel, batchID);
    hide Insertable, WithFindings, NewFindings;
    forall i | 0 <= i < |fs| ensures StandsFor(more, ids[i], fs[i]) {
      if !Known(findings, fs[i]) {
        assert fs[i] in novel;
        var j :| 0 <= j < |novel| && novel[j] == fs[i];
        assert more[novel[j].id] == FindingRow(novel[j], batchID);
      }
    }
  }

  lemma RowsKept(findings: Findings, more: Findings, fs: seq<Finding>, batchID: int)
    requires OnlyAdded(findings, more, fs, batchID)
    ensures forall f :: f in findings ==> f in more && more[f] == findings[f]
  {
  }

  lemma ItemsAreRecorded(
    s: SessionTables, u: SessionTables, x: int, batchID: int, repositoryID: int, deferred: seq<ProposalRecord>, items: seq<Item>)
    requires CandidatesAdded(s, u, x, batchID, deferred) && SeenAdded(s, u, x, items) && OriginsAdded(s, u, repositoryID, items)
    requires ItemsScheduled(items, deferred)
    ensures ItemsRecorded(u, x, items)
  {
    ItemsAreSeen(s, u, x, items);
    forall i | 0 <= i < |items| ensures items[i].relationID in u.origins { assert Listed(items, items[i].relationID); }
  }

  lemma KeysAppend(batches: seq<BatchRow>, row: BatchRow)
    requires KeysUnique(batches)
    requires forall i :: 0 <= i < |batches| ==> !(batches[i].sessionID == row.sessionID && batches[i].key == row.key)
    ensures KeysUnique(batches + [row])
  {
  }

  lemma NumberedAppends(batches: seq<BatchRow>, row: BatchRow)
    requires NumberedInOrder(batches) && row.batchNo == CountOf(batches, row.sessionID) + 1
    ensures NumberedInOrder(batches + [row])
  {
    var more := batches + [row];
    forall i | 0 <= i < |more| ensures more[i].batchNo == CountOf(more[..i], more[i].sessionID) + 1 {
      if i < |batches| { assert more[..i] == batches[..i]; } else { assert more[..i] == batches; }
    }
  }

  /** What an accepted batch leaves in the session tables: its relations seen, with the session's repository as their
      origin if they had none; and for each item marked as reproposed a candidate of this batch. */
  ghost predicate BatchStored(
    s: SessionTables, u: SessionTables, record: BatchRecord, items: seq<Item>, histories: map<int, RuleHistory>)
  {
    && record.sessionID in s.sessions && u.sessions == s.sessions
    && SeenAdded(s, u, record.sessionID, items)
    && OriginsAdded(s, u, s.sessions[record.sessionID].repositoryID, items)
    && Judged(s, record.sessionID, histories, record.proposals, items)
    && (forall c :: c in s.candidates ==> c in u.candidates && u.candidates[c] == s.candidates[c])
    && (forall c :: c in u.candidates && c !in s.candidates ==>
          && c.0 == record.sessionID && u.candidates[c].batchID == record.batchID && u.candidates[c].record.relationID == c.1
          && DeferredFrom(histories, record.proposals, items, u.candidates[c].record))
    && (forall r :: Reproposes(items, r) ==> (record.sessionID, r) in u.candidates)
  }

  lemma BatchIsStored(
    s: SessionTables, u: SessionTables, record: BatchRecord, deferred: seq<ProposalRecord>, items: seq<Item>,
    histories: map<int, RuleHistory>)
    requires record.sessionID in s.sessions && u.sessions == s.sessions
    requires SeenAdded(s, u, record.sessionID, items)
    requires OriginsAdded(s, u, s.sessions[record.sessionID].repositoryID, items)
    requires CandidatesAdded(s, u, record.sessionID, record.batchID, deferred)
    requires Judged(s, record.sessionID, histories, record.proposals, items)
    requires AllDeferred(histories, record.proposals, items, deferred)
    ensures BatchStored(s, u, record, items, histories)
  {
    hide SeenAdded, OriginsAdded, Judged, Reproposes, DeferredFrom;
    forall r | Reproposes(items, r) ensures (record.sessionID, r) in u.candidates {
      assert Scheduled(deferred, r);
    }
  }

  class InitRepository {
    const db: Database
    var s: SessionTables
    var repositories: set<int>

    ghost predicate Valid()
      reads this, db
    {
      db.Valid() && SessionsSound(s) && Reviewable(s, db.histories)
    }

    constructor (db: Database)
      requires db.Valid()
      ensures Valid() && this.db == db
    {
      this.db := db;
      s := SessionTables(map[], [], map[], {}, map[], map[]);
      repositories := {};
    }

    /** Repeating a request finds the session it began, as long as it asks for the same thing, the scope letter for
        letter. */
    method Begin(id: int, session: SessionRow) returns (r: InitOutcome<int>)
      requires Valid() && session.status == StatusOpen
      modifies this`s
      ensures Valid() && Evolves(old(s), s) && (r.Failure? ==> s == old(s))
      ensures r.Success? ==> r.value in s.sessions && SameRequest(s.sessions[r.value], session) && SameTerms(s.sessions[r.value], session)
      ensures r == Failure(IdempotencyConflict) <==>
        exists x :: x in old(s).sessions && SameRequest(old(s).sessions[x], session) && !SameTerms(old(s).sessions[x], session)
      ensures r.Success? && r.value in old(s).sessions ==> s == old(s)
      ensures r.Success? ==> r.value in s.sessions && var x := s.sessions[r.value];
        && x.actor == session.actor && x.origin == session.origin && x.requestID == session.requestID
        && x.repositoryID == session.repositoryID && x.mode == session.mode
        && x.sourceCommit == session.sourceCommit && x.scope == session.scope
      ensures r.Success? && r.value !in old(s).sessions ==>
        r.value == id && session.repositoryID in repositories && s == old(s).(sessions := old(s).sessions[id := session])
      ensures session.repositoryID in repositories && id !in old(s).sessions ==> r.Success? || r.error == IdempotencyConflict
    {
      hide AcceptedRule, AllAccepted, Coupled, DeclaredCoupled;
      EvolvesIsReflexive(s);
      if exists x :: x in s.sessions && SameRequest(s.sessions[x], session) {
        var x :| x in s.sessions && SameRequest(s.sessions[x], session);
        if !SameTerms(s.sessions[x], session) { return Failure(IdempotencyConflict); }
        return Success(x);
      }
      if session.repositoryID !in repositories { return Failure(InvalidInit); }
      if id in s.sessions { return Failure(Rejected(ConstraintViolated)); }
      s := s.(sessions := s.sessions[id := session]);
      return Success(id);
    }

    /** A relation that already stands for the proposal is either listed again, or deferred when it had been
        invalidated or rejected and this session has not deferred it yet. */
    method ConsiderExisting(x: int, proposal: ProposalRecord, r: int, deferred: seq<ProposalRecord>)
      returns (status: ItemStatus, next: seq<ProposalRecord>)
      requires db.Valid() && r in db.histories && Creates(proposal) && Deferrable(s, x, deferred, db.histories)
      ensures Deferrable(s, x, next, db.histories)
      ensures status == ItemDeduplicated ==> next == deferred
      ensures status == ItemReproposed <==>
        PrepareReproposal(RelationOf(db.histories[r], r), proposal).Some? && (x, r) !in s.candidates && !Scheduled(deferred, r)
      ensures status != ItemDeduplicated ==>
        status == ItemReproposed && |next| == |deferred| + 1 && next[..|deferred|] == deferred && next[|deferred|].relationID == r
        && PrepareReproposal(RelationOf(db.histories[r], r), proposal) == Some(next[|deferred|])
    {
      hide AcceptedRule, AllAccepted, Coupled, DeclaredCoupled, GetRelation;
      CurrentReads(db.t, db.histories, r);
      var current := GetRelation(db.t, r).value;
      var reproposal := PrepareReproposal(current, proposal);
      if reproposal.None? || (x, r) in s.candidates || Scheduled(deferred, r) {
        return ItemDeduplicated, deferred;
      }
      DeferOne(s, x, deferred, db.histories, reproposal.value);
      return ItemReproposed, deferred + [reproposal.value];
    }

    /** Deduplicates, defers or creates each proposal in turn. */
    method AcceptProposals(x: int, proposals: seq<ProposalRecord>)
      returns (r: InitOutcome<seq<Item>>, deferred: seq<ProposalRecord>)
      requires db.Valid() && forall i :: 0 <= i < |proposals| ==> Creates(proposals[i])
      modifies db`t, db`histories
      ensures r.Success? ==> db.Valid() && HistoriesExtend(old(db.histories), db.histories) && db.t.edges == old(db.t).edges
      ensures r.Success? ==> |r.value| == |proposals| && ItemsKnown(r.value, db.histories)
      ensures r.Success? ==> Deferrable(s, x, deferred, db.histories) && DeferredAreItems(deferred, r.value)
      ensures r.Success? ==> AllStand(db.t, proposals, r.value) && CreationsMarked(old(db.histories).Keys, r.value, db.histories.Keys)
      ensures r.Success? ==> ItemsScheduled(r.value, deferred)
      ensures r.Success? ==> HistoriesKept(old(db.histories), db.histories)
      ensures r.Success? ==>
        Judged(s, x, db.histories, proposals, r.value) && AllDeferred(db.histories, proposals, r.value, deferred)
      ensures r.Failure? ==> r.error.Rejected?
    {
      hide AcceptedRule, AllAccepted, Coupled, DeclaredCoupled, GetRelation, CreateAcceptable, Deferrable, HistoriesExtend, OnlyTouches, CreatedBy, AllStand, CreationsMarked;
      NothingJudged(s, x, db.histories, proposals);
      hide Judged, AllDeferred, ItemJudged, Invalidated, Reproposes, PreparedFor, Invariant;
      deferred := [];
      var items: seq<Item> := [];
      NothingYetDeferred(s, x, db.histories);
      NothingMarked(db.t, proposals, db.histories.Keys);
      for i := 0 to |proposals|
        invariant db.Valid() && HistoriesExtend(old(db.histories), db.histories) && db.t.edges == old(db.t).edges
        invariant |items| == i && ItemsKnown(items, db.histories)
        invariant Deferrable(s, x, deferred, db.histories) && DeferredAreItems(deferred, items)
        invariant ItemsScheduled(items, deferred) && HistoriesKept(old(db.histories), db.histories)
        invariant Judged(s, x, db.histories, proposals, items) && AllDeferred(db.histories, proposals, items, deferred)
        invariant AllStand(db.t, proposals, items) && CreationsMarked(old(db.histories).Keys, items, db.histories.Keys)
      {
        var proposal := proposals[i];
        ghost var hs, before, rows := db.histories, items, db.t;
        SameRelations(db.t, db.histories);
        if exists q :: q in db.t.relations && db.t.relations[q].fingerprint == proposal.fingerprint {
          var q :| q in db.t.relations && db.t.relations[q].fingerprint == proposal.fingerprint;
          CurrentReads(db.t, db.histories, q);
          DeferredAreReproposed(db.histories, proposals, items, deferred, q);
          var status, next := ConsiderExisting(x, proposal, q, deferred);
          ExistingJudged(s, x, db.histories, proposal, items, q, status, deferred, next);
          JudgedMore(s, x, hs, db.histories, proposals, before, Item(q, status));
          DeferredMore(hs, db.histories, proposals, before, Item(q, status), deferred, next);
          assert deferred <= next;
          assert status == ItemReproposed ==> next[|deferred|].relationID == q && Scheduled(next, q);
          OneMoreScheduled(items, Item(q, status), deferred, next);
          items := items + [Item(q, status)];
          DeferredStayItems(deferred, before, next, items);
          OneMoreItem(rows, db.t, proposals, before, Item(q, status), old(db.histories).Keys, hs.Keys, db.histories.Keys);
          deferred := next;
        } else {
          var created := db.InsertCreateProposal(proposal);
          if created.Failure? { return Failure(Rejected(created.error)), deferred; }
          CreatedIsNew(old(db.histories), hs, db.histories, proposal.relationID, CreatedBy(proposal));
          CreatedJudged(s, x, hs, db.histories, proposal, items);
          JudgedMore(s, x, hs, db.histories, proposals, before, Item(proposal.relationID, ItemCreated));
          DeferredMore(hs, db.histories, proposals, before, Item(proposal.relationID, ItemCreated), deferred, deferred);
          DeferrableStays(s, x, deferred, items, hs, db.histories);
          OneMoreScheduled(items, Item(proposal.relationID, ItemCreated), deferred, deferred);
          items := items + [Item(proposal.relationID, ItemCreated)];
          DeferredStayItems(deferred, before, deferred, items);
          OneMoreItem(rows, db.t, proposals, before, Item(proposal.relationID, ItemCreated), old(db.histories).Keys, hs.Keys, db.histories.Keys);
        }
      }
      return Success(items), deferred;
    }

    method RecordCandidates(x: int, batchID: int, deferred: seq<ProposalRecord>)
      modifies this`s
      ensures s == old(s).(candidates := s.candidates) && CandidatesAdded(old(s), s, x, batchID, deferred)
    {
      for i := 0 to |deferred|
        invariant s == old(s).(candidates := s.candidates) && CandidatesAdded(old(s), s, x, batchID, deferred[..i])
      {
        assert deferred[..i + 1] == deferred[..i] + [deferred[i]];
        ghost var mid := s;
        var c := (x, deferred[i].relationID);
        if c !in s.candidates { s := s.(candidates := s.candidates[c := CandidateRow(batchID, deferred[i])]); }
        OneCandidate(old(s), mid, s, x, batchID, deferred[..i], deferred[i]);
      }
      assert deferred[..|deferred|] == deferred;
    }

    method RecordSeen(x: int, repositoryID: int, items: seq<Item>)
      modifies this`s
      ensures s == old(s).(seen := s.seen, origins := s.origins)
      ensures SeenAdded(old(s), s, x, items) && OriginsAdded(old(s), s, repositoryID, items)
    {
      hide Listed;
      NothingListed(s, x, repositoryID);
      hide SeenAdded, OriginsAdded;
      assert items[..0] == [];
      for i := 0 to |items|
        invariant s == old(s).(seen := s.seen, origins := s.origins)
        invariant SeenAdded(old(s), s, x, items[..i]) && OriginsAdded(old(s), s, repositoryID, items[..i])
      {
        assert items[..i + 1] == items[..i] + [items[i]];
        ghost var mid := s;
        var r := items[i].relationID;
        s := s.(seen := s.seen + {(x, r)});
        if r !in s.origins { s := s.(origins := s.origins[r := repositoryID]); }
        SeenByOne(old(s), mid, s, x, repositoryID, items[..i], items[i]);
      }
      assert items[..|items|] == items;
    }

    /** What each finding is known by: the row already there, or its own identifier if it is new. */
    method ResolveFindings(fs: seq<Finding>) returns (ids: seq<int>, novel: seq<Finding>)
      ensures |ids| == |fs| && novel == NewFindings(s.findings, fs)
      ensures forall i :: 0 <= i < |fs| ==>
        if Known(s.findings, fs[i]) then StandsFor(s.findings, ids[i], fs[i]) else ids[i] == fs[i].id
    {
      ids, novel := [], [];
      for i := 0 to |fs|
        invariant |ids| == i && novel == NewFindings(s.findings, fs[..i])
        invariant forall j :: 0 <= j < i ==>
          if Known(s.findings, fs[j]) then StandsFor(s.findings, ids[j], fs[j]) else ids[j] == fs[j].id
      {
        assert fs[..i + 1][..i] == fs[..i];
        if exists id :: id in s.findings && SameFinding(s.findings[id].finding, fs[i]) {
          var id :| id in s.findings && SameFinding(s.findings[id].finding, fs[i]);
          ids := ids + [id];
        } else {
          ids, novel := ids + [fs[i].id], novel + [fs[i]];
        }
      }
      assert fs[..|fs|] == fs;
    }

    /** Adds the new findings one by one; one that is in the way of another refuses them all. */
    method RecordFindings(batchID: int, fs: seq<Finding>) returns (r: InitOutcome<()>)
      requires FindingsUnique(s.findings) && forall j :: 0 <= j < |fs| ==> !Known(s.findings, fs[j])
      modifies this`s
      ensures r.Success? <==> Insertable(old(s).findings, fs)
      ensures r.Success? ==> s == old(s).(findings := WithFindings(old(s).findings, fs, batchID))
      ensures r.Failure? ==> r.error.Rejected?
    {
      ghost var before := s.findings;
      assert fs[..0] == [];
      for i := 0 to |fs|
        invariant Insertable(before, fs[..i]) && s == old(s).(findings := WithFindings(before, fs[..i], batchID))
      {
        NextInsertable(before, fs, batchID, i);
        assert fs[..i + 1][..i] == fs[..i];
        if fs[i].id <= 0 || fs[i].id in s.findings || Known(s.findings, fs[i]) {
          assert !Insertable(before, fs) by { if Insertable(before, fs) { PartInsertable(before, fs, i + 1); } }
          return Failure(Rejected(ConstraintViolated));
        }
        s := s.(findings := s.findings[fs[i].id := FindingRow(fs[i], batchID)]);
      }
      assert fs[..|fs|] == fs;
      return Success(());
    }

    /** Stores the rows of a batch: the batch, what it deferred, what it saw and what it could not resolve. */
    method StoreBatch(row: BatchRow, repositoryID: int, deferred: seq<ProposalRecord>, items: seq<Item>, novel: seq<Finding>)
      returns (r: InitOutcome<()>)
      requires FindingsUnique(s.findings) && forall j :: 0 <= j < |novel| ==> !Known(s.findings, novel[j])
      modifies this`s
      ensures r.Success? <==> Insertable(old(s).findings, novel)
      ensures r.Failure? ==> r.error.Rejected?
      ensures r.Success? ==>
        && s == old(s).(batches := old(s).batches + [row], candidates := s.candidates, seen := s.seen, origins := s.origins,
                        findings := WithFindings(old(s).findings, novel, row.id))
        && CandidatesAdded(old(s), s, row.sessionID, row.id, deferred) && SeenAdded(old(s), s, row.sessionID, items)
        && OriginsAdded(old(s), s, repositoryID, items)
    {
      hide WithFindings, Insertable, FindingsUnique, Known, Listed;
      s := s.(batches := s.batches + [row]);
      RecordCandidates(row.sessionID, row.id, deferred);
      RecordSeen(row.sessionID, repositoryID, items);
      r := RecordFindings(row.id, novel);
    }

    /** The rows of a batch that is next in line. */
    method AcceptBatch(record: BatchRecord, session: SessionRow) returns (r: InitOutcome<BatchResult>)
      requires Valid() && forall i :: 0 <= i < |record.proposals| ==> Creates(record.proposals[i])
      requires IsOpen(s, record.sessionID) && session == s.sessions[record.sessionID]
      requires !Repeats(s, record) && record.batchNo == CountOf(s.batches, record.sessionID) + 1
      modifies this`s, db`t, db`histories
      ensures r.Success? ==> Valid() && Evolves(old(s), s) && HistoriesExtend(old(db.histories), db.histories)
      ensures r.Success? ==> db.t.edges == old(db.t).edges
      ensures r.Success? ==>
        s.batches == old(s).batches + [BatchRow(record.batchID, record.sessionID, record.batchNo, record.key, record.digest, r.value)]
      ensures r.Success? ==>
        && AllStand(db.t, record.proposals, r.value.items) && |r.value.items| == |record.proposals|
        && CreationsMarked(old(db.histories).Keys, r.value.items, db.histories.Keys)
      ensures r.Success? ==> ItemsRecorded(s, record.sessionID, r.value.items)
      ensures r.Success? ==>
        BatchStored(old(s), s, record, r.value.items, db.histories) && HistoriesKept(old(db.histories), db.histories)
      ensures r.Success? ==>
        && Insertable(old(s).findings, NewFindings(old(s).findings, record.unresolved))
        && s.findings == WithFindings(old(s).findings, NewFindings(old(s).findings, record.unresolved), record.batchID)
        && AllStandFor(s.findings, r.value.unresolved, record.unresolved)
      ensures r.Failure? ==> r.error.Rejected?
    {
      assert FindingsUnique(s.findings);
      assert forall i :: 0 <= i < |s.batches| ==> !Names(s.batches[i], record);
      hide AllStand, CreationsMarked, KeysUnique, NewFindings, WithFindings, Insertable, AllStandFor, Known, FindingsUnique;
      hide AcceptedRule, AllAccepted, Coupled, DeclaredCoupled, HistoriesExtend, Evolves, SessionsSound, Reviewable, Deferrable, ItemsKnown, DeferredAreItems;
      hide Repeats, CountOf, SeenAdded, CandidatesAdded, ItemsScheduled, ItemsRecorded, SameFinding, StandsFor, OnlyAdded;
      hide OriginsAdded, BatchStored, Judged, AllDeferred, HistoriesKept;
      var x := record.sessionID;
      var accepted, deferred := AcceptProposals(x, record.proposals);
      if accepted.Failure? { return Failure(accepted.error); }
      var known, novel := ResolveFindings(record.unresolved);
      NewAreUnknown(s.findings, record.unresolved);
      if exists i :: 0 <= i < |s.batches| && s.batches[i].id == record.batchID { return Failure(Rejected(ConstraintViolated)); }
      var result := BatchResult(record.batchID, record.batchNo, accepted.value, known);
      var row := BatchRow(record.batchID, x, record.batchNo, record.key, record.digest, result);
      var stored := StoreBatch(row, session.repositoryID, deferred, accepted.value, novel);
      if stored.Failure? { return Failure(stored.error); }
      FindingsAdded(old(s).findings, novel, record.batchID);
      RowsKept(old(s).findings, s.findings, novel, record.batchID);
      ItemsAreRecorded(old(s), s, x, record.batchID, session.repositoryID, deferred, accepted.value);
      FindingsStand(old(s).findings, record.unresolved, known, record.batchID);
      BatchIsStored(old(s), s, record, deferred, accepted.value, db.histories);
      BatchAccepted(old(s), s, row, deferred, accepted.value, old(db.histories), db.histories);
      return Success(result);
    }

    method SubmitRows(record: BatchRecord) returns (r: InitOutcome<BatchResult>)
      requires Valid() && forall i :: 0 <= i < |record.proposals| ==> Creates(record.proposals[i])
      modifies this`s, db`t, db`histories
      ensures r.Success? ==> Valid() && Evolves(old(s), s) && HistoriesExtend(old(db.histories), db.histories)
      ensures r.Success? ==> db.t.edges == old(db.t).edges
      ensures r.Success? && s == old(s) ==> db.t == old(db.t) && db.histories == old(db.histories)
      ensures r.Success? ==>
        record.sessionID in old(s).sessions && old(s).sessions[record.sessionID].status == StatusOpen
      ensures r.Success? && s != old(s) ==>
        && record.batchNo == CountOf(old(s).batches, record.sessionID) + 1
        && s.batches == old(s).batches + [BatchRow(record.batchID, record.sessionID, record.batchNo, record.key, record.digest, r.value)]
      ensures r.Success? && s != old(s) ==>
        && AllStand(db.t, record.proposals, r.value.items) && |r.value.items| == |record.proposals|
        && CreationsMarked(old(db.histories).Keys, r.value.items, db.histories.Keys)
      ensures r.Success? && s != old(s) ==> ItemsRecorded(s, record.sessionID, r.value.items)
      ensures r.Success? && s != old(s) ==>
        BatchStored(old(s), s, record, r.value.items, db.histories) && HistoriesKept(old(db.histories), db.histories)
      ensures r.Success? && s != old(s) ==>
        && Insertable(old(s).findings, NewFindings(old(s).findings, record.unresolved))
        && s.findings == WithFindings(old(s).findings, NewFindings(old(s).findings, record.unresolved), record.batchID)
        && AllStandFor(s.findings, r.value.unresolved, record.unresolved)
      ensures r == Failure(InitNotFound) <==> record.sessionID !in old(s).sessions
      ensures r == Failure(InitNotOpen) <==> record.sessionID in old(s).sessions && !IsOpen(old(s), record.sessionID)
      ensures IsOpen(old(s), record.sessionID) ==> AnsweredAgain(old(s), record, r)
      ensures r == Failure(IdempotencyConflict) ==> Repeats(old(s), record)
      ensures r == Failure(BatchConflict) <==>
        && IsOpen(old(s), record.sessionID) && !Repeats(old(s), record)
        && record.batchNo != CountOf(old(s).batches, record.sessionID) + 1
      ensures r.Success? ==> (s == old(s) <==> Repeats(old(s), record))
    {
      hide AllStand, CreationsMarked, KeysUnique, NewFindings, WithFindings, Insertable, AllStandFor, Known, BatchStored, HistoriesKept;
      assert FindingsUnique(s.findings);
      hide FindingsUnique;
      hide AcceptedRule, AllAccepted, Coupled, DeclaredCoupled, HistoriesExtend, Evolves, SessionsSound, Reviewable, Deferrable, ItemsKnown, DeferredAreItems;
      var x := record.sessionID;
      var session :- GetSession(s, x);
      if session.status != StatusOpen { return Failure(InitNotOpen); }
      if Repeats(s, record) {
        var i :| 0 <= i < |s.batches| && Names(s.batches[i], record);
        KeyNamesBatch(s, record, i);
        if s.batches[i].digest != record.digest { return Failure(IdempotencyConflict); }
        EvolvesIsReflexive(s);
        NothingYetDeferred(s, x, db.histories);
        return Success(s.batches[i].result);
      }
      SoundMaximum(s, x);
      if exists i :: 0 <= i < |s.batches| && s.batches[i].sessionID == x && s.batches[i].batchNo == record.batchNo {
        var i :| 0 <= i < |s.batches| && s.batches[i].sessionID == x && s.batches[i].batchNo == record.batchNo;
        NumberWithinCount(s, i);
        return Failure(BatchConflict);
      }
      if record.batchNo != MaxNo(s.batches, x) + 1 { return Failure(BatchConflict); }
      r := AcceptBatch(record, session);
    }

    method SubmitBatch(record: BatchRecord) returns (r: InitOutcome<BatchResult>)
      requires Valid() && forall i :: 0 <= i < |record.proposals| ==> Creates(record.proposals[i])
      modifies this`s, db`t, db`histories
      ensures Valid() && Evolves(old(s), s) && HistoriesExtend(old(db.histories), db.histories)
      ensures db.t.edges == old(db.t).edges
      ensures r.Failure? || s == old(s) ==> s == old(s) && db.t == old(db.t) && db.histories == old(db.histories)
      ensures r.Success? ==>
        record.sessionID in old(s).sessions && old(s).sessions[record.sessionID].status == StatusOpen
      ensures r.Success? && s != old(s) ==>
        && record.batchNo == CountOf(old(s).batches, record.sessionID) + 1
        && s.batches == old(s).batches + [BatchRow(record.batchID, record.sessionID, record.batchNo, record.key, record.digest, r.value)]
      ensures r.Success? && s != old(s) ==>
        && AllStand(db.t, record.proposals, r.value.items) && |r.value.items| == |record.proposals|
        && CreationsMarked(old(db.histories).Keys, r.value.items, db.histories.Keys)
      ensures r.Success? && s != old(s) ==> ItemsRecorded(s, record.sessionID, r.value.items)
      ensures r.Success? && s != old(s) ==>
        BatchStored(old(s), s, record, r.value.items, db.histories) && HistoriesKept(old(db.histories), db.histories)
      ensures r.Success? && s != old(s) ==>
        && Insertable(old(s).findings, NewFindings(old(s).findings, record.unresolved))
        && s.findings == WithFindings(old(s).findings, NewFindings(old(s).findings, record.unresolved), record.batchID)
        && AllStandFor(s.findings, r.value.unresolved, record.unresolved)
      ensures r == Failure(InitNotFound) <==> record.sessionID !in old(s).sessions
      ensures r == Failure(InitNotOpen) <==> record.sessionID in old(s).sessions && !IsOpen(old(s), record.sessionID)
      ensures IsOpen(old(s), record.sessionID) ==> AnsweredAgain(old(s), record, r)
      ensures r == Failure(IdempotencyConflict) ==> Repeats(old(s), record)
      ensures r == Failure(BatchConflict) <==>
        && IsOpen(old(s), record.sessionID) && !Repeats(old(s), record)
        && record.batchNo != CountOf(old(s).batches, record.sessionID) + 1
      ensures r.Success? ==> (s == old(s) <==> Repeats(old(s), record))
    {
      hide *;
      var before, rows := s, db.t;
      ghost var hs := db.histories;
      r := SubmitRows(record);
      if r.Failure? {
        EvolvesIsReflexive(before);
        NothingYetDeferred(before, record.sessionID, hs);
        s, db.t := before, rows;
        db.histories := hs;
      }
    }
  }
}
