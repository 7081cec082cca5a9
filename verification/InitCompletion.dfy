/** Completing an init session: the relations it no longer saw are proposed stale, what it deferred is
    reproposed, all within one budget, and nothing that happens between planning and committing can make the
    two groups overlap. */
module InitCompletion {
  import opened Wrappers
  import opened RelationHistory
  import opened RelationTables
  import opened RelationRepository
  import opened Rules
  import opened RelationCommands
  import opened InitSessions
  import opened Ordering
  import opened Sums
  import References
  import RelationWrites

  const MaximumCandidates: nat := 100
  const MaximumRawBytes: nat := 0x10_0000

  /** Encoded sizes: of a stored candidate, and of the guard, selector and transform of a rule. */
  datatype Sizes = Sizes(candidate: ProposalRecord -> nat, content: References.Content -> nat)

  predicate BudgetExceeded(deferredCount: int, deferredBytes: int, omittedCount: int, omittedBytes: int) {
    deferredCount < 0 || deferredCount > MaximumCandidates || deferredBytes < 0 || deferredBytes > MaximumRawBytes
    || omittedCount < 0 || omittedBytes < 0
    || omittedCount > MaximumCandidates - deferredCount || omittedBytes > MaximumRawBytes - deferredBytes
  }

  predicate CountMatches(s: SessionTables, x: int, expected: int) {
    CountOf(s.batches, x) == expected && MaxNo(s.batches, x) == expected
  }

  /** At most a hundred candidates, deferred and omitted, and at most a mebibyte of them. */
  lemma BudgetMeans(deferredCount: nat, deferredBytes: nat, omittedCount: nat, omittedBytes: nat)
    ensures BudgetExceeded(deferredCount, deferredBytes, omittedCount, omittedBytes) <==>
      deferredCount + omittedCount > 100 || deferredBytes + omittedBytes > 1024 * 1024
  {
  }

  function CandidateSize(s: SessionTables, x: int, sizes: Sizes, r: int): nat {
    if (x, r) in s.candidates then sizes.candidate(s.candidates[(x, r)].record) else 0
  }

  function CandidateWeight(s: SessionTables, x: int, sizes: Sizes): int -> nat {
    r => CandidateSize(s, x, sizes, r)
  }

  lemma CandidateWeighs(s: SessionTables, x: int, sizes: Sizes, r: int)
    ensures CandidateWeight(s, x, sizes)(r) == CandidateSize(s, x, sizes, r)
    ensures (x, r) in s.candidates ==> CandidateWeight(s, x, sizes)(r) == sizes.candidate(s.candidates[(x, r)].record)
  {
  }

  ghost function DeferredBytes(s: SessionTables, x: int, sizes: Sizes): nat {
    Sum(CandidateKeys(s, x), CandidateWeight(s, x, sizes))
  }

  ghost predicate Least<T(!new)>(keys: set<T>, less: (T, T) -> bool, k: T) {
    k in keys && forall q :: q in keys ==> !less(q, k)
  }

  lemma {:induction false} LeastExists<T(!new)>(keys: set<T>, less: (T, T) -> bool) returns (least: T)
    requires StrictOrder(less) && keys != {}
    ensures Least(keys, less, least)
    decreases |keys|
  {
    var k :| k in keys;
    if keys == {k} {
      least := k;
    } else {
      var m := LeastExists(keys - {k}, less);
      least := if less(k, m) then k else m;
    }
  }

  // ----- the summary and the check ---------------------------------------------------------------

  method Summary(s: SessionTables, x: int, sizes: Sizes) returns (count: nat, bytes: nat)
    ensures count == |CandidateKeys(s, x)| && bytes == DeferredBytes(s, x, sizes)
  {
    ghost var weight := CandidateWeight(s, x, sizes);
    var rest := CandidateKeys(s, x);
    count, bytes := 0, 0;
    SumEmpty(weight);
    hide Sum, CandidateKeys, CandidateSize, CandidateWeight;
    while rest != {}
      invariant count + |rest| == |CandidateKeys(s, x)| && bytes + Sum(rest, weight) == Sum(CandidateKeys(s, x), weight)
      decreases |rest|
    {
      var r :| r in rest;
      SumWithout(rest, weight, r);
      CandidateWeighs(s, x, sizes, r);
      count, bytes, rest := count + 1, bytes + CandidateSize(s, x, sizes, r), rest - {r};
    }
  }

  method CheckCompletion(s: SessionTables, x: int, expected: int, sizes: Sizes) returns (r: InitOutcome<(nat, nat)>)
    ensures r.Success? <==>
      && x in s.sessions && s.sessions[x].status == StatusOpen
      && CountOf(s.batches, x) == expected && MaxNo(s.batches, x) == expected
      && |CandidateKeys(s, x)| <= 100 && DeferredBytes(s, x, sizes) <= 1024 * 1024
    ensures r.Success? ==> r.value == (|CandidateKeys(s, x)|, DeferredBytes(s, x, sizes))
  {
    var session :- GetSession(s, x);
    if session.status != StatusOpen { return Failure(InitNotOpen); }
    if !CountMatches(s, x, expected) { return Failure(IncompleteBatches); }
    var count, bytes := Summary(s, x, sizes);
    if BudgetExceeded(count, bytes, 0, 0) { return Failure(CompletionBudgetExceeded); }
    return Success((count, bytes));
  }

  // ----- what the session no longer saw ----------------------------------------------------------

  /** How the text of a scope reads: the relation identifiers it lists, or None if it is not a valid list of them. */
  type ScopeReader = string -> Option<seq<int>>

  predicate InScope(session: SessionRow, reader: ScopeReader, r: int) {
    session.mode == ModeIncremental ==> reader(session.scope).Some? && r in reader(session.scope).value
  }

  predicate Omitted(t: Tables, s: SessionTables, x: int, session: SessionRow, reader: ScopeReader, r: int) {
    && r in s.origins && s.origins[r] == session.repositoryID && r in t.current
    && var row := t.current[r];
       && row.active.Some? && row.active.value in t.versions && row.proposed.None?
       && row.status in {StatusApproved, StatusSuppressed} && (x, r) !in s.seen
       && InScope(session, reader, r)
  }

  function OmittedKeys(t: Tables, s: SessionTables, x: int, session: SessionRow, reader: ScopeReader): set<int> {
    set r | r in s.origins && Omitted(t, s, x, session, reader, r)
  }

  function ActiveBytes(t: Tables, sizes: Sizes, r: int): nat {
    if r in t.current && t.current[r].active.Some? && t.current[r].active.value in t.versions
    then sizes.content(t.versions[t.current[r].active.value].rule.content) else 0
  }

  function ActiveWeight(t: Tables, sizes: Sizes): int -> nat {
    r => ActiveBytes(t, sizes, r)
  }

  lemma ActiveWeighs(t: Tables, sizes: Sizes, r: int)
    ensures ActiveWeight(t, sizes)(r) == ActiveBytes(t, sizes, r)
  {
  }

  /** The relations to propose stale, and what their active rules weighed when they were listed. */
  datatype Plan = Plan(relations: seq<Relation>, bytes: nat)

  predicate Below(a: int, b: int) {
    a < b
  }

  /** The listing so far: in ascending order, everything below what is left. */
  ghost predicate Listing(relations: seq<int>, all: set<int>, rest: set<int>) {
    && rest <= all && StrictlyAscending(Below, relations) && |relations| + |rest| == |all|
    && (forall q :: q in relations <==> q in all && q !in rest)
    && (forall p, q :: p in relations && q in rest ==> p < q)
  }

  lemma ListOne(relations: seq<int>, all: set<int>, rest: set<int>, q: int)
    requires Listing(relations, all, rest) && q in rest && forall p :: p in rest ==> !Below(p, q)
    ensures Listing(relations + [q], all, rest - {q})
  {
    var more := relations + [q];
    forall i, j | 0 <= i < j < |more| ensures Below(more[i], more[j]) {
      assert more[i] in relations;
    }
    forall p, w | p in more && w in rest - {q} ensures p < w {
      if p in relations { assert p < w; } else { assert p == q && !Below(w, q); }
    }
  }

  method ListRows(t: Tables, all: set<int>, candidateLimit: nat, byteLimit: nat, sizes: Sizes) returns (r: InitOutcome<(seq<int>, nat)>)
    ensures r.Failure? ==> r.error == CompletionBudgetExceeded
    ensures r.Success? <==> |all| <= candidateLimit && Sum(all, ActiveWeight(t, sizes)) <= byteLimit
    ensures r.Success? ==> Listing(r.value.0, all, {}) && r.value.1 == Sum(all, ActiveWeight(t, sizes))
  {
    SumEmpty(ActiveWeight(t, sizes));
    NothingListed(all);
    hide Sum, ActiveBytes, ActiveWeight, Listing;
    var relations: seq<int>, bytes := [], 0;
    var rest := all;
    while rest != {}
      invariant bytes + Sum(rest, ActiveWeight(t, sizes)) == Sum(all, ActiveWeight(t, sizes)) && bytes <= byteLimit
      invariant |relations| <= candidateLimit && |relations| + |rest| == |all| && Listing(relations, all, rest)
      decreases |rest|
    {
      ghost var least := LeastExists(rest, Below);
      var q :| q in rest && forall p :: p in rest ==> !Below(p, q);
      var size := ActiveBytes(t, sizes, q);
      ActiveWeighs(t, sizes, q);
      SumWithout(rest, ActiveWeight(t, sizes), q);
      if |relations| >= candidateLimit || bytes > byteLimit - size { return Failure(CompletionBudgetExceeded); }
      ListOne(relations, all, rest, q);
      relations, bytes, rest := relations + [q], bytes + size, rest - {q};
    }
    return Success((relations, bytes));
  }

  ghost predicate ReadFrom(later: Tables, ids: seq<int>, relations: seq<Relation>) {
    |relations| == |ids| && forall i :: 0 <= i < |ids| ==> GetRelation(later, ids[i]) == Success(relations[i])
  }

  /** Reads the listed relations one by one, from whatever the tables hold by then. */
  method ReadListed(later: Tables, ids: seq<int>) returns (r: InitOutcome<seq<Relation>>)
    ensures r.Success? <==> forall i :: 0 <= i < |ids| ==> GetRelation(later, ids[i]).Success?
    ensures r.Success? ==> ReadFrom(later, ids, r.value)
    ensures r.Failure? ==> r.error.Rejected?
  {
    hide GetRelation;
    var relations: seq<Relation> := [];
    for i := 0 to |ids|
      invariant |relations| == i && forall j :: 0 <= j < i ==> GetRelation(later, ids[j]) == Success(relations[j])
    {
      var relation := GetRelation(later, ids[i]);
      if relation.Failure? { return Failure(Rejected(relation.error)); }
      relations := relations + [relation.value];
    }
    return Success(relations);
  }

  /** An omitted relation comes from the session's repository, is in effect or suppressed under an active version with
      nothing proposed, and was not seen by the session; in an incremental one it is also named by the scope. */
  lemma OmittedMeans(t: Tables, s: SessionTables, x: int, session: SessionRow, reader: ScopeReader, q: int)
    ensures q in OmittedKeys(t, s, x, session, reader) <==>
      && q in s.origins && s.origins[q] == session.repositoryID && (x, q) !in s.seen && q in t.current
      && t.current[q].active.Some? && t.current[q].active.value in t.versions && t.current[q].proposed.None?
      && (t.current[q].status == StatusApproved || t.current[q].status == StatusSuppressed)
      && (session.mode == ModeIncremental ==> reader(session.scope).Some? && q in reader(session.scope).value)
    ensures q in OmittedKeys(t, s, x, session, reader) ==>
      forall sizes :: ActiveWeight(t, sizes)(q) == sizes.content(t.versions[t.current[q].active.value].rule.content)
  {
  }

  /** Reading the relations in the order listed. */
  lemma ReadInOrder(later: Tables, ids: seq<int>, relations: seq<Relation>)
    requires ReadFrom(later, ids, relations)
    ensures |relations| == |ids| && forall i :: 0 <= i < |ids| ==> relations[i].id == ids[i]
  {
    forall i | 0 <= i < |ids| ensures relations[i].id == ids[i] { assert GetRelation(later, ids[i]) == Success(relations[i]); }
  }

  /** The omitted relations in ascending order, as they are read after the rows were listed; or an error if they are
      too many or too large, the scope is not a list of relations, or one cannot be read. */
  method ListOmittedRelations(
    t: Tables, later: Tables, s: SessionTables, x: int, session: SessionRow, reader: ScopeReader,
    candidateLimit: int, byteLimit: int, sizes: Sizes)
    returns (r: InitOutcome<Plan>, ghost ids: seq<int>)
    ensures r == Failure(InvalidInit) <==> WithinMaxima(candidateLimit, byteLimit) && Unreadable(session, reader)
    ensures r == Failure(CompletionBudgetExceeded) <==>
      && !Affordable(OmittedKeys(t, s, x, session, reader), t, candidateLimit, byteLimit, sizes)
      && r != Failure(InvalidInit)
    ensures r.Success? <==>
      && Affordable(OmittedKeys(t, s, x, session, reader), t, candidateLimit, byteLimit, sizes)
      && !Unreadable(session, reader)
      && forall q :: q in OmittedKeys(t, s, x, session, reader) ==> GetRelation(later, q).Success?
    ensures r.Success? ==>
      Listing(ids, OmittedKeys(t, s, x, session, reader), {}) && ReadFrom(later, ids, r.value.relations)
    ensures r.Success? ==> r.value.bytes == Sum(OmittedKeys(t, s, x, session, reader), ActiveWeight(t, sizes))
    ensures r.Success? ==>
      && |r.value.relations| == |ids| && (forall i :: 0 <= i < |ids| ==> r.value.relations[i].id == ids[i])
      && (forall i, j :: 0 <= i < j < |ids| ==> ids[i] < ids[j])
    ensures r.Success? ==> forall q :: q in ids <==>
      && q in s.origins && s.origins[q] == session.repositoryID && (x, q) !in s.seen && q in t.current
      && t.current[q].active.Some? && t.current[q].active.value in t.versions && t.current[q].proposed.None?
      && (t.current[q].status == StatusApproved || t.current[q].status == StatusSuppressed)
      && (session.mode == ModeIncremental ==> reader(session.scope).Some? && q in reader(session.scope).value)
  {
    hide GetRelation, Sum, ActiveWeight;
    forall q { OmittedMeans(t, s, x, session, reader, q); }
    ids := [];
    if candidateLimit < 0 || candidateLimit > MaximumCandidates || byteLimit < 0 || byteLimit > MaximumRawBytes {
      return Failure(CompletionBudgetExceeded), [];
    }
    if session.mode == ModeIncremental {
      var listed := reader(session.scope);
      if listed.None? { return Failure(InvalidInit), []; }
      if |listed.value| == 0 {
        assert OmittedKeys(t, s, x, session, reader) == {};
        SumEmpty(ActiveWeight(t, sizes));
        return Success(Plan([], 0)), [];
      }
    }
    var rows :- ListRows(t, OmittedKeys(t, s, x, session, reader), candidateLimit, byteLimit, sizes);
    ids := rows.0;
    var relations := ReadListed(later, rows.0);
    if relations.Failure? { return Failure(relations.error), ids; }
    ReadInOrder(later, ids, relations.value);
    assert forall i, j :: 0 <= i < j < |ids| ==> Below(ids[i], ids[j]);
    return Success(Plan(relations.value, rows.1)), ids;
  }

  predicate Unreadable(session: SessionRow, reader: ScopeReader) {
    session.mode == ModeIncremental && reader(session.scope).None?
  }

  predicate WithinMaxima(candidateLimit: int, byteLimit: int) {
    0 <= candidateLimit <= MaximumCandidates && 0 <= byteLimit <= MaximumRawBytes
  }

  ghost predicate Affordable(all: set<int>, t: Tables, candidateLimit: int, byteLimit: int, sizes: Sizes) {
    WithinMaxima(candidateLimit, byteLimit) && |all| <= candidateLimit && Sum(all, ActiveWeight(t, sizes)) <= byteLimit
  }

  lemma NothingListed(all: set<int>)
    ensures Listing([], all, all)
  {
  }

  // ----- loading what was deferred ---------------------------------------------------------------

  function BatchOf(s: SessionTables, x: int, r: int): int {
    if (x, r) in s.candidates then s.candidates[(x, r)].batchID else 0
  }

  /** ORDER BY batch_id, relation_id */
  predicate RowBefore(s: SessionTables, x: int, a: int, b: int) {
    BatchOf(s, x, a) < BatchOf(s, x, b) || (BatchOf(s, x, a) == BatchOf(s, x, b) && a < b)
  }

  /** Two candidates in the order of their batches, and within one batch of their relations. */
  predicate ByBatch(s: SessionTables, x: int, a: int, b: int) {
    && (x, a) in s.candidates && (x, b) in s.candidates
    && s.candidates[(x, a)].batchID <= s.candidates[(x, b)].batchID
    && (s.candidates[(x, a)].batchID == s.candidates[(x, b)].batchID ==> a < b)
  }

  lemma LoadedByBatch(s: SessionTables, x: int, records: seq<ProposalRecord>)
    requires Loaded(s, x, records, {})
    ensures forall i, j :: 0 <= i < j < |records| ==> ByBatch(s, x, records[i].relationID, records[j].relationID)
  {
    forall i, j | 0 <= i < j < |records| ensures ByBatch(s, x, records[i].relationID, records[j].relationID) {
      assert RowBefore(s, x, records[i].relationID, records[j].relationID);
      assert Matches(s, x, records[i].relationID) && Matches(s, x, records[j].relationID);
    }
  }

  predicate Matches(s: SessionTables, x: int, r: int) {
    (x, r) in s.candidates && s.candidates[(x, r)].record.relationID == r
  }

  predicate AllMatch(s: SessionTables, x: int) {
    forall q :: q in CandidateKeys(s, x) ==> Matches(s, x, q)
  }

  /** The records loaded so far are distinct candidates of the session; the rest are still to come. */
  ghost predicate Loaded(s: SessionTables, x: int, records: seq<ProposalRecord>, rest: set<int>) {
    && rest <= CandidateKeys(s, x) && |records| + |rest| == |CandidateKeys(s, x)|
    && (forall i :: 0 <= i < |records| ==>
          Matches(s, x, records[i].relationID) && s.candidates[(x, records[i].relationID)].record == records[i]
          && records[i].relationID !in rest)
    && (forall i, j :: 0 <= i < j < |records| ==> records[i].relationID != records[j].relationID)
    && (forall i, j :: 0 <= i < j < |records| ==> RowBefore(s, x, records[i].relationID, records[j].relationID))
    && (forall i, r :: 0 <= i < |records| && r in rest ==> RowBefore(s, x, records[i].relationID, r))
  }

  lemma NothingLoaded(s: SessionTables, x: int)
    ensures Loaded(s, x, [], CandidateKeys(s, x))
  {
  }

  lemma LoadOne(s: SessionTables, x: int, records: seq<ProposalRecord>, rest: set<int>, r: int)
    requires Loaded(s, x, records, rest) && r in rest && Matches(s, x, r)
    requires forall q :: q in rest ==> !RowBefore(s, x, q, r)
    ensures Loaded(s, x, records + [s.candidates[(x, r)].record], rest - {r})
  {
    var more := records + [s.candidates[(x, r)].record];
    forall i, q | 0 <= i < |more| && q in rest - {r} ensures RowBefore(s, x, more[i].relationID, q) {
      if i == |records| { assert !RowBefore(s, x, q, r); }
    }
  }

  method LoadCandidates(s: SessionTables, x: int, candidateLimit: int, byteLimit: int, sizes: Sizes)
    returns (r: InitOutcome<seq<ProposalRecord>>)
    requires 0 <= candidateLimit && 0 <= byteLimit
    ensures r.Success? <==>
      && |CandidateKeys(s, x)| <= candidateLimit && DeferredBytes(s, x, sizes) <= byteLimit
      && AllMatch(s, x)
    ensures r.Success? ==> Loaded(s, x, r.value, {})
    ensures r.Success? ==> forall i, j :: 0 <= i < j < |r.value| ==> ByBatch(s, x, r.value[i].relationID, r.value[j].relationID)
  {
    ghost var weight := CandidateWeight(s, x, sizes);
    var records: seq<ProposalRecord>, bytes := [], 0;
    var rest := CandidateKeys(s, x);
    var less := (a, b) => RowBefore(s, x, a, b);
    SumEmpty(weight);
    NothingLoaded(s, x);
    hide Sum, CandidateKeys, CandidateWeight, CandidateSize, Loaded, RowBefore, Matches, ByBatch;
    while rest != {}
      invariant bytes + Sum(rest, weight) == Sum(CandidateKeys(s, x), weight) && bytes <= byteLimit
      invariant |records| <= candidateLimit && Loaded(s, x, records, rest)
      invariant |records| + |rest| == |CandidateKeys(s, x)| && rest <= CandidateKeys(s, x)
      invariant forall q :: q in CandidateKeys(s, x) && q !in rest ==> Matches(s, x, q)
      decreases |rest|
    {
      RowOrder(s, x);
      ghost var least := LeastExists(rest, less);
      var q :| q in rest && forall p :: p in rest ==> !RowBefore(s, x, p, q);
      CandidateIsStored(s, x, q);
      var size := CandidateSize(s, x, sizes, q);
      CandidateWeighs(s, x, sizes, q);
      SumWithout(rest, weight, q);
      if |records| >= candidateLimit || size > byteLimit - bytes { return Failure(CompletionBudgetExceeded); }
      if !Matches(s, x, q) { return Failure(InvalidInit); }
      LoadOne(s, x, records, rest, q);
      records, bytes, rest := records + [s.candidates[(x, q)].record], bytes + size, rest - {q};
    }
    LoadedByBatch(s, x, records);
    return Success(records);
  }

  lemma RowOrder(s: SessionTables, x: int)
    ensures StrictOrder((a, b) => RowBefore(s, x, a, b))
  {
  }

  lemma CandidateIsStored(s: SessionTables, x: int, r: int)
    ensures r in CandidateKeys(s, x) <==> (x, r) in s.candidates
  {
  }

  // ----- completing ------------------------------------------------------------------------------

  datatype CompletionRecord = CompletionRecord(sessionID: int, expected: int, candidates: seq<ProposalRecord>)

  function CandidatesBytes(candidates: seq<ProposalRecord>, sizes: Sizes): nat {
    if candidates == [] then 0
    else CandidatesBytes(candidates[..|candidates| - 1], sizes) + sizes.content(candidates[|candidates| - 1].rule.content)
  }

  /** Stops counting once the total is past the limit anyway. */
  method CandidateASTRawBytes(candidates: seq<ProposalRecord>, sizes: Sizes) returns (bytes: nat)
    ensures bytes == CandidatesBytes(candidates, sizes) || MaximumRawBytes < bytes <= CandidatesBytes(candidates, sizes)
  {
    bytes := 0;
    for i := 0 to |candidates|
      invariant bytes == CandidatesBytes(candidates[..i], sizes)
    {
      assert candidates[..i + 1][..i] == candidates[..i];
      bytes := bytes + sizes.content(candidates[i].rule.content);
      if bytes > MaximumRawBytes {
        BytesGrow(candidates, i + 1, sizes);
        return;
      }
    }
    assert candidates[..|candidates|] == candidates;
  }

  lemma {:induction false} BytesGrow(candidates: seq<ProposalRecord>, n: nat, sizes: Sizes)
    requires n <= |candidates|
    ensures CandidatesBytes(candidates[..n], sizes) <= CandidatesBytes(candidates, sizes)
    decreases |candidates|
  {
    if n == |candidates| {
      assert candidates[..n] == candidates;
    } else {
      var front := candidates[..|candidates| - 1];
      assert front[..n] == candidates[..n];
      BytesGrow(front, n, sizes);
    }
  }

  /** Exactly the named relations received a proposal, each once; every other history is untouched. */
  ghost predicate ProposalsMade(before: map<int, RuleHistory>, after: map<int, RuleHistory>, records: seq<ProposalRecord>) {
    && after.Keys == before.Keys
    && (forall i :: 0 <= i < |records| ==> ProposalMade(before, after, records[i]))
    && (forall i, j :: 0 <= i < j < |records| ==> records[i].relationID != records[j].relationID)
    && (forall r :: r in before && (forall i :: 0 <= i < |records| ==> records[i].relationID != r) ==> after[r] == before[r])
  }

  ghost predicate ProposalMade(before: map<int, RuleHistory>, after: map<int, RuleHistory>, record: ProposalRecord) {
    && record.relationID in before && record.relationID in after
    && Enabled(before[record.relationID], ProposeAction(record))
    && after[record.relationID] == RevisedBy(before[record.relationID], record)
  }

  /** A relation that already received its proposal accepts no second one, so each is named once. */
  lemma ProposeOneMore(
    before: map<int, RuleHistory>, mid: map<int, RuleHistory>, records: seq<ProposalRecord>, record: ProposalRecord)
    requires ProposalsMade(before, mid, records) && record.relationID in mid
    requires Enabled(mid[record.relationID], ProposeAction(record))
    ensures ProposalsMade(before, mid[record.relationID := RevisedBy(mid[record.relationID], record)], records + [record])
  {
    var r := record.relationID;
    var after := mid[r := RevisedBy(mid[r], record)];
    forall i | 0 <= i < |records| ensures records[i].relationID != r {
      assert ProposalMade(before, mid, records[i]);
    }
    var more := records + [record];
    assert mid[r] == before[r];
    forall i | 0 <= i < |more| ensures ProposalMade(before, after, more[i]) {
      if i < |records| { assert ProposalMade(before, mid, records[i]); }
    }
    assert more[|records|] == record;
    forall q | q in before && (forall i :: 0 <= i < |more| ==> more[i].relationID != q) ensures after[q] == before[q] {
      assert q != r;
      forall i | 0 <= i < |records| ensures records[i].relationID != q { assert more[i] == records[i]; }
    }
  }

  /** What the commands guarantee of a prepared revision: an accepted rule, and no declared foreign key. */
  predicate NamesReviewed(histories: map<int, RuleHistory>, record: ProposalRecord) {
    && AcceptedRule(record.rule)
    && (record.relationID in histories ==> histories[record.relationID].kind == ConditionalValueCopy)
  }

  lemma ReviewedMayBeRevised(db: Database, record: ProposalRecord)
    requires db.Valid() && NamesReviewed(db.histories, record)
    ensures db.Revises(record)
  {
    CurrentReads(db.t, db.histories, record.relationID);
  }

  lemma RevisionKeepsReviewed(histories: map<int, RuleHistory>, r: int, record: ProposalRecord, other: ProposalRecord)
    requires r in histories && Enabled(histories[r], ProposeAction(record)) && NamesReviewed(histories, other)
    ensures NamesReviewed(histories[r := RevisedBy(histories[r], record)], other)
  {
  }

  method InsertAll(db: Database, records: seq<ProposalRecord>) returns (r: Outcome<seq<int>>)
    requires db.Valid() && forall i :: 0 <= i < |records| ==> NamesReviewed(db.histories, records[i])
    modifies db`t, db`histories
    ensures r.Success? ==> db.Valid() && db.t.edges == old(db.t).edges && ProposalsMade(old(db.histories), db.histories, records)
    ensures r.Success? ==> |r.value| == |records| && forall i :: 0 <= i < |records| ==> r.value[i] == records[i].relationID
  {
    hide Coupled, DeclaredCoupled, RevisionAcceptable, OnlyTouches, GetRelation, ProposalsMade, NamesReviewed, RevisedBy, Enabled;
    var ids: seq<int> := [];
    NothingProposed(db.histories);
    assert records[..0] == [];
    for i := 0 to |records|
      invariant db.Valid() && db.t.edges == old(db.t).edges
      invariant ProposalsMade(old(db.histories), db.histories, records[..i])
      invariant forall j :: 0 <= j < |records| ==> NamesReviewed(db.histories, records[j])
      invariant |ids| == i && forall j :: 0 <= j < i ==> ids[j] == records[j].relationID
    {
      var record := records[i];
      assert records[..i + 1] == records[..i] + [record];
      ReviewedMayBeRevised(db, record);
      ghost var mid := db.histories;
      var relation :- db.InsertRevisionProposal(record);
      ProposeOneMore(old(db.histories), mid, records[..i], record);
      forall j | 0 <= j < |records| ensures NamesReviewed(db.histories, records[j]) {
        RevisionKeepsReviewed(mid, record.relationID, record, records[j]);
      }
      ids := ids + [record.relationID];
    }
    assert records[..|records|] == records;
    return Success(ids);
  }

  lemma NothingProposed(histories: map<int, RuleHistory>)
    ensures ProposalsMade(histories, histories, [])
  {
  }

  // What `Complete` asks of the session before it writes anything.
  ghost predicate Completable(s: SessionTables, record: CompletionRecord, sizes: Sizes) {
    var x := record.sessionID;
    && x in s.sessions && s.sessions[x].status == StatusOpen && CountMatches(s, x, record.expected)
    && !BudgetExceeded(|CandidateKeys(s, x)|, DeferredBytes(s, x, sizes), |record.candidates|, CandidatesBytes(record.candidates, sizes))
  }

  function Closed(s: SessionTables, x: int): SessionTables
    requires x in s.sessions
  {
    s.(sessions := s.sessions[x := s.sessions[x].(status := StatusCompleted)])
  }

  /** The deferred records, and then the given ones, each proposed once. */
  ghost predicate Completed(
    s: SessionTables, before: map<int, RuleHistory>, after: map<int, RuleHistory>, record: CompletionRecord, ids: seq<int>)
  {
    exists deferred :: DeferredAndOmitted(s, before, after, record, ids, deferred)
  }

  ghost predicate DeferredAndOmitted(
    s: SessionTables, before: map<int, RuleHistory>, after: map<int, RuleHistory>, record: CompletionRecord, ids: seq<int>,
    deferred: seq<ProposalRecord>)
  {
    && Loaded(s, record.sessionID, deferred, {}) && ProposalsMade(before, after, deferred + record.candidates)
    && |ids| == |deferred + record.candidates|
    && forall i :: 0 <= i < |ids| ==> ids[i] == (deferred + record.candidates)[i].relationID
  }

  method CompleteRows(repo: InitRepository, record: CompletionRecord, sizes: Sizes) returns (r: InitOutcome<seq<int>>)
    requires repo.Valid() && forall i :: 0 <= i < |record.candidates| ==> NamesReviewed(repo.db.histories, record.candidates[i])
    modifies repo`s, repo.db`t, repo.db`histories
    ensures !Completable(old(repo.s), record, sizes) ==> r.Failure? && !r.error.Rejected?
    ensures Completable(old(repo.s), record, sizes) && AllMatch(old(repo.s), record.sessionID) && r.Failure? ==> r.error.Rejected?
    ensures r.Success? ==> repo.db.Valid() && repo.db.t.edges == old(repo.db.t).edges
    ensures r.Success? ==> Completed(old(repo.s), old(repo.db.histories), repo.db.histories, record, r.value)
    ensures r.Success? ==> repo.s == Closed(old(repo.s), record.sessionID)
  {
    hide Coupled, DeclaredCoupled, ProposalsMade, NamesReviewed, Loaded, CandidateKeys, DeferredBytes, CandidatesBytes, CountMatches, AllMatch;
    var x := record.sessionID;
    var s := repo.s;
    var session :- GetSession(s, x);
    if session.status != StatusOpen { return Failure(InitNotOpen); }
    if !CountMatches(s, x, record.expected) { return Failure(IncompleteBatches); }
    var count, bytes := Summary(s, x, sizes);
    if BudgetExceeded(count, bytes, |record.candidates|, 0) { return Failure(CompletionBudgetExceeded); }
    var omittedBytes := CandidateASTRawBytes(record.candidates, sizes);
    if BudgetExceeded(count, bytes, |record.candidates|, omittedBytes) { return Failure(CompletionBudgetExceeded); }
    var deferred :- LoadCandidates(s, x, MaximumCandidates - |record.candidates|, MaximumRawBytes - omittedBytes, sizes);
    forall i | 0 <= i < |deferred + record.candidates|
      ensures NamesReviewed(repo.db.histories, (deferred + record.candidates)[i])
    {
      if i < |deferred| { DeferredIsReviewed(s, x, repo.db.histories, deferred, i); }
    }
    var inserted := InsertAll(repo.db, deferred + record.candidates);
    if inserted.Failure? { return Failure(Rejected(inserted.error)); }
    repo.s := Closed(s, x);
    assert DeferredAndOmitted(s, old(repo.db.histories), repo.db.histories, record, inserted.value, deferred);
    return Success(inserted.value);
  }

  lemma SoundCandidatesMatch(s: SessionTables, x: int)
    requires SessionsSound(s)
    ensures AllMatch(s, x)
  {
    forall q | q in CandidateKeys(s, x) ensures Matches(s, x, q) { assert (x, q) in s.candidates; }
  }

  /** Only the session's status has changed. */
  predicate SessionCompleted(s: SessionTables, u: SessionTables, x: int) {
    && u == s.(sessions := u.sessions) && x in s.sessions && x in u.sessions
    && u.sessions == s.sessions[x := u.sessions[x]] && u.sessions[x] == s.sessions[x].(status := u.sessions[x].status)
    && u.sessions[x].status == StatusCompleted
  }

  lemma CompletableMeans(s: SessionTables, record: CompletionRecord, sizes: Sizes)
    requires SessionsSound(s)
    ensures Completable(s, record, sizes) <==>
      && record.sessionID in s.sessions && s.sessions[record.sessionID].status == StatusOpen
      && CountOf(s.batches, record.sessionID) == record.expected
      && |CandidateKeys(s, record.sessionID)| + |record.candidates| <= 100
      && DeferredBytes(s, record.sessionID, sizes) + CandidatesBytes(record.candidates, sizes) <= 1024 * 1024
  {
    MaximumIsCount(s.batches, record.sessionID);
    BudgetMeans(|CandidateKeys(s, record.sessionID)|, DeferredBytes(s, record.sessionID, sizes), |record.candidates|,
                CandidatesBytes(record.candidates, sizes));
    hide BudgetExceeded, CandidateKeys, DeferredBytes, CandidatesBytes, CountOf, MaxNo;
  }

  lemma ClosedIsCompleted(s: SessionTables, x: int)
    requires x in s.sessions
    ensures SessionCompleted(s, Closed(s, x), x)
  {
  }

  /** Completes the session, or changes nothing. Once the session is open, the batch count matches and the budget
      holds, only a proposal the relation itself refuses can still fail it. */
  method Complete(repo: InitRepository, record: CompletionRecord, sizes: Sizes) returns (r: InitOutcome<seq<int>>)
    requires repo.Valid() && forall i :: 0 <= i < |record.candidates| ==> NamesReviewed(repo.db.histories, record.candidates[i])
    modifies repo`s, repo.db`t, repo.db`histories
    ensures repo.Valid() && Evolves(old(repo.s), repo.s) && repo.db.t.edges == old(repo.db.t).edges
    ensures r.Success? ==> Completable(old(repo.s), record, sizes)
    ensures r.Failure? ==> (r.error.Rejected? <==> Completable(old(repo.s), record, sizes))
    ensures r.Failure? ==> repo.s == old(repo.s) && repo.db.t == old(repo.db.t) && repo.db.histories == old(repo.db.histories)
    ensures r.Success? ==> Completed(old(repo.s), old(repo.db.histories), repo.db.histories, record, r.value)
    ensures r.Success? ==> repo.s == Closed(old(repo.s), record.sessionID)
    ensures r.Success? || r.error.Rejected? <==>
      && record.sessionID in old(repo.s).sessions && old(repo.s).sessions[record.sessionID].status == StatusOpen
      && CountOf(old(repo.s).batches, record.sessionID) == record.expected
      && |CandidateKeys(old(repo.s), record.sessionID)| + |record.candidates| <= 100
      && DeferredBytes(old(repo.s), record.sessionID, sizes) + CandidatesBytes(record.candidates, sizes) <= 1024 * 1024
    ensures r.Success? ==> SessionCompleted(old(repo.s), repo.s, record.sessionID)
  {
    hide Coupled, DeclaredCoupled, Completed, Completable, NamesReviewed, Evolves, SessionsSound, Reviewable, AllMatch, Closed;
    var before, rows := repo.s, repo.db.t;
    ghost var hs := repo.db.histories;
    SoundCandidatesMatch(repo.s, record.sessionID);
    CompletableMeans(repo.s, record, sizes);
    hide SessionCompleted;
    r := CompleteRows(repo, record, sizes);
    if r.Failure? {
      repo.s, repo.db.t := before, rows;
      repo.db.histories := hs;
      EvolvesIsReflexive(before);
    } else {
      CompletionEvolves(before, hs, repo.db.histories, record, r.value, sizes);
      ClosedIsCompleted(before, record.sessionID);
    }
  }

  lemma CompletionEvolves(
    s: SessionTables, before: map<int, RuleHistory>, after: map<int, RuleHistory>, record: CompletionRecord, ids: seq<int>, sizes: Sizes)
    requires SessionsSound(s) && Reviewable(s, before) && Completable(s, record, sizes) && Completed(s, before, after, record, ids)
    ensures record.sessionID in s.sessions
    ensures Evolves(s, Closed(s, record.sessionID)) && SessionsSound(Closed(s, record.sessionID))
    ensures Reviewable(Closed(s, record.sessionID), after)
  {
    ClosingEvolves(s, record, sizes);
    hide Completable, SessionsSound, Evolves, DeferredBytes, CandidatesBytes, Loaded, AcceptedRule;
    var deferred :| DeferredAndOmitted(s, before, after, record, ids, deferred);
    forall r | IsReviewed(before, r) ensures IsReviewed(after, r) { ProposalsKeepKind(before, after, deferred + record.candidates, r); }
  }

  lemma ClosingEvolves(s: SessionTables, record: CompletionRecord, sizes: Sizes)
    requires SessionsSound(s) && Completable(s, record, sizes)
    ensures record.sessionID in s.sessions
    ensures Evolves(s, Closed(s, record.sessionID)) && SessionsSound(Closed(s, record.sessionID))
  {
    hide CountOf, MaxNo, DeferredBytes, CandidatesBytes, NumberedInOrder, KeysUnique, FindingsUnique;
  }

  lemma ProposalsKeepKind(before: map<int, RuleHistory>, after: map<int, RuleHistory>, records: seq<ProposalRecord>, r: int)
    requires ProposalsMade(before, after, records) && IsReviewed(before, r)
    ensures IsReviewed(after, r)
  {
    assert r in after.Keys;
    if i :| 0 <= i < |records| && records[i].relationID == r { assert ProposalMade(before, after, records[i]); }
  }

  lemma DeferredIsReviewed(
    s: SessionTables, x: int, histories: map<int, RuleHistory>, deferred: seq<ProposalRecord>, i: nat)
    requires Reviewable(s, histories) && Loaded(s, x, deferred, {}) && i < |deferred|
    ensures NamesReviewed(histories, deferred[i])
  {
    assert Matches(s, x, deferred[i].relationID);
    assert (x, deferred[i].relationID) in s.candidates;
  }

  // ----- from planning to commit -----------------------------------------------------------------

  /** However many transactions run between the check, the listing and the commit: if the batch count is the
      expected one at both ends, no batch was accepted in between, the deferred candidates are those of the check,
      and no omitted relation is among them. */
  lemma CompletionIsRaceFree(
    checked: SessionTables, listed: SessionTables, committed: SessionTables, x: int, expected: int,
    t: Tables, session: SessionRow, reader: ScopeReader, plan: seq<int>)
    requires SessionsSound(committed) && Evolves(checked, listed) && Evolves(listed, committed)
    requires CountMatches(checked, x, expected) && CountMatches(committed, x, expected)
    requires Listing(plan, OmittedKeys(t, listed, x, session, reader), {})
    ensures CountOf(listed.batches, x) == expected
    ensures CandidateKeys(committed, x) == CandidateKeys(checked, x)
    ensures forall r :: r in CandidateKeys(checked, x) ==> committed.candidates[(x, r)] == checked.candidates[(x, r)]
    ensures forall i :: 0 <= i < |plan| ==> plan[i] !in CandidateKeys(committed, x)
    ensures forall i, j :: 0 <= i < j < |plan| ==> plan[i] < plan[j]
  {
    BatchCountGrows(checked.batches, listed.batches, x);
    BatchCountGrows(listed.batches, committed.batches, x);
    EvolutionsCompose(checked, listed, committed);
    EqualCountsMeanNoBatch(checked, committed, x);
    EqualCountsMeanNoBatch(listed, committed, x);
    hide Evolves, CountMatches, CountOf;
    forall i | 0 <= i < |plan| ensures plan[i] !in CandidateKeys(committed, x) {
      assert plan[i] in OmittedKeys(t, listed, x, session, reader);
      if (x, plan[i]) in committed.candidates {
        assert (x, plan[i]) in committed.seen;
        assert plan[i] in SeenKeys(committed, x);
        assert plan[i] in SeenKeys(listed, x);
      }
    }
    assert forall i, j :: 0 <= i < j < |plan| ==> Below(plan[i], plan[j]);
  }

  /** The service charges a missing guard or selector for its four-byte null, the transaction does not. */
  function PlannedBytes(t: Tables, plan: seq<int>, sizes: Sizes): nat {
    if plan == [] then 0
    else
      var r := plan[|plan| - 1];
      var nulls :=
        if r in t.current && t.current[r].active.Some? && t.current[r].active.value in t.versions then
          var content := t.versions[t.current[r].active.value].rule.content;
          (if content.guard.None? then 4 else 0) + (if content.selector.None? then 4 else 0)
        else 0;
      PlannedBytes(t, plan[..|plan| - 1], sizes) + ActiveBytes(t, sizes, r) + nulls
  }

  /** For one more relation under an active version the service charges its content, and four bytes each for a guard and a
      selector that are not there. */
  lemma PlanCharges(t: Tables, plan: seq<int>, sizes: Sizes, r: int)
    requires r in t.current && t.current[r].active.Some? && t.current[r].active.value in t.versions
    ensures PlannedBytes(t, [], sizes) == 0
    ensures var content := t.versions[t.current[r].active.value].rule.content;
      PlannedBytes(t, plan + [r], sizes) == PlannedBytes(t, plan, sizes) + sizes.content(content)
        + (if content.guard == None then 4 else 0) + (if content.selector == None then 4 else 0)
  {
    assert (plan + [r])[..|plan|] == plan;
  }

  lemma {:induction false} TransactionChargesNoMore(t: Tables, plan: seq<int>, candidates: seq<ProposalRecord>, sizes: Sizes)
    requires |candidates| == |plan|
    requires forall i :: 0 <= i < |plan| ==> sizes.content(candidates[i].rule.content) == ActiveBytes(t, sizes, plan[i])
    ensures CandidatesBytes(candidates, sizes) <= PlannedBytes(t, plan, sizes)
  {
    if plan != [] {
      var n := |plan| - 1;
      forall i | 0 <= i < n ensures sizes.content(candidates[..n][i].rule.content) == ActiveBytes(t, sizes, plan[..n][i]) {
        assert candidates[..n][i] == candidates[i] && plan[..n][i] == plan[i];
      }
      TransactionChargesNoMore(t, plan[..n], candidates[..n], sizes);
      assert sizes.content(candidates[n].rule.content) == ActiveBytes(t, sizes, plan[n]);
    }
  }

  /** A budget that held for the plan still holds in the transaction, so with equal batch counts and an open
      session the transaction is completable. */
  lemma BudgetHoldsAtCommit(
    checked: SessionTables, committed: SessionTables, record: CompletionRecord, t: Tables, plan: seq<int>, sizes: Sizes)
    requires var x := record.sessionID;
      && CandidateKeys(committed, x) == CandidateKeys(checked, x)
      && (forall r :: r in CandidateKeys(checked, x) ==> committed.candidates[(x, r)] == checked.candidates[(x, r)])
      && x in committed.sessions && committed.sessions[x].status == StatusOpen && CountMatches(committed, x, record.expected)
    requires !BudgetExceeded(|CandidateKeys(checked, record.sessionID)|, DeferredBytes(checked, record.sessionID, sizes),
                             |plan|, PlannedBytes(t, plan, sizes))
    requires |record.candidates| == |plan|
    requires forall i :: 0 <= i < |plan| ==> sizes.content(record.candidates[i].rule.content) == ActiveBytes(t, sizes, plan[i])
    ensures Completable(committed, record, sizes)
  {
    var x := record.sessionID;
    TransactionChargesNoMore(t, plan, record.candidates, sizes);
    forall r | r in CandidateKeys(checked, x) ensures CandidateWeight(committed, x, sizes)(r) == CandidateWeight(checked, x, sizes)(r) {
      CandidateIsStored(checked, x, r);
      CandidateIsStored(committed, x, r);
    }
    SumCongruence(CandidateKeys(checked, x), CandidateWeight(committed, x, sizes), CandidateWeight(checked, x, sizes));
    hide CandidateKeys, CandidateWeight, PlannedBytes, CandidatesBytes, Sum, CountMatches;
  }

  /** The stale proposal prepared for an omitted relation repeats the rule that was active when it was listed,
      provided the revision number it was listed with is still current. */
  lemma StaleProposalKeepsRule(
    t: Tables, h: RuleHistory, actions: seq<Action<Rule>>, r: int, role: Role, ids: Allocated, who: RelationWrites.Provenance)
    requires Invariant(h) && Holds(t, r, h) && h.now.proposed.None? && Runs(h, actions) && Invariant(Run(h, actions))
    requires PrepareInvalidation(role, RelationOf(Run(h, actions), r), |h.now.order|, ProposalStale, ids, who).Success?
    ensures h.now.active.Some? && h.now.active.value in t.versions
    ensures var record := PrepareInvalidation(role, RelationOf(Run(h, actions), r), |h.now.order|, ProposalStale, ids, who).value;
      record.rule == t.versions[h.now.active.value].rule && record.relationID == r
  {
    RevisionCheckSuffices(h, actions);
    hide Runs, Run, Replay, Balanced, Log, HoldsEdge;
    assert HoldsVersion(t, r, h.now.active.value, h.versions[h.now.active.value]);
  }
}
