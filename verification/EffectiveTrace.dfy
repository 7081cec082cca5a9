/** Tracing what the lifecycle made effective. */
module EffectiveTrace {
  import opened Wrappers
  import opened EdgeEvaluation
  import opened Evaluator
  import opened Graph
  import opened GraphRepository
  import opened SearchSpace
  import opened RecursiveTrace
  import opened Trace
  import LayeredTrace
  import RelationRepository
  import RelationCommands

  /** Over the effective edges of a valid database every valid request succeeds: no rule that the lifecycle can have
      made effective fails to evaluate. */
  method ServeEffective(
    db: RelationRepository.Database, given: TraceRequest, repository: Repository, walk: Option<seq<Candidate>>,
    encodedSize: Step -> nat, ghost trails: seq<seq<Edge>>)
    returns (r: Result<TraceResult, LayeredTrace.TraceError>)
    requires db.Valid() && RelationCommands.RowsOf(db.t, repository.rows) && UniqueRelations(repository.rows)
    requires walk.Some? ==> forall i :: 0 <= i < |walk.value| ==>
      RowShape(QueryOf(given, repository.rows), walk.value[i])
    ensures var request := given.(limits := EffectiveLimits(given.limits));
      var q := QueryOf(given, repository.rows);
      ValidRequest(request) && Admissible(given.context, DefaultContextLimits)
      && (TakesWalk(given, walk) ==> ParentFirst(q, request.limits.maxDepth, walk.value, trails)) ==>
        && r.Success?
        && (if TakesWalk(given, walk)
            then RecursiveAnswer(q, request.limits, SizesOf(q, encodedSize), WalkTooLong(walk.value), r.value)
            else LayeredAnswer(q, request.limits, SizesOf(q, encodedSize), r.value))
        && (!r.value.truncated ==> Answers(given, repository.rows, r.value))
  {
    var q := QueryOf(given, repository.rows);
    RelationCommands.TracesEvaluate(db, q);
    assert PositiveNodes(q);
    hide ParentFirst, RecursiveAnswer, LayeredAnswer, SizesOf, SomeEdgeFails, WalkTooLong, Admissible, ValidRequest, Answers, Wanted, AlongEdges, AgainstEdges;
    r := Serve(given, repository, walk, encodedSize, trails);
  }
}
