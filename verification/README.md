# A verified model of dbgraph

dbgraph keeps a reviewed graph of conditional relationships between the columns of scanned database schemas. This
project states what its five connected cores are meant to guarantee, in Dafny 4.11, and proves it of a model that
follows the program branch by branch:

- **The condition language.** A relation carries a guard, a selector and a transform, written in a three-valued
  language. `Conditions` defines what an expression evaluates to, `Evaluator` is the evaluator with its context
  preparation, `Validation` the budgeted validator, `Transfer` the converters between the AST and its JSON form, and
  `References` the columns a relation is recorded to read. `ConditionTheorems` holds the certificate theorem: an answer
  cannot change unless the context gains something the answer reported as missing. `KleeneLogic` says exactly when
  the connectives are those of three-valued logic, and `Meaning` what comparisons, null tests, memberships, cases,
  names and whole edges say, in terms of the values they are about.
- **Path search.** `Graph` says what a trace is about: the simple paths over edges that are not false, the nodes they
  reach, the cycles they close. `LayeredTrace` is the breadth-first search over `GraphRepository`; `RecursiveTrace`
  consumes the walk that the recursive SQL query enumerates; `Trace` chooses between them and relates the two. Both are
  exact whenever they do not report truncation. `SearchSpace` says of a query alone, without a run, that its search
  space does not fit, and looks at nothing the search does not reach: the layered search reports truncation exactly
  when `Overflow` holds, the recursive one exactly when `TooLarge` holds or its walk is too long. `WalkCost` compares
  what the two are charged, and `TraceCases` has the two queries on which a mark says less than it seems to.
- **The relation lifecycle.** `RelationHistory` is one relation as a state machine with its append-only log;
  `RelationTables` relates tables to histories; `RelationRepository` has the write transactions on reviewed relations,
  `DeclaredKeys` those of a schema scan, `RelationCommands` what the commands prepare outside the transaction,
  `InitSessions` and `InitCompletion` the relation-init sessions with their deferred proposals and budgets. `Rules` is
  what the validator lets into the tables; that every stored rule passed it is part of the database's invariant, and
  `EffectiveTrace` serves requests over the edges this makes effective.
- **The write queue.** `WriteQueue` interleaves writers, the worker and closing in single steps.
- **Publication, identifiers and jobs.** `Catalog` and `SnapshotPublication` publish a schema snapshot together with
  its declared keys, on a run recorded by `ScanRuns`; `Words`, `Snowflake` and `Allocation` cover packed identifiers,
  leases and the persisted mark; `Jobs`, `Timestamps` and `SchemaScans` cover the job table, the order in which its rows
  are claimed, and the coordinator that claims, runs and finishes scans while others queue them.

`Wrappers`, `Ordering`, `Text`, `Sums`, `Scope` and `Supply` hold what several of these share. A table is a map or a
sequence, a write transaction is one method that commits all it wrote or nothing, and whatever the program reads from
outside (clock readings, fresh identifiers, whether the store is busy, the outcome of a scan) is a parameter.

`dafny verify dfyconfig.toml` checks the whole project.

## What the proofs found

- `and`, `or` and `in` treat an UNKNOWN with nothing missing (a comparison with null, or an ordering of two values that
  have none) as if it were not there (internal/conditions/evaluate.go:184-191, 202-209, 253-267). So the certificate, the
  rewrites and the budget theorems hold, and Kleene's tables hold exactly where no connective swallows such an UNKNOWN
  (`KleeneLogic.AndIsKleene`, `OrIsKleene`, `InIsKleene`); `KleeneLogic.NullsAreSwallowed` has accepted expressions on
  which they do not.
- A string or boolean literal whose JSON is `null` passes validation, because decoding `null` leaves the Go value alone
  (internal/conditions/validate.go:172-218); it then denotes null. No other accepted literal lacks its declared type
  (`KleeneLogic.LiteralHasItsType`).
- A search state that reaches the depth limit marks the result truncated even when no edge leaves it
  (internal/graph/service.go:273-275, 391-393), so an answer can be whole and still say truncated: with every other
  limit kept, it is marked exactly when `SearchSpace.Deep` holds and whole exactly when `Graph.NothingBeyond` holds
  (`Graph.WholeWhenNothingBeyond`), and `TraceCases.WholeYetMarked` is one edge asked for one step deep.
- The walk also descends below false edges, and the layered search is charged per layer, so the two traversals may
  disagree on the mark; `Trace.TraversalsAgree` says exactly when, and `TraceCases.MarksDiffer` is a query on which they
  do. They never disagree on an answer neither marks, nor on one that only the depth limit cuts.
- The check of the bytes that an edge load reports cannot fire (`GraphRepository.Repository.LoadEdges`), nor can the
  visitor's own count of expansions (`RecursiveTrace.VisitRow`; internal/graph/service.go:189-191, 308-312).
- Removing a declared key numbers its new version one above the active version instead of one above the latest
  (internal/platform/sqlite/declared_fk_repository.go:332-334). The two agree because a declared key never has a
  proposal, which is part of the invariant.
- The schema's trigger on the projection can never refuse a row these transactions write.
- The completion service charges an absent guard or selector as the four bytes of `null`, the transaction does not
  charge it at all (internal/reconcile/service.go:236-258): the service's figure is the larger one, so what it admits
  the transaction admits.
- The second budget comparison while the deferred candidates are loaded never rejects what the first admitted.
- Jobs are claimed in the order of `created_at` as text (internal/platform/sqlite/job_repository.go:94-100). RFC 3339
  with trimmed fractions sorts by time except within one second, where a fraction that continues another's digits sorts
  first (`Timestamps.TextOrderIsTimeOrder`); a claim takes the oldest job exactly when no pending job stands in that
  relation to it (`Jobs.OldestIsClaimed`), and of two jobs created on a second and a tenth later it takes the later one
  (`Jobs.LaterJobIsClaimedFirst`).
- A batch that reports one new finding twice is refused whole, because both are looked up before either is stored
  (internal/platform/sqlite/reconcile_repository.go:205-222, 265-287); no other batch is refused
  for its findings (`InitSessions.StoredUnlessTwice`).

## Model

| member | source | states |
|---|---|---|
| Evaluator.EvaluateBoolean | internal/conditions/evaluate.go:172-295 | the evaluator with its local loops computes the denotation of a boolean expression, errors included; what that denotation is of each kind of expression is stated by the `Meaning` and `KleeneLogic` members |
| Evaluator.EvaluateValue | internal/conditions/evaluate.go:305-339 | likewise for values: column and parameter lookup, literals, case and coalesce |
| Evaluator.NormalizeMissing | internal/conditions/evaluate.go:465-480 | the missing references come out as the strictly ascending sequence of the same references |
| Meaning.MissingInOrder | internal/conditions/evaluate.go:465-480 | they are listed each once, parameters first by name, then columns by node |
| Evaluator.EvaluateBooleanPrepared | internal/conditions/evaluate.go:127-137 | the public evaluation is the denotation with normalised missing references |
| Evaluator.EvaluateValuePrepared | internal/conditions/evaluate.go:150-162 | the same for a value: true when known, unknown otherwise |
| Evaluator.PreparedCertificate | internal/conditions/evaluate.go:127-137 | for every AST that evaluates: it evaluates in every context; a definite answer misses nothing; every missing reference is unbound and, if a column, one the expression mentions; any extension that binds none of them leaves the whole evaluation unchanged |
| Evaluator.PreparedValueCertificate | internal/conditions/evaluate.go:150-162 | the same certificate for values, which are never false |
| Evaluator.PrepareValue | internal/conditions/evaluate.go:106-117 | a context value is charged its key and bytes and accepted exactly when it is within the limits and decodes |
| Evaluator.PrepareContext | internal/conditions/evaluate.go:72-104 | accepts exactly the contexts within the limits, whose charges add up over the keys in whatever order they are visited, and yields the decoded context |
| ConditionTheorems.EvaluationAccounts | internal/conditions/evaluate.go:172-295 | every well-formed expression evaluates in every context, definite answers miss nothing, and each missing reference is unbound there |
| ConditionTheorems.MissingIsCertificate | internal/conditions/evaluate.go:172-295 | extending the context without binding a missing reference changes neither truth nor missing, for every expression |
| ConditionTheorems.ValueCertificate | internal/conditions/evaluate.go:305-339 | the same for values |
| ConditionTheorems.DefiniteAnswersAreFinal | internal/conditions/evaluate.go:172-295 | TRUE and FALSE survive every extension of the context |
| ConditionTheorems.DeMorgan | internal/conditions/evaluate.go:173-220 | pushing a negation through `and` or `or` preserves truth, missing and errors on every context |
| ConditionTheorems.DoubleNegation | internal/conditions/evaluate.go:210-220 | double negation is invisible |
| ConditionTheorems.NotInIsNegatedIn | internal/conditions/evaluate.go:238-275 | `not_in` is the negation of `in`, in truth, missing and errors |
| ConditionTheorems.InIsDisjunction | internal/conditions/evaluate.go:238-275 | `in` is the disjunction of equalities whenever its left side is known |
| KleeneLogic.AndIsKleene | internal/conditions/evaluate.go:174-191 | `and` is Kleene's conjunction exactly unless no part is FALSE, some part is UNKNOWN, and no UNKNOWN part misses anything; then it is TRUE |
| KleeneLogic.OrIsKleene | internal/conditions/evaluate.go:192-209 | the dual for `or`, which is then FALSE |
| KleeneLogic.NotIsKleene | internal/conditions/evaluate.go:210-220 | `not` is always Kleene's |
| KleeneLogic.InIsKleene | internal/conditions/evaluate.go:238-275 | `in` with a known left side is the Kleene disjunction of its equalities exactly unless a null on either side is all that keeps it from being settled |
| KleeneLogic.NotInIsKleene | internal/conditions/evaluate.go:238-275 | the dual for `not_in` |
| KleeneLogic.SilentComparison | internal/conditions/evaluate.go:372-405 | a comparison of known values is UNKNOWN with nothing missing exactly when one is null or they are ordered and have no order |
| KleeneLogic.EdgeIsKleene | internal/graph/service.go:508-553 | an edge combines its parts as `and` does, with the same exception |
| KleeneLogic.LiteralHasItsType | internal/conditions/validate.go:172-218 | an accepted literal denotes a value of its declared type, except that a string or boolean literal may be JSON null |
| KleeneLogic.NullsAreSwallowed | internal/conditions/evaluate.go:184-191 | accepted instances of `and`, `or` and `in` that differ from Kleene's tables in every context |
| Meaning.NumbersCompare | internal/conditions/evaluate.go:372-416 | a comparison of two known numbers, by any of the six operators, is TRUE exactly when the relation of arithmetic holds and FALSE otherwise |
| Meaning.ComparisonMeans | internal/conditions/evaluate.go:221-237 | the same for all values: numbers by size, texts by the first difference, FALSE before TRUE; unequal types are only ever unequal, and null compares as UNKNOWN |
| Meaning.TextLessIsPrecedes | internal/conditions/evaluate.go:428-439 | a text is less than another exactly when, at the first position where they part, it has ended or has the smaller character |
| Meaning.ComparisonLacks | internal/conditions/evaluate.go:457-463 | a comparison with a missing operand is UNKNOWN and misses exactly what its operands miss |
| Meaning.NullTestMeans | internal/conditions/evaluate.go:276-292 | `is_null` is TRUE exactly when the value is null and FALSE otherwise, `is_not_null` the reverse; neither is UNKNOWN on a known value |
| Meaning.NullTestLacks | internal/conditions/evaluate.go:238-285 | a null test or membership whose left value is missing is UNKNOWN and misses what that misses |
| Meaning.MembershipMeans | internal/conditions/evaluate.go:238-275 | `in` is TRUE exactly when the left value is not null and is the value of an item; else UNKNOWN when an item misses something, else FALSE; `not_in` the reverse |
| Meaning.CaseMeans | internal/conditions/evaluate.go:321-335 | a case takes the first branch whose guard is TRUE after guards that are FALSE, stops at an UNKNOWN guard with what that misses, and otherwise takes its last value |
| Meaning.NamesMean | internal/conditions/evaluate.go:305-317 | a column or parameter is what the context binds it to, or is itself what is missing |
| Meaning.LiteralsMean | internal/conditions/evaluate.go:341-370 | a literal is the null, boolean, text or number its JSON says |
| Meaning.AdmissionMeans | internal/conditions/evaluate.go:72-117 | a context is admitted exactly when its limits are positive, its columns are positive, its parameters named, every value is a scalar within the limits, and eight bytes a column, the names and the values add up to no more than the total |
| Meaning.ContextBinds | internal/conditions/evaluate.go:72-104 | an admitted context binds every key to the value its JSON says, and nothing else |
| Text.TrimCuts | internal/conditions/evaluate.go:97 | trimming a name cuts all blanks off its ends and nothing else |
| Ordering.NormalizeInPlace | internal/conditions/evaluate.go:465-480 | sorting and compacting the slice in place leaves the normal form of what it held |
| Ordering.NormalizedIsStrict | internal/conditions/evaluate.go:465-480 | the normal form is strictly ascending and has the same elements |
| Ordering.StrictSequencesAreEqual | internal/conditions/evaluate.go:465-480 | so it depends on the set of elements only |
| Validation.Validator.Enter | internal/conditions/validate.go:43-52 | counts the node and admits it exactly within depth and node limits |
| Validation.Validator.CheckBoolean | internal/conditions/validate.go:54-111 | accepts exactly a well-shaped expression whose depth and size fit what is left; the shared counter then stands at the size of the AST |
| Validation.Validator.CheckValue | internal/conditions/validate.go:113-156 | the same for values |
| Validation.BooleanFields | internal/conditions/validate.go:54-111 | field by field: children for `and` and `or` only, two or more; an operand for `not` only; a left side for comparisons, memberships and null tests, a right side and an operator for comparisons only; items for memberships only, one or more |
| Validation.ValueFields | internal/conditions/validate.go:113-156 | and for values: a positive column, a parameter that is not blank, a literal that fits, or branches with a last value, each for its own kinds and absent from all others |
| Validation.LiteralsByJson | internal/conditions/validate.go:172-218 | which literals fit, by what their JSON is: null for text, boolean and null, a number for a decimal and, plain and within 64 bits, for an integer |
| Validation.ValidateBoolean | internal/conditions/validate.go:20-26 | succeeds exactly on positive limits, the right fields for every kind, depth and size within the limits |
| Validation.ValidateValue | internal/conditions/validate.go:28-34 | the same for values |
| Validation.AcceptedEvaluates | internal/conditions/validate.go:54-111 | what the validator accepts evaluates without error in every context |
| Validation.AcceptedValueEvaluates | internal/conditions/validate.go:113-156 | the same for values |
| References.ReferencesForContent | internal/relations/commands.go:560-579 | the collector with its shared output yields the recorded references |
| References.RecordedExactly | internal/relations/commands.go:560-611 | they are strictly ascending and are exactly the columns each part of the relation mentions, by role |
| References.EvaluationReadsOnlyColumns | internal/relations/commands.go:581-598 | contexts that agree on the mentioned columns and on all parameters give the same evaluation |
| References.ValueReadsOnlyColumns | internal/relations/commands.go:600-611 | the same for values |
| Transfer.IdentifierRoundTrip | internal/transport/mcpapi/read_tools.go:111-124 | formatting and parsing a positive 64-bit identifier gives it back |
| Transfer.NodeCounter.ConvertBoolean | internal/transport/mcpapi/dto.go:107-149 | the converter with its mutable counter agrees with the specification: same AST, same count, same failures |
| Transfer.NodeCounter.ConvertValue | internal/transport/mcpapi/dto.go:156-210 | the same for values |
| Transfer.BooleanRoundTrip | internal/transport/mcpapi/dto.go:366-389 | converting the mapped form of any accepted boolean AST succeeds, returns it, and counts its size |
| Transfer.ValueRoundTrip | internal/transport/mcpapi/dto.go:391-409 | the same for values |
| Transfer.ConvertedWithinBudget | internal/transport/mcpapi/dto.go:107-149 | whatever converts is within the validator's node and depth limits, counted alike |
| Transfer.ValueWithinBudget | internal/transport/mcpapi/dto.go:156-210 | the same for values |
| EdgeEvaluation.EvaluateEdge | internal/graph/service.go:508-553 | guard, selector and transform combine: any false part makes the edge false, otherwise everything missing is collected |
| Meaning.EdgeMeans | internal/graph/service.go:508-553 | an edge is FALSE exactly when its guard or its selector is, and otherwise misses exactly what guard, selector and transform miss, being UNKNOWN exactly when that is anything |
| EdgeEvaluation.EvaluabilityIsContextFree | internal/graph/service.go:508-553 | whether an edge evaluates at all does not depend on the context |
| EdgeEvaluation.EdgeCertificate | internal/graph/service.go:508-553 | more context never revives a false edge nor takes back a true one, and changes an unknown one only through what it is missing |
| EdgeEvaluation.EdgeEvaluator.Evaluate | internal/graph/service.go:484-500 | the per-version cache is invisible: the answer is the evaluation of this edge |
| Graph.MoreContextOnlyRemoves | internal/graph/service.go:142-278 | a path reported under more context is reported, over the same edges, under less; steps true there stay true |
| Graph.CompleteIsExact | internal/graph/service.go:142-278 | sound output that misses no simple path of a length and no cycle they close is exactly the answer as far as that length goes |
| Graph.WholeWhenNothingBeyond | internal/graph/service.go:273-277 | an answer exact up to the depth limit is the whole answer exactly when no reported path, node or cycle lies beyond it |
| GraphRepository.LoadBudget.Accept | internal/platform/sqlite/graph_repository.go:23-36 | charges a row exactly when it fits |
| GraphRepository.Repository.LoadEdges | internal/platform/sqlite/graph_repository.go:193-298 | returns a prefix of the matching rows and is marked truncated exactly when they exceed the row or byte limit given; otherwise returns them all and reports their bytes; never reports more bytes than allowed |
| GraphRepository.GroupEdges | internal/graph/service.go:555-565 | grouping keeps, for every node, its edges in table order |
| GraphRepository.UniqueFrontierNodes | internal/graph/service.go:576-587 | the distinct end nodes of the frontier, each once |
| SearchSpace.ResultBudget.Measure | internal/graph/service.go:431-455 | with step sizes cached per relation version, measures a path's true bytes and stops exactly when they overrun |
| SearchSpace.PathWeighs | internal/graph/service.go:435-452 | a path is charged 88 bytes for its start and 56 besides the encoded size for every further step |
| SearchSpace.ResultBudget.Accept | internal/graph/service.go:431-455 | charges a path exactly when both totals stay within their maxima, and nothing otherwise |
| LayeredTrace.FollowEdge | internal/graph/service.go:205-268 | one edge out of one state has exactly its specified effect, or stops because a named budget is spent |
| LayeredTrace.EmitPath | internal/graph/service.go:239-267 | a new path is reported and queued exactly where the target says, or stops for lack of room |
| LayeredTrace.TryEdge | internal/graph/service.go:201-269 | an edge keeps the layer sound, is accounted for, keeps the counters equal to what they count, and gives up nothing unless a limit is exceeded |
| LayeredTrace.TraceLayer | internal/graph/service.go:167-273 | one layer: if nothing was given up, everything of the answer up to the next depth has been collected, and the counters are the exact cost of the layers so far |
| LayeredTrace.NothingExceeded | internal/graph/service.go:142-278 | a search that ends with nothing given up proves that no limit but depth is exceeded: what it kept and paid bounds every set of paths and every list of layers |
| LayeredTrace.TraceLayered | internal/graph/service.go:142-278 | marked truncated exactly when the search space overflows; unless a limit other than depth is exceeded, exactly the answer to the query as far as the depth limit goes; unmarked, exactly the answer; always within limits and answer, shortest first; failed, some edge does not evaluate (what the answer is in terms of edges and direction: `Trace.ExactAnswers`) |
| RecursiveTrace.Visitor.Visit | internal/graph/service.go:300-395 | an acceptable row has exactly the effect of its edge on its parent's path; a row is refused only if it is inconsistent or its edge does not evaluate |
| RecursiveTrace.RowIsAcceptable | internal/platform/sqlite/graph_repository.go:145-191 | every row of the walk passes the visitor's checks when shown after its parent |
| RecursiveTrace.WalkContains | internal/platform/sqlite/graph_repository.go:145-191 | the walk reaches every simple path within the depth limit and every edge out of it |
| RecursiveTrace.WholeWalkIsExact | internal/graph/service.go:280-411 | a fully visited walk that gave up nothing but depth holds the exact answer as far as the depth limit goes |
| RecursiveTrace.TraceRecursive | internal/graph/service.go:280-411 | for any parent-first enumeration: marked truncated exactly when there is too much to find, a path is cut by the depth limit, or the walk is too long; exact as far as the depth limit goes unless the first or the last; exact when unmarked; failing only if some edge does not evaluate; for any rows at all: within limits, and marked only for these causes |
| RecursiveTrace.VisitRow | internal/platform/sqlite/graph_repository.go:77-138 | the load is cut at its row limit, so the visitor's own count of rows never exceeds the maximum it checks |
| Trace.Serve | internal/graph/service.go:142-278 | for every request the guarantees of the traversal taken; every path goes along its edges downstream and against them upstream, over edges of the table that are not false, through no node twice; and an unmarked answer is all that was asked for |
| Trace.RequestLimits | internal/graph/service.go:462-472 | which requests are valid, and the defaults of one that gives no limits |
| Trace.ExactAnswers | internal/graph/service.go:205-268 | told by the request and the edges alone, an answer is exact when it has the wanted routes once each, as many nodes as routes lead to, and a cycle exactly when an edge leads from a route back into it |
| Trace.NeighboursAreReported | internal/graph/service.go:217-220 | upstream, a full answer without a target has a one-step path for every edge that is not false and ends at the start; downstream for every one that begins there |
| Trace.ExactAnswersAgree | internal/graph/service.go:280-411 | the two traversals, when neither truncates, return the same paths, node count and cycle flag |
| Trace.AnswersWithinAgree | internal/graph/service.go:280-411 | and so are two answers that are exact up to the same depth |
| Trace.TraversalsAgree | internal/graph/service.go:142-411 | runs both: they fail only if an edge does not evaluate; their marks differ exactly when what there is to find fits, nothing is cut by depth, and only one of the two is charged too much; when neither is and there is not too much, they return the same answer with the same mark |
| Trace.MoreContextNeverAdds | internal/graph/service.go:210-216 | of two exact answers, every path under the larger context is one under the smaller, and its true steps stay true |
| Trace.DepthOrderIsParentFirst | internal/platform/sqlite/graph_repository.go:145-191 | the order of the query's own enumeration is parent first, complete and without repetition |
| WalkCost.WalkCostsMore | internal/graph/service.go:167-203 | the walk has at least as many rows as any layers of the search try edges, and at least as many bytes as they load |
| WalkCost.CostlyIsTooLong | internal/graph/service.go:167-203 | so the layered search is too costly where the walk is not too long only if a budget is spent to the last unit before a layer |
| TraceCases.WholeYetMarked | internal/graph/service.go:273-277 | one edge asked for one step deep: the answer is whole and marked truncated |
| TraceCases.MarksDiffer | internal/graph/service.go:280-411 | behind a false edge lie more bytes than one trace may load: the layered answer is whole and unmarked, the recursive one is marked |
| RelationHistory.ActionKeepsInvariant | internal/platform/sqlite/relation_repository.go:197-319 | every enabled action keeps: projection equals replay of the log, numbers gapless, proposal and status fit, edge iff approved |
| RelationHistory.RunKeepsInvariant | internal/platform/sqlite/relation_repository.go:197-319 | over whole runs |
| RelationHistory.HistoryOnlyGrows | internal/platform/sqlite/relation_repository.go:635-669 | no event is ever lost or rewritten, no version changes |
| RelationHistory.EveryReachableHistory | internal/platform/sqlite/relation_repository.go:44-112 | in every reachable history the log replays to the projection, revisions are 1..latest, each version is decided at most once and superseded exactly when it stops being active, and the edge is the approved active content |
| RelationHistory.InvariantNumbers | internal/platform/sqlite/relation_repository.go:451-546 | revision numbers have no gap and no repetition |
| RelationHistory.InvariantDecides | internal/platform/sqlite/relation_repository.go:197-319 | a version has at most one review outcome and is superseded at most once |
| RelationHistory.RevisionCheckSuffices | internal/platform/sqlite/relation_repository.go:136-148 | in any interleaving, equal revision counts mean the same active version, whatever suppress, restore and review did in between |
| RelationHistory.PastVersionsStayPast | internal/platform/sqlite/relation_repository.go:246-298 | a superseded or rejected version is never active, proposed or effective again |
| RelationTables.TransactionCouples | internal/platform/sqlite/relation_repository.go:197-319 | a transaction that touches one relation correctly keeps the tables equal to all histories |
| RelationTables.TriggerIsImplied | migrations/001_init.sql:487-623 | the schema's trigger on the projection accepts every row the invariant allows |
| RelationTables.ReadsBack | internal/platform/sqlite/relation_read_repository.go:62-213 | reading a relation returns its history's projection, its revisions, the stale marker and whether it is effective |
| RelationRepository.Database.ProposeCreate | internal/platform/sqlite/relation_repository.go:44-112 | succeeds exactly when acceptable, adds exactly the created history, leaves effective edges alone; otherwise nothing changes |
| RelationRepository.Database.ProposeRevision | internal/platform/sqlite/relation_repository.go:127-195 | the same for a revision, which the state machine then allows |
| RelationRepository.Database.Review | internal/platform/sqlite/relation_repository.go:197-319 | succeeds exactly when acceptable and applies exactly the approval or rejection, atomically |
| RelationRepository.Database.ChangeState | internal/platform/sqlite/relation_repository.go:335-442 | the same for suppress and restore, including the presence check of declared keys |
| RelationRepository.CreateSucceeds | internal/platform/sqlite/relation_repository.go:44-112 | told by the rows: nothing has its fingerprint or identifiers, both ends and all columns it reads are active, and no event says the same for the same request |
| RelationRepository.RevisionSucceeds | internal/platform/sqlite/relation_repository.go:127-195 | the relation stands at the expected revision with nothing under review, the revision is the next one, and the rest is as for a creation |
| RelationRepository.ReviewSucceeds | internal/platform/sqlite/relation_repository.go:197-319 | in a valid database the review of the latest revision while it is proposed succeeds exactly under new event identifiers and requests |
| RelationRepository.StateSucceeds | internal/platform/sqlite/relation_repository.go:335-442 | what is in effect can be suppressed and what is suppressed restored, exactly while nothing is under review and, for a declared key, while it is present |
| SnapshotPublication.OnlyActiveColumns | internal/platform/sqlite/relation_repository.go:555-586 | the nodes a relation may refer to, as a publication leaves them: the columns whose current version is active |
| RelationCommands.CreationIsWellFormed | internal/relations/commands.go:45-105 | a prepared creation is valid and requires exactly its end nodes and recorded references |
| RelationCommands.CreationIsPossible | internal/relations/commands.go:362-415 | exactly for agents, editors and admins, the reviewed kind, two different nodes, a confidence of at most one, and parts that pass the validator |
| RelationCommands.SameCreation | internal/relations/commands.go:524-550 | two creations have one fingerprint exactly when nodes and content agree, whatever their confidence |
| RelationCommands.RevisionIsPossible | internal/relations/commands.go:107-177 | in every reachable state a revision can be prepared exactly by those who may revise, at the current number, with nothing under review |
| RelationCommands.InvalidationIsPossible | internal/relations/commands.go:196-253 | and an invalidation exactly while the relation is in effect or suppressed besides; it repeats the active rule |
| RelationCommands.ReproposalIsPossible | internal/reconcile/types.go:187-215 | a creation becomes a reproposal exactly when its relation has nothing under review and is neither in effect nor suppressed |
| RelationCommands.RevisionIsCurrent | internal/relations/commands.go:107-177 | a content revision accepted at commit replaces the active version it was prepared against, whatever suppress and restore did in between |
| RelationCommands.InvalidationIsCurrent | internal/relations/commands.go:196-253 | an invalidation accepted at commit names the active version seen at prepare time, in every interleaving |
| RelationCommands.ReproposalIsCurrent | internal/reconcile/types.go:187-215 | the same for a reproposal: nothing it saw has changed |
| RelationCommands.RevisionIsAccepted | internal/relations/commands.go:107-177 | the rule of a prepared revision passed the validator |
| RelationCommands.InvalidationIsAccepted | internal/relations/commands.go:196-253 | an invalidation of a relation in a valid database carries a rule that passed it |
| RelationCommands.ReproposalIsAccepted | internal/reconcile/types.go:187-215 | a reproposal carries the rule it was made from |
| DeclaredKeys.KeyRuleAccepted | internal/platform/sqlite/declared_fk_repository.go:175-244 | the rule of a declared key between two different positive nodes would pass the validator |
| RelationCommands.EffectiveEdgesEvaluate | internal/platform/sqlite/relation_repository.go:593-633 | in every valid database, whose invariant every transaction keeps, each effective edge evaluates in every context |
| RelationCommands.TracesEvaluate | internal/platform/sqlite/graph_repository.go:193-298 | so no trace over the effective edges of such a database can fail on an edge, and its nodes are positive |
| EffectiveTrace.ServeEffective | internal/graph/service.go:142-278 | over the effective edges of a valid database every valid request succeeds, with the answer of the traversal taken, which is all that was asked for when it is not marked |
| Rules.ActionKeepsRules | internal/relations/commands.go:362-415 | the step by which every transaction keeps it: an action that brings at most an accepted rule leaves every version of every relation with an accepted one |
| Rules.ContentEvaluates | internal/relations/commands.go:362-415 | accepted content evaluates in every context |
| Scope.NodeWithinTableScope | internal/platform/sqlite/catalog_repository.go:891-904 | an empty scope covers everything, another the tables it names and the columns whose name, cut before one of its dots, is one of them |
| Scope.ScopeCovers | internal/platform/sqlite/catalog_repository.go:891-904 | the same of the specification by which publications are stated |
| Scope.ColumnsFollowTables | internal/platform/sqlite/catalog_repository.go:899 | a column whose own name has no dot is covered exactly when its table is, unless the scope names what the table's name begins with |
| DeclaredKeys.InsertDeclaredForeignKey | internal/platform/sqlite/declared_fk_repository.go:175-244 | a new key is approved without review, joins the two given columns, and touches no other edge |
| DeclaredKeys.ReactivateDeclaredForeignKey | internal/platform/sqlite/declared_fk_repository.go:246-308 | publishes the observed rule on a tombstoned key, leaves a suppressed one alone, and can refuse no other state a scan meets |
| DeclaredKeys.RemoveDeclaredForeignKey | internal/platform/sqlite/declared_fk_repository.go:310-372 | tombstones an approved key under its old rule, leaves suppressed and tombstoned ones alone |
| DeclaredKeys.ObserveKeys | internal/platform/sqlite/declared_fk_repository.go:42-97 | every observed key ends up present, and its edge is the observed one if it was new or absent |
| DeclaredKeys.Settle | internal/platform/sqlite/declared_fk_repository.go:98-118 | a key the scan covered and did not see is tombstoned and loses its edge; every other key is left alone |
| DeclaredKeys.ReconcileDeclaredForeignKeys | internal/platform/sqlite/declared_fk_repository.go:27-120 | after a scan the in-scope keys are present iff observed, edges follow, each observed key has its fact naming the relation it is mapped to, reviewed relations and suppressed keys are untouched, and no failure is ever an illegal transition |
| DeclaredKeys.EffectiveIffPresentAndNotSuppressed | internal/platform/sqlite/declared_fk_repository.go:159-173 | in every reachable state a declared key is effective iff present and not suppressed, and never has a proposal |
| InitSessions.MaximumIsCount | internal/platform/sqlite/reconcile_completion_repository.go:79-98 | the largest batch number of a session is its number of batches |
| InitSessions.InitRepository.Begin | internal/platform/sqlite/reconcile_repository.go:23-95 | a repeated request finds its session; it conflicts exactly when repository, mode, commit or the text of the scope differs |
| InitSessions.InitRepository.ConsiderExisting | internal/platform/sqlite/reconcile_repository.go:184-199 | a proposal for a known relation is deferred exactly when it can be reproposed and this session has not deferred it yet |
| InitSessions.InitRepository.AcceptProposals | internal/platform/sqlite/reconcile_repository.go:167-204 | every item stands for the relation of its proposal's fingerprint, is marked created exactly when it first names a new relation, which then begins with its proposal, and reproposed exactly when its relation had been invalidated or rejected and is not deferred yet; relations that were there, and effective edges, stay |
| InitSessions.InitRepository.SubmitBatch | internal/platform/sqlite/reconcile_repository.go:101-302 | atomic; a repeated key gets its first answer or a conflict; a new batch is accepted only under the next number; each error has its exact condition; exactly the items are recorded as seen, those without an origin get the session's repository, exactly the reproposals become candidates of this batch, and every unresolved finding is answered by a stored finding of its repository and fingerprint |
| InitSessions.InitRepository.RecordFindings | internal/platform/sqlite/reconcile_repository.go:265-287 | the new findings of a batch are stored exactly when no two of them, and none of them and a stored one, are the same |
| InitSessions.StoredUnlessTwice | internal/platform/sqlite/reconcile_repository.go:205-287 | under new identifiers that is so exactly when the batch reports no new finding twice |
| InitSessions.StandingMeans | internal/platform/sqlite/reconcile_repository.go:205-222 | the finding that answers for another has its repository and its fingerprint |
| InitSessions.EvolutionsCompose | internal/platform/sqlite/reconcile_repository.go:101-302 | what transactions may do to the session tables composes over whole runs |
| InitSessions.EqualCountsMeanNoBatch | internal/platform/sqlite/reconcile_completion_repository.go:79-98 | equal batch counts at two times mean nothing was seen or deferred in between |
| InitSessions.StaysReviewable | internal/platform/sqlite/reconcile_completion_repository.go:119-138 | a deferred proposal's relation stays a reviewed one whatever happens to it |
| InitCompletion.Summary | internal/platform/sqlite/reconcile_completion_repository.go:18-32 | counts the candidates and adds up their bytes |
| InitCompletion.CheckCompletion | internal/platform/sqlite/reconcile_repository.go:392-415 | passes exactly when the session is open, the count matches and the deferred budget holds |
| InitCompletion.ListOmittedRelations | internal/platform/sqlite/reconcile_repository.go:304-390 | lists, ascending, exactly the relations that come from the session's repository, are approved or suppressed under an active version with nothing proposed, were not seen by the session and, in an incremental one, are named by its scope; reads each as it is by then; fails exactly when they exceed a limit, the scope is no list of relations, or one cannot be read |
| InitCompletion.LoadCandidates | internal/platform/sqlite/reconcile_completion_repository.go:140-179 | loads every deferred candidate once, and fails exactly on an exceeded budget or a mismatched row |
| InitCompletion.CandidateASTRawBytes | internal/platform/sqlite/reconcile_completion_repository.go:54-77 | the total, or a figure already above the maximum |
| InitCompletion.InsertAll | internal/platform/sqlite/reconcile_repository.go:457-467 | makes each proposal in order and changes no effective edge |
| InitCompletion.Complete | internal/platform/sqlite/reconcile_repository.go:417-501 | atomic; refused before any write exactly unless the session is open with the expected number of batches and at most a hundred candidates and a mebibyte in all; then proposes exactly the deferred and omitted records, completes the session, and changes no effective edge |
| InitCompletion.CompletionIsRaceFree | internal/reconcile/service.go:151-229 | if the count matched at the check and at commit, no batch came in between, and deferred and omitted candidates name distinct relations |
| InitCompletion.PlanCharges | internal/reconcile/service.go:236-258 | for every relation of the plan the service charges its active content and four bytes each for a missing guard and selector |
| InitCompletion.TransactionChargesNoMore | internal/reconcile/service.go:236-258 | the transaction never charges more than the service did |
| InitCompletion.BudgetHoldsAtCommit | internal/reconcile/service.go:151-229 | so a completion within the service's budget is within the transaction's |
| InitCompletion.StaleProposalKeepsRule | internal/relations/commands.go:196-253 | a stale proposal carries the rule of the version that was listed as omitted |
| WriteQueue.StepKeepsInvariant | internal/platform/sqlite/write_queue.go:23-128 | every single step of any writer, the worker or Close keeps the protocol's invariant |
| WriteQueue.RunKeepsInvariant | internal/platform/sqlite/write_queue.go:23-128 | over every interleaving |
| WriteQueue.SendNeverBlocks | internal/platform/sqlite/write_queue.go:32-65 | the send made under the lock always finds room |
| WriteQueue.RefusedOnlyWhenFull | internal/platform/sqlite/write_queue.go:32-56 | over every run, a writer with the lock is refused as closed exactly when the store is, as full exactly when more requests than the capacity wait or are in the worker's hands, and else admitted |
| WriteQueue.CloseReturnsWhenDone | internal/platform/sqlite/write_queue.go:113-128 | the closer that stops the worker returns only when the queue is empty and every admitted request has its result, in order |
| WriteQueue.ClosesOnce | internal/platform/sqlite/write_queue.go:113-128 | a second closer lets go of the lock and returns; only the first raises the flag |
| WriteQueue.AdmittedOnceInOrder | internal/platform/sqlite/write_queue.go:67-111 | results come in admission order, one per request, executions before rejections, none lost |
| WriteQueue.DoneMeansEmptyForGood | internal/platform/sqlite/write_queue.go:101-128 | once the worker is done every admitted request has its result and the queue stays empty |
| WriteQueue.CollectedAnswerIsOwn | internal/platform/sqlite/write_queue.go:32-65 | a writer collects the result of its own request |
| WriteQueue.WorkerNeverStuck | internal/platform/sqlite/write_queue.go:67-79 | the worker can always move, and shutting down makes progress |
| Snowflake.PackedIsComposed | internal/id/generator.go:279-281 | on 64-bit words, shifting the fields into place and joining them is, for the integers they stand for, the sum of the fields at their weights |
| Snowflake.WordFields | internal/id/generator.go:242-259 | shifting and masking any word yields the integer fields of its integer, of which it is composed |
| Snowflake.UnpackUndoesPack | internal/id/generator.go:279-281 | packing loses nothing within 63 bits |
| Snowflake.PackUndoesUnpack | internal/id/generator.go:242-259 | and every 63-bit number is a packed one |
| Snowflake.SuccessorIsNext | internal/id/generator.go:242-259 | the successor is the least usable identifier above, and fails exactly when there is none |
| Allocation.Generator.Next | internal/id/generator.go:72-102 | issues strictly ascending identifiers under any clock reading, and fails exactly on an unusable clock or an exhausted millisecond |
| Allocation.ReserveRange | internal/id/generator.go:204-240 | grants a lease exactly when the whole lease fits: first identifier, successors, last |
| Allocation.LeaseAscends | internal/id/generator.go:204-240 | a lease is strictly ascending and usable throughout |
| Allocation.LeaseIsFresh | internal/id/generator.go:204-240 | and lies above the persisted mark and not before the observed time |
| Allocation.StateStore.ReserveIDRange | internal/platform/sqlite/id_state_repository.go:12-46 | the mark moves to the end of a fresh lease or not at all, whether or not the answer arrives |
| Allocation.PersistentAllocator.Next | internal/id/generator.go:140-165 | hands out the lease in order and reserves only when it is empty; what it takes from the store is nothing or a fresh lease |
| Allocation.PersistentAllocator.Ensure | internal/id/generator.go:167-185 | afterwards that many identifiers are at hand; a sufficient lease is kept as it is |
| Allocation.EnsureAndDraw | internal/platform/sqlite/catalog_repository.go:321-339 | after Ensure(n), n calls of Next reserve nothing and hand out what is there in order, whatever clock and store do meanwhile |
| Allocation.NextInSystem | internal/id/generator.go:140-165 | every call of Next is a run of the allocator system, other allocators untouched, so it never returns what any allocator has returned before |
| Allocation.EnsureInSystem | internal/id/generator.go:167-185 | and so is every call of Ensure, which hands nothing out |
| Allocation.IdentifiersAreUnique | internal/id/generator.go:187-202 | over any run of leases, losses, restarts and hand-outs by any allocators of a node, all identifiers differ and each allocator's ascend |
| Allocation.LeaseServedInOrder | internal/id/generator.go:140-165 | between two reservations an allocator hands out exactly the next part of its lease |
| Allocation.PendingIsPlenty | internal/platform/sqlite/catalog_repository.go:325-331 | what an allocator still has is what a publication may draw: valid, different, handed out to nobody |
| Catalog.CatalogStore.ResolveNodeIDs | internal/platform/sqlite/catalog_repository.go:709-759 | every key gets its node, known keys keep theirs, new nodes have their input's kind; fails only for want of identifiers |
| Catalog.CatalogStore.InsertSeen | internal/platform/sqlite/catalog_repository.go:372-410 | every input gets an active version with its facts, under its parent's node |
| Catalog.CatalogStore.InsertStale | internal/platform/sqlite/catalog_repository.go:412-446 | every missing node gets a stale version that carries its last facts |
| Catalog.CatalogStore.PublishCurrent | internal/platform/sqlite/catalog_repository.go:448-469 | exactly these nodes switch, and the search rows with them |
| Catalog.CatalogStore.PublishNodes | internal/platform/sqlite/catalog_repository.go:341-494 | snapshot nodes active, missing nodes stale, all others unchanged, one search row per active node; with enough identifiers and known parents it cannot fail |
| Catalog.PublishedFollows | internal/platform/sqlite/catalog_repository.go:341-494 | told by the rows: every input has its node, listed once with its facts; a node the scan should have seen and did not has a new stale version with its last facts and is listed no more; every other node keeps version and listing |
| Catalog.ActiveNodesAreListed | internal/platform/sqlite/catalog_repository.go:448-494 | in a sound catalog the search index lists each active node once, with its name, qualified name and type, and no other node |
| Catalog.PhasesPublish | internal/platform/sqlite/catalog_repository.go:341-494 | the four phases together are a publication and keep the invariant |
| Catalog.FullScanIsExact | internal/platform/sqlite/catalog_repository.go:832-889 | after a full scan the active nodes of the source are exactly the snapshot's |
| Catalog.OutOfScopeIsUntouched | internal/platform/sqlite/catalog_repository.go:832-889 | nodes of other sources or outside the scope keep their version |
| Catalog.KeyKeepsNode | internal/platform/sqlite/catalog_repository.go:709-759 | a stable key names the same node forever |
| SnapshotPublication.PublishSnapshot | internal/platform/sqlite/catalog_repository.go:321-494 | refused exactly when the data source is gone or the run begun for it has ended; catalog, search index, declared keys, facts and the run move together or not at all; success ends the run with what was counted; told by the rows, every node and every key is found, gone or left alone as the scan saw it; no failure is an illegal transition |
| SnapshotPublication.PublicationFollows | internal/platform/sqlite/declared_fk_repository.go:27-120 | told by the rows: an observed key is present and, if it was not before and nobody suppressed it, copies its source column to its target column with full confidence; a key scanned away is absent without an edge; every other key is as it was |
| SnapshotPublication.OtherTablesAreLeftAlone | internal/platform/sqlite/declared_fk_repository.go:98-118 | a scan limited to some tables leaves the columns of all other tables, their search rows, and the keys that start at them alone |
| SnapshotPublication.ScannedTablesLoseColumns | internal/platform/sqlite/catalog_repository.go:866-889 | a scan that looks at a table makes the columns it no longer sees there stale and takes the keys that start at them out of effect |
| SnapshotPublication.CheckedKeysResolve | internal/catalog/catalog.go:771-846 | keys the service checked join two different published nodes |
| ScanRuns.RunStore.BeginSchemaScan | internal/platform/sqlite/catalog_repository.go:270-286 | begins a run exactly for a known data source under a new identifier |
| ScanRuns.RunStore.FailSchemaScan | internal/platform/sqlite/catalog_repository.go:288-319 | fails a run exactly while it is open for that data source |
| ScanRuns.EndedRunsAreNotPublished | internal/platform/sqlite/catalog_repository.go:496-515 | a run that has ended never changes again and can never be published, however late its scanner returns |
| Jobs.JobRepository.CreateSchemaScanJob | internal/platform/sqlite/job_repository.go:38-68 | accepts a job exactly when there is room under the cap |
| Jobs.JobRepository.ClaimNextSchemaScan | internal/platform/sqlite/job_repository.go:87-121 | claims the first pending job by text of creation time and then identifier: it is running since the given time under the next revision, and nothing else changes; fails exactly when none is pending |
| Jobs.JobRepository.RecoverRunningSchemaScans | internal/platform/sqlite/job_repository.go:123-157 | every open scan run is failed as interrupted, and every running job, and no other, is pending again, without a start, under the next revision |
| Jobs.JobRepository.FinishSchemaScan | internal/platform/sqlite/job_repository.go:159-199 | succeeds exactly for the holder of the current claim; then the job has the completion's status, result, error code and time under the next revision, and no other job differs |
| Jobs.StepWrites | internal/platform/sqlite/job_repository.go:87-199 | the same column by column for every transaction of a run |
| Jobs.FinishFollowsItsClaim | internal/platform/sqlite/job_repository.go:87-199 | in any run, every finish follows its own claim with no recovery, claim or finish of that job in between |
| Jobs.FinishedOnceForAll | internal/platform/sqlite/job_repository.go:159-199 | a job is finished at most once and never changes afterwards |
| Jobs.CapHolds | internal/platform/sqlite/job_repository.go:38-68 | if every creation respects the cap, pending plus running never exceed it |
| Jobs.RecoveryVoidsClaims | internal/platform/sqlite/job_repository.go:123-157 | a claim held at recovery is void in every later state |
| Timestamps.TextOrderIsTimeOrder | internal/platform/sqlite/job_repository.go:74-85 | formatted instants with years of equal width sort as time does exactly unless they share a second and one trimmed fraction continues the other; those sort the wrong way round |
| Timestamps.FieldsOrder | internal/platform/sqlite/job_repository.go:74-85 | comparing calendar fields in turn is comparing seconds |
| Timestamps.GregorianYears | internal/platform/sqlite/job_repository.go:74-85 | the years of those fields are Gregorian: every fourth is a day longer, except centuries not divisible by 400 |
| Timestamps.GregorianMonths | internal/platform/sqlite/job_repository.go:74-85 | months other than February alternate between 31 and 30 days but for July and August, and February has what is left of the year |
| Timestamps.FormatReadsBack | internal/platform/sqlite/job_repository.go:74-85 | every text reads back as the instant it was made from: a valid date and time of day, whose second it is, and the fraction without trailing zeros |
| Jobs.EarlierIsOlder | internal/platform/sqlite/job_repository.go:94-100 | of two pending jobs the earlier in claim order is the older exactly when their times are not so related |
| Jobs.OldestIsClaimed | internal/platform/sqlite/job_repository.go:87-121 | the job that has waited longest is first in line exactly when no other pending job's time is so related to its own |
| Jobs.ClaimTakesOldest | internal/platform/sqlite/job_repository.go:87-121 | while no two pending jobs are so related, every claim takes the oldest |
| Jobs.LaterJobIsClaimedFirst | internal/platform/sqlite/job_repository.go:94-100 | of jobs created on any full second and a tenth of a second later, the later is claimed first |
| SchemaScans.CompletionOf | internal/jobs/schema_scan.go:244-299 | a job succeeds exactly on a published and encodable result, is cancelled exactly when cut off, and every failure carries a code |
| SchemaScans.Coordinator.FinishWithRetry | internal/jobs/schema_scan.go:301-314 | retries a busy store until it answers or the wait is cancelled; the completion takes effect at most once, for certain when the answer says so, and a held claim is never lost, whatever is queued meanwhile |
| SchemaScans.Coordinator.ProcessNext | internal/jobs/schema_scan.go:236-286 | commits, of its own, nothing, a claim of the first job in line, or that claim and the completion of that job by the outcome of its scan: then the row is succeeded exactly when the outcome was published and could be encoded, with its summary, cancelled exactly when the failed scan was cut off, failed with a code otherwise; a claim stays open only when it is cancelled |
| SchemaScans.Coordinator.RecoverRunning | internal/jobs/schema_scan.go:218-234 | commits one recovery, after which nothing runs, or, cancelled, perhaps none |
| SchemaScans.Coordinator.Run | internal/jobs/schema_scan.go:178-216 | whoever queues jobs meanwhile and whichever call is cut off, its own transactions are one recovery, then claims each followed by the completion of the claimed job, at most the last one open, and exactly that job is left running |
| SchemaScans.RunGoesOn | internal/jobs/schema_scan.go:178-216 | what it commits continues any run of the job table, so the theorems about runs apply to it |

## Left out

- SQLite, SQL text, row scanning, migrations and file handling: a table is a map, a write one atomic step.
- SHA-256 and `big.Rat`: fingerprints and digests are injective on their inputs, numbers are rationals. The 16
  characters of a stable key that go into a request id are an arbitrary function of the key.
- JSON lexing and encoding: literals are a datatype, encoded sizes an arbitrary function of a step or a rule, and
  encoding errors do not occur, except that a scan's summary may fail to encode.
- The AST's own JSON methods (internal/conditions/types.go:92-128); the converters of the MCP layer are modelled.
- Text is a sequence of characters compared code by code; `strings.TrimSpace` removes ASCII blanks only.
- Confidence is in basis points throughout.
- LayeredTrace.TraceLayered: context cancellation and repository errors are not modelled; the rows are fixed during a
  trace, as are the relation versions behind the cache.
- RelationHistory.EveryReachableHistory: events are in commit order; their ids and times are allocated when a command is
  prepared and may be ordered differently.
- RelationRepository.Database.Review: evidence, audit rows, role, actor and reason checks of the reviewer, and the length
  limits of text columns are not part of the tables.
- RelationCommands.CreationIsPossible: evidence, and the checks of actor, reason and request text, are left out here and in
  the other commands.
- InitCompletion.ListOmittedRelations: how the text of a scope reads as a list of relations is a parameter.
- InitCompletion.Complete: a record that a transaction rejects is reported as such without saying which row refused it.
- InitSessions.InitRepository.SubmitBatch: a finding is its repository, fingerprint and summary; resolving or dismissing
  one is not part of the program yet, so all are open.
- DeclaredKeys.ReconcileDeclaredForeignKeys: the order in which lost keys are removed is arbitrary.
- Allocation.StateStore.ReserveIDRange: the one identifier 0 (node 0 in the first millisecond) fails the table's check.
- That the identifiers reserved before a publication always suffice holds only if active nodes and present keys stay
  within the snapshot maxima, which incremental scans do not enforce.
- Jobs.CapHolds: the cap binds creations of schema scans only; the plain job insertion does not look at it.
- Jobs.OldestIsClaimed: the exact condition is for years of equal width, which covers the years 0 to 9999.
- SchemaScans.Coordinator.Run: one coordinator process is assumed; a cancelled call that commits does so before the next
  step of the model; store errors other than busy, a lost claim and cancellation, the poll interval and the back-off
  delays are left out.
- Time-outs and cancellation inside a transaction, write-queue admission errors as seen by callers of the repositories.
- DeleteDataSource (refused while the source has nodes), cardinality inference, rate limiting, tokens, sessions, DSN
  sealing, configuration, the MySQL scanner, and the HTTP, MCP and Web adapters apart from the condition converters.
