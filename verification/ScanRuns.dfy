/** The record of scan runs: a run is begun, and ends once: by the snapshot it publishes, by a failure, or because the
    process that ran it died. */
module ScanRuns {
  import opened Wrappers

  datatype RunStatus = RunRunning | RunSucceeded | RunFailed

  datatype ScanRun = ScanRun(
    dataSource: int, status: RunStatus, nodeCount: nat, staleCount: nat, errorCode: Option<string>,
    startedAt: string, completedAt: Option<string>)

  datatype RunError = InvalidSnapshot | RunConstraintViolated

  type RunOutcome<+T> = Result<T, RunError>

  type Runs = map<int, ScanRun>

  function Begun(dataSource: int, startedAt: string): ScanRun {
    ScanRun(dataSource, RunRunning, 0, 0, None, startedAt, None)
  }

  function EndedBadly(run: ScanRun, code: string, at: string): ScanRun {
    run.(status := RunFailed, errorCode := Some(code), completedAt := Some(at))
  }

  function EndedWell(run: ScanRun, nodes: nat, stale: nat, at: string): ScanRun {
    run.(status := RunSucceeded, nodeCount := nodes, staleCount := stale, completedAt := Some(at))
  }

  /** The run has failed, under this code and at this time. */
  predicate FailedWith(run: ScanRun, code: string, at: string) {
    run.status == RunFailed && run.errorCode == Some(code) && run.completedAt == Some(at)
  }

  predicate RunIsOpen(runs: Runs, id: int, dataSource: int) {
    id in runs && runs[id].dataSource == dataSource && runs[id].status == RunRunning
  }

  /** A run only changes by ending, and then never again. */
  predicate RunAdvances(a: ScanRun, b: ScanRun) {
    && b.dataSource == a.dataSource && b.startedAt == a.startedAt
    && (b != a ==> a.status == RunRunning && b.status != RunRunning)
  }

  predicate RunsAdvance(before: Runs, after: Runs) {
    forall id :: id in before ==> id in after && RunAdvances(before[id], after[id])
  }

  lemma RunsAdvanceOn(a: Runs, b: Runs, c: Runs)
    requires RunsAdvance(a, b) && RunsAdvance(b, c)
    ensures RunsAdvance(a, c)
  {
    forall id | id in a ensures id in c && RunAdvances(a[id], c[id]) {
      assert RunAdvances(a[id], b[id]) && RunAdvances(b[id], c[id]);
    }
  }

  predicate NoneRunning(runs: Runs) {
    forall id :: id in runs ==> runs[id].status != RunRunning
  }

  class RunStore {
    /** The data sources that exist. */
    var sources: set<int>
    var runs: Runs

    constructor ()
      ensures sources == {} && runs == map[]
    {
      sources, runs := {}, map[];
    }

    method BeginSchemaScan(id: int, dataSource: int, startedAt: string) returns (r: RunOutcome<()>)
      modifies this`runs
      ensures RunsAdvance(old(runs), runs)
      ensures r == Failure(InvalidSnapshot) <==> dataSource !in sources
      ensures r.Success? <==> dataSource in sources && id > 0 && id !in old(runs)
      ensures runs == if r.Success? then old(runs)[id := Begun(dataSource, startedAt)] else old(runs)
      ensures r.Success? ==> RunIsOpen(runs, id, dataSource) && runs[id].startedAt == startedAt && runs[id].completedAt.None?
      ensures r.Success? ==> runs[id].nodeCount == 0 && runs[id].staleCount == 0 && runs[id].errorCode.None?
    {
      if dataSource !in sources { return Failure(InvalidSnapshot); }
      if id <= 0 || id in runs { return Failure(RunConstraintViolated); }
      runs := runs[id := Begun(dataSource, startedAt)];
      return Success(());
    }

    method FailSchemaScan(id: int, dataSource: int, code: string, at: string) returns (r: RunOutcome<()>)
      modifies this`runs
      ensures RunsAdvance(old(runs), runs)
      ensures r.Success? <==> RunIsOpen(old(runs), id, dataSource)
      ensures runs == if r.Success? then old(runs)[id := EndedBadly(old(runs)[id], code, at)] else old(runs)
      ensures r.Success? ==> FailedWith(runs[id], code, at)
    {
      if !RunIsOpen(runs, id, dataSource) { return Failure(InvalidSnapshot); }
      runs := runs[id := EndedBadly(runs[id], code, at)];
      return Success(());
    }

    /** Fails every run that a dead process left open. */
    method Interrupt(at: string)
      modifies this`runs
      ensures RunsAdvance(old(runs), runs) && NoneRunning(runs) && runs.Keys == old(runs).Keys
      ensures forall id :: id in runs ==>
        runs[id] == if old(runs)[id].status == RunRunning then EndedBadly(old(runs)[id], "PROCESS_INTERRUPTED", at) else old(runs)[id]
      ensures forall id :: id in runs && old(runs)[id].status == RunRunning ==> FailedWith(runs[id], "PROCESS_INTERRUPTED", at)
    {
      ghost var before := runs;
      runs := map id | id in runs ::
        if runs[id].status == RunRunning then EndedBadly(runs[id], "PROCESS_INTERRUPTED", at) else runs[id];
      forall id | id in before ensures id in runs && RunAdvances(before[id], runs[id]) {}
    }

    /** How a publication starts: on the run that was begun for it, which must still be open, or on one of its own. */
    method StartPublication(id: int, dataSource: int, prestarted: bool, startedAt: string) returns (r: RunOutcome<()>)
      modifies this`runs
      ensures r.Success? <==> Publishable(old(runs), sources, id, dataSource, prestarted)
      ensures r.Failure? ==> runs == old(runs)
      ensures r.Success? ==> RunIsOpen(runs, id, dataSource) && RunsAdvance(old(runs), runs)
      ensures r.Success? ==> runs == if prestarted then old(runs) else old(runs)[id := Begun(dataSource, startedAt)]
    {
      if dataSource !in sources { return Failure(InvalidSnapshot); }
      if prestarted {
        return if RunIsOpen(runs, id, dataSource) then Success(()) else Failure(InvalidSnapshot);
      }
      r := BeginSchemaScan(id, dataSource, startedAt);
    }

    method CompletePublication(id: int, nodes: nat, stale: nat, at: string)
      requires id in runs && runs[id].status == RunRunning
      modifies this`runs
      ensures RunsAdvance(old(runs), runs) && runs == old(runs)[id := EndedWell(old(runs)[id], nodes, stale, at)]
      ensures runs[id].status == RunSucceeded && runs[id].nodeCount == nodes && runs[id].staleCount == stale
      ensures runs[id].completedAt == Some(at) && runs[id].errorCode == old(runs)[id].errorCode
    {
      runs := runs[id := EndedWell(runs[id], nodes, stale, at)];
    }
  }

  predicate Publishable(runs: Runs, sources: set<int>, id: int, dataSource: int, prestarted: bool) {
    dataSource in sources && if prestarted then RunIsOpen(runs, id, dataSource) else id > 0 && id !in runs
  }

  /** A run that has ended, by recovery or otherwise, can never be published, however long the scanner that began it
      takes to come back. */
  lemma EndedRunsAreNotPublished(
    ended: Runs, later: Runs, sources: set<int>, id: int, dataSource: int, prestarted: bool)
    requires id in ended && ended[id].status != RunRunning && RunsAdvance(ended, later)
    ensures later[id] == ended[id] && !Publishable(later, sources, id, dataSource, prestarted)
  {
    assert RunAdvances(ended[id], later[id]);
  }
}
