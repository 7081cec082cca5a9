/** Schema-scan jobs: queued under a cap, claimed one at a time, finished by whoever still holds the claim, and
    returned to the queue when the process that ran them died. */
module Jobs {
  import opened Wrappers
  import opened Conditions
  import opened Ordering
  import opened Text
  import opened ScanRuns
  import opened Timestamps

  datatype Status = StatusPending | StatusRunning | StatusSucceeded | StatusFailed | StatusCancelled

  datatype Job = Job(
    status: Status, payload: string, result: Option<string>, errorCode: string, createdAt: string,
    startedAt: Option<string>, completedAt: Option<string>, revisionNo: nat)

  datatype Completion = Completion(
    jobID: int, expected: nat, status: Status, result: Option<string>, errorCode: string, completedAt: string)

  datatype JobError = QueueFull | NoPendingJob | JobConflict | ConstraintViolated

  type JobOutcome<+T> = Result<T, JobError>

  type Jobs = map<int, Job>

  predicate Terminal(status: Status) {
    status in {StatusSucceeded, StatusFailed, StatusCancelled}
  }

  function Queued(jobs: Jobs): set<int> {
    set j | j in jobs && !Terminal(jobs[j].status)
  }

  /** Jobs that are waiting or running. */
  lemma QueuedAreOpen(jobs: Jobs, j: int)
    ensures j in Queued(jobs) <==> j in jobs && (jobs[j].status == StatusPending || jobs[j].status == StatusRunning)
  {
  }

  // ----- what a step may do ----------------------------------------------------------------------

  predicate JobAdvances(a: Job, b: Job) {
    && b.createdAt == a.createdAt && b.payload == a.payload && a.revisionNo <= b.revisionNo
    && (a != b ==> a.revisionNo < b.revisionNo && !Terminal(a.status))
  }

  /** No job disappears, a job only changes by raising its revision number, and a terminal job never changes. */
  predicate Advances(before: Jobs, after: Jobs) {
    forall j :: j in before ==> j in after && JobAdvances(before[j], after[j])
  }

  lemma AdvancesIsReflexive(jobs: Jobs)
    ensures Advances(jobs, jobs)
  {
  }

  lemma AdvancesCompose(a: Jobs, b: Jobs, c: Jobs)
    requires Advances(a, b) && Advances(b, c)
    ensures Advances(a, c)
  {
    forall j | j in a ensures j in c && JobAdvances(a[j], c[j]) {
      assert JobAdvances(a[j], b[j]) && JobAdvances(b[j], c[j]);
    }
  }

  /** The row that ORDER BY created_at, id puts first; created_at is compared as text. */
  predicate Earlier(jobs: Jobs, a: int, b: int)
    requires a in jobs && b in jobs
  {
    TextLess(jobs[a].createdAt, jobs[b].createdAt) || (jobs[a].createdAt == jobs[b].createdAt && a < b)
  }

  predicate FirstPending(jobs: Jobs, j: int) {
    && j in jobs && jobs[j].status == StatusPending
    && forall k :: k in jobs && jobs[k].status == StatusPending && k != j ==> Earlier(jobs, j, k)
  }

  function Claimed(job: Job, startedAt: string): Job {
    job.(status := StatusRunning, startedAt := Some(startedAt), revisionNo := job.revisionNo + 1)
  }

  function Requeued(job: Job): Job {
    job.(status := StatusPending, startedAt := None, revisionNo := job.revisionNo + 1)
  }

  function Finished(job: Job, c: Completion): Job {
    job.(status := c.status, result := c.result, errorCode := c.errorCode, completedAt := Some(c.completedAt),
         revisionNo := job.revisionNo + 1)
  }

  /** The claim identified by its revision number is still held. */
  predicate Holds(jobs: Jobs, jobID: int, revisionNo: nat) {
    jobID in jobs && jobs[jobID].status == StatusRunning && jobs[jobID].revisionNo == revisionNo
  }

  function Pending(jobs: Jobs): set<int> {
    set j | j in jobs && jobs[j].status == StatusPending
  }

  lemma {:induction false} FirstExists(jobs: Jobs, keys: set<int>) returns (first: int)
    requires keys != {} && forall k :: k in keys ==> k in jobs
    ensures first in keys && forall k :: k in keys && k != first ==> Earlier(jobs, first, k)
    decreases |keys|
  {
    assert exists k :: k in keys by { assert (forall k :: k !in keys) ==> keys == {}; }
    var k :| k in keys;
    first := k;
    if keys != {k} {
      var rest := FirstExists(jobs, keys - {k});
      EarlierIsTotal(jobs, k, rest);
      if !Earlier(jobs, k, rest) { first := rest; }
      forall q | q in keys && q != first ensures Earlier(jobs, first, q) {
        if first == k && q != rest { EarlierIsTransitive(jobs, k, rest, q); }
      }
    }
  }

  lemma EarlierIsTotal(jobs: Jobs, a: int, b: int)
    requires a in jobs && b in jobs && a != b
    ensures Earlier(jobs, a, b) || Earlier(jobs, b, a)
  {
    if jobs[a].createdAt != jobs[b].createdAt { TextLessIsTotal(jobs[a].createdAt, jobs[b].createdAt); }
  }

  lemma EarlierIsTransitive(jobs: Jobs, a: int, b: int, c: int)
    requires a in jobs && b in jobs && c in jobs && Earlier(jobs, a, b) && Earlier(jobs, b, c)
    ensures Earlier(jobs, a, c)
  {
    if TextLess(jobs[a].createdAt, jobs[b].createdAt) && TextLess(jobs[b].createdAt, jobs[c].createdAt) {
      TextLessIsTransitive(jobs[a].createdAt, jobs[b].createdAt, jobs[c].createdAt);
    }
  }

  // ----- runs ------------------------------------------------------------------------------------

  /** The write transactions that commit. */
  datatype JobEvent =
    | Create(id: int, job: Job, maximum: int)
    | Claim(jobID: int, startedAt: string)
    | Finish(completion: Completion)
    | Recover

  ghost predicate JobStep(before: Jobs, e: JobEvent, after: Jobs) {
    match e
    case Create(id, job, maximum) =>
      && job.status == StatusPending && id !in before && |Queued(before)| < maximum && after == before[id := job]
    case Claim(j, startedAt) => FirstPending(before, j) && after == before[j := Claimed(before[j], startedAt)]
    case Finish(c) =>
      && Terminal(c.status) && Holds(before, c.jobID, c.expected)
      && after == before[c.jobID := Finished(before[c.jobID], c)]
    case Recover =>
      && after.Keys == before.Keys
      && forall j :: j in before ==>
        after[j] == if before[j].status == StatusRunning then Requeued(before[j]) else before[j]
  }

  /** Any interleaving of committed transactions, from an empty table. */
  ghost predicate JobRun(states: seq<Jobs>, events: seq<JobEvent>) {
    && |states| == |events| + 1 && states[0] == map[]
    && forall i :: 0 <= i < |events| ==> JobStep(states[i], events[i], states[i + 1])
  }

  // ----- what a transaction writes, column by column ---------------------------------------------

  /** A claim sets the status and the start, and raises the revision number. */
  predicate TakenAt(before: Job, startedAt: string, after: Job) {
    && before.status == StatusPending && after.status == StatusRunning && after.startedAt == Some(startedAt)
    && after.revisionNo == before.revisionNo + 1 && after.payload == before.payload && after.createdAt == before.createdAt
    && after.result == before.result && after.errorCode == before.errorCode && after.completedAt == before.completedAt
  }

  /** A finish stores what the completion says, and raises the revision number. */
  predicate EndedAs(before: Job, c: Completion, after: Job) {
    && before.status == StatusRunning && before.revisionNo == c.expected
    && after.status == c.status && after.result == c.result && after.errorCode == c.errorCode
    && after.completedAt == Some(c.completedAt) && after.startedAt == before.startedAt
    && after.revisionNo == before.revisionNo + 1 && after.payload == before.payload && after.createdAt == before.createdAt
  }

  /** A recovery makes a running job pending, without a start, and raises the revision number. */
  predicate BackInLine(before: Job, after: Job) {
    && before.status == StatusRunning && after.status == StatusPending && after.startedAt == None
    && after.revisionNo == before.revisionNo + 1 && after.payload == before.payload && after.createdAt == before.createdAt
    && after.result == before.result && after.errorCode == before.errorCode && after.completedAt == before.completedAt
  }

  /** The row of no other job differs. */
  ghost predicate OnlyJob(before: Jobs, after: Jobs, j: int) {
    j in after && forall k :: k != j ==> (k in after <==> k in before) && (k in before ==> after[k] == before[k])
  }

  /** What each transaction of a run leaves in the table. */
  lemma StepWrites(before: Jobs, e: JobEvent, after: Jobs)
    requires JobStep(before, e, after)
    ensures e.Create? ==>
      && e.id !in before && OnlyJob(before, after, e.id) && after[e.id] == e.job && e.job.status == StatusPending
    ensures e.Claim? ==>
      && e.jobID in before && OnlyJob(before, after, e.jobID) && TakenAt(before[e.jobID], e.startedAt, after[e.jobID])
    ensures e.Finish? ==> var c := e.completion;
      && c.jobID in before && OnlyJob(before, after, c.jobID) && EndedAs(before[c.jobID], c, after[c.jobID])
      && (c.status == StatusSucceeded || c.status == StatusFailed || c.status == StatusCancelled)
    ensures e.Recover? ==> forall j :: j in after <==> j in before
    ensures e.Recover? ==> forall j :: j in before ==>
      if before[j].status == StatusRunning then BackInLine(before[j], after[j]) else after[j] == before[j]
  {
  }

  lemma StepAdvances(before: Jobs, e: JobEvent, after: Jobs)
    requires JobStep(before, e, after)
    ensures Advances(before, after)
  {
  }

  lemma {:induction false} RunAdvances(states: seq<Jobs>, events: seq<JobEvent>, i: nat, k: nat)
    requires JobRun(states, events) && i <= k <= |events|
    ensures Advances(states[i], states[k])
    decreases k
  {
    if i == k {
      AdvancesIsReflexive(states[i]);
    } else {
      RunAdvances(states, events, i, k - 1);
      StepAdvances(states[k - 1], events[k - 1], states[k]);
      AdvancesCompose(states[i], states[k - 1], states[k]);
    }
  }

  /** A running job is running because of a claim, and nothing has happened to it since. */
  lemma {:induction false} RunningWasClaimed(states: seq<Jobs>, events: seq<JobEvent>, i: nat, j: int) returns (m: nat)
    requires JobRun(states, events) && i <= |events| && j in states[i] && states[i][j].status == StatusRunning
    ensures m < i && events[m].Claim? && events[m].jobID == j
    ensures forall n :: m < n <= i ==> j in states[n] && states[n][j] == states[i][j]
    decreases i
  {
    assert JobStep(states[i - 1], events[i - 1], states[i]);
    if j in states[i - 1] && states[i - 1][j] == states[i][j] {
      m := RunningWasClaimed(states, events, i - 1, j);
    } else {
      m := i - 1;
    }
  }

  ghost predicate Undisturbed(events: seq<JobEvent>, m: nat, i: nat, jobID: int)
    requires m <= i <= |events|
  {
    forall n :: m < n < i ==>
      && !events[n].Recover?
      && !(events[n].Claim? && events[n].jobID == jobID)
      && !(events[n].Finish? && events[n].completion.jobID == jobID)
  }

  /** A finished claim was made earlier in the run, under the revision number it is finished with, and between the
      two nothing recovered, claimed or finished that job. */
  lemma FinishFollowsItsClaim(states: seq<Jobs>, events: seq<JobEvent>, i: nat) returns (m: nat)
    requires JobRun(states, events) && i < |events| && events[i].Finish?
    ensures var c := events[i].completion;
      && m < i && events[m].Claim? && events[m].jobID == c.jobID && Holds(states[m + 1], c.jobID, c.expected)
      && Undisturbed(events, m, i, c.jobID)
  {
    var c := events[i].completion;
    assert JobStep(states[i], events[i], states[i + 1]);
    m := RunningWasClaimed(states, events, i, c.jobID);
    forall n | m < n < i
      ensures !events[n].Recover?
      ensures !(events[n].Claim? && events[n].jobID == c.jobID)
      ensures !(events[n].Finish? && events[n].completion.jobID == c.jobID)
    {
      assert JobStep(states[n], events[n], states[n + 1]);
      assert states[n][c.jobID] == states[n + 1][c.jobID];
    }
  }

  /** A job is finished at most once in a run, and nothing changes it afterwards. */
  lemma FinishedOnceForAll(states: seq<Jobs>, events: seq<JobEvent>, i: nat, k: nat)
    requires JobRun(states, events) && i < k <= |events| && events[i].Finish?
    ensures var j := events[i].completion.jobID;
      && j in states[k] && states[k][j] == states[i + 1][j] && Terminal(states[k][j].status)
      && (k < |events| && events[k].Finish? ==> events[k].completion.jobID != j)
  {
    var j := events[i].completion.jobID;
    assert JobStep(states[i], events[i], states[i + 1]);
    RunAdvances(states, events, i + 1, k);
    assert JobAdvances(states[i + 1][j], states[k][j]);
    if k < |events| && events[k].Finish? { assert JobStep(states[k], events[k], states[k + 1]); }
  }

  lemma RecoveryKeepsQueue(before: Jobs, after: Jobs)
    requires JobStep(before, Recover, after)
    ensures Queued(after) == Queued(before)
  {
    forall j ensures j in Queued(after) <==> j in Queued(before) {
      assert j in after <==> j in before;
      if j in before { assert Terminal(after[j].status) <==> Terminal(before[j].status); }
    }
  }

  /** If every creation respects a cap, the jobs waiting or running never exceed it. */
  lemma {:induction false} CapHolds(states: seq<Jobs>, events: seq<JobEvent>, i: nat, cap: nat)
    requires JobRun(states, events) && i <= |events|
    requires forall n :: 0 <= n < |events| && events[n].Create? ==> events[n].maximum <= cap
    ensures |Queued(states[i])| <= cap
    ensures forall j :: j in Queued(states[i]) <==>
      j in states[i] && (states[i][j].status == StatusPending || states[i][j].status == StatusRunning)
    decreases i
  {
    forall j { QueuedAreOpen(states[i], j); }
    if i == 0 {
      assert Queued(states[0]) == {};
    } else {
      CapHolds(states, events, i - 1, cap);
      var before, e, after := states[i - 1], events[i - 1], states[i];
      assert JobStep(before, e, after);
      match e {
        case Create(id, _, _) => assert Queued(after) == Queued(before) + {id};
        case Claim(j, _) => assert Queued(after) == Queued(before);
        case Finish(c) => assert Queued(after) == Queued(before) - {c.jobID};
        case Recover => RecoveryKeepsQueue(before, after);
      }
    }
  }

  class JobRepository {
    var jobs: Jobs

    constructor ()
      ensures jobs == map[]
    {
      jobs := map[];
    }

    /** A new job is accepted exactly when the queue has room; the cap is never exceeded. */
    method CreateSchemaScanJob(id: int, job: Job, maximumPending: int) returns (r: JobOutcome<()>)
      requires job.status == StatusPending && job.revisionNo == 1
      modifies this
      ensures Advances(old(jobs), jobs) && (r.Failure? ==> jobs == old(jobs))
      ensures r.Success? <==> |Queued(old(jobs))| < maximumPending && id !in old(jobs)
      ensures r.Success? ==> jobs == old(jobs)[id := job] && |Queued(jobs)| == |Queued(old(jobs))| + 1 <= maximumPending
      ensures r.Success? ==> JobStep(old(jobs), Create(id, job, maximumPending), jobs)
    {
      AdvancesIsReflexive(jobs);
      if maximumPending <= 0 || |Queued(jobs)| >= maximumPending { return Failure(QueueFull); }
      if id in jobs { return Failure(ConstraintViolated); }
      ghost var before := jobs;
      jobs := jobs[id := job];
      assert Queued(jobs) == Queued(before) + {id};
      return Success(());
    }

    method ClaimNextSchemaScan(startedAt: string) returns (r: JobOutcome<int>)
      modifies this
      ensures Advances(old(jobs), jobs) && Queued(jobs) == Queued(old(jobs))
      ensures r.Failure? <==> Pending(old(jobs)) == {}
      ensures r.Failure? ==> jobs == old(jobs)
      ensures r.Success? ==> FirstPending(old(jobs), r.value) && jobs == old(jobs)[r.value := Claimed(old(jobs)[r.value], startedAt)]
      ensures r.Success? ==> Holds(jobs, r.value, old(jobs)[r.value].revisionNo + 1)
      ensures r.Success? ==> JobStep(old(jobs), Claim(r.value, startedAt), jobs)
      ensures r.Success? ==>
        && r.value in old(jobs) && OnlyJob(old(jobs), jobs, r.value) && TakenAt(old(jobs)[r.value], startedAt, jobs[r.value])
        && (forall k :: k in old(jobs) && k != r.value && old(jobs)[k].status == StatusPending ==>
              TextLess(old(jobs)[r.value].createdAt, old(jobs)[k].createdAt)
              || (old(jobs)[r.value].createdAt == old(jobs)[k].createdAt && r.value < k))
    {
      hide TextLess;
      AdvancesIsReflexive(jobs);
      var pending := Pending(jobs);
      if pending == {} { return Failure(NoPendingJob); }
      ghost var first := FirstExists(jobs, pending);
      var j :| j in pending && forall k :: k in pending && k != j ==> Earlier(jobs, j, k);
      assert forall k :: k in jobs && jobs[k].status == StatusPending ==> k in pending;
      jobs := jobs[j := Claimed(jobs[j], startedAt)];
      return Success(j);
    }

    /** Every scan run that was left open is failed, and every running job goes back to the queue under a new revision
        number. */
    method RecoverRunningSchemaScans(scans: RunStore, recoveredAt: string) returns (recovered: nat)
      modifies this, scans`runs
      ensures RunsAdvance(old(scans.runs), scans.runs) && NoneRunning(scans.runs) && scans.runs.Keys == old(scans.runs).Keys
      ensures forall id :: id in scans.runs && old(scans.runs)[id].status == RunRunning ==>
        FailedWith(scans.runs[id], "PROCESS_INTERRUPTED", recoveredAt)
      ensures Advances(old(jobs), jobs) && Queued(jobs) == Queued(old(jobs)) && jobs.Keys == old(jobs).Keys
      ensures forall j :: j in jobs ==>
        jobs[j] == if old(jobs)[j].status == StatusRunning then Requeued(old(jobs)[j]) else old(jobs)[j]
      ensures recovered == |set j | j in old(jobs) && old(jobs)[j].status == StatusRunning|
      ensures JobStep(old(jobs), Recover, jobs)
      ensures forall j :: j in old(jobs) ==>
        if old(jobs)[j].status == StatusRunning then BackInLine(old(jobs)[j], jobs[j]) else jobs[j] == old(jobs)[j]
    {
      ghost var before := jobs;
      scans.Interrupt(recoveredAt);
      recovered := |set j | j in jobs && jobs[j].status == StatusRunning|;
      jobs := map j | j in jobs :: if jobs[j].status == StatusRunning then Requeued(jobs[j]) else jobs[j];
      forall j | j in before ensures j in jobs && JobAdvances(before[j], jobs[j]) { }
      RecoveryKeepsQueue(before, jobs);
    }

    /** Only the holder of the current claim can finish, and only once. */
    method FinishSchemaScan(c: Completion) returns (r: JobOutcome<Job>)
      requires Terminal(c.status)
      modifies this
      ensures Advances(old(jobs), jobs)
      ensures r.Success? <==> Holds(old(jobs), c.jobID, c.expected)
      ensures r.Failure? ==> r.error == JobConflict && jobs == old(jobs)
      ensures r.Success? ==> r.value == Finished(old(jobs)[c.jobID], c) && jobs == old(jobs)[c.jobID := r.value]
      ensures r.Success? ==> Queued(jobs) == Queued(old(jobs)) - {c.jobID}
      ensures r.Success? ==> JobStep(old(jobs), Finish(c), jobs)
      ensures r.Success? ==>
        && c.jobID in old(jobs) && OnlyJob(old(jobs), jobs, c.jobID) && EndedAs(old(jobs)[c.jobID], c, jobs[c.jobID])
        && r.value == jobs[c.jobID]
    {
      AdvancesIsReflexive(jobs);
      if !Holds(jobs, c.jobID, c.expected) { return Failure(JobConflict); }
      var job := Finished(jobs[c.jobID], c);
      jobs := jobs[c.jobID := job];
      return Success(job);
    }
  }

  // ----- leases ----------------------------------------------------------------------------------

  /** A claim that was held when recovery ran is void in every later state, even if the job is claimed again. */
  lemma RecoveryVoidsClaims(before: Jobs, recovered: Jobs, later: Jobs, jobID: int, revisionNo: nat)
    requires Holds(before, jobID, revisionNo) && jobID in recovered && recovered[jobID] == Requeued(before[jobID])
    requires Advances(recovered, later)
    ensures !Holds(later, jobID, revisionNo)
  {
    assert JobAdvances(recovered[jobID], later[jobID]);
  }

  // ----- the order of claims ---------------------------------------------------------------------

  /** When the pending jobs were created, as the table records it. Years are of equal width. */
  ghost predicate CreatedWhen(jobs: Jobs, at: map<int, Instant>) {
    && (forall j :: j in Pending(jobs) ==> j in at && jobs[j].createdAt == Format(at[j]))
    && (forall j, k :: j in Pending(jobs) && k in Pending(jobs) ==> Width(at[j]) == Width(at[k]))
  }

  predicate Older(at: map<int, Instant>, a: int, b: int)
    requires a in at && b in at
  {
    Before(at[a], at[b]) || (at[a] == at[b] && a < b)
  }

  /** The pending job that has waited longest. */
  ghost predicate Oldest(jobs: Jobs, at: map<int, Instant>, j: int)
    requires CreatedWhen(jobs, at)
  {
    j in Pending(jobs) && forall k :: k in Pending(jobs) && k != j ==> Older(at, j, k)
  }

  /** Between two pending jobs, the claim order is the order of age exactly when their times are not inverted. */
  lemma EarlierIsOlder(jobs: Jobs, at: map<int, Instant>, a: int, b: int)
    requires CreatedWhen(jobs, at) && a in Pending(jobs) && b in Pending(jobs) && a != b
    ensures (Earlier(jobs, a, b) <==> Older(at, a, b)) <==> !Inverted(at[a], at[b])
  {
    hide TextLess, Format, Width, Trimmed;
    if at[a] == at[b] {
      TextLessIsIrreflexive(Format(at[a]));
      assert !(Trimmed(at[a].nano, 9) < Trimmed(at[a].nano, 9));
    } else {
      TextOrderIsTimeOrder(at[a], at[b]);
    }
  }

  /** The job that has waited longest is the one a claim takes exactly when its time is not inverted with that of any
      other pending job. */
  lemma OldestIsClaimed(jobs: Jobs, at: map<int, Instant>, j: int)
    requires CreatedWhen(jobs, at) && Oldest(jobs, at, j)
    ensures FirstPending(jobs, j) <==> forall k :: k in Pending(jobs) && k != j ==> !Inverted(at[j], at[k])
  {
    hide Earlier, Older, Inverted;
    forall k | k in Pending(jobs) && k != j ensures Earlier(jobs, j, k) <==> !Inverted(at[j], at[k]) {
      assert Older(at, j, k);
      EarlierIsOlder(jobs, at, j, k);
    }
    assert forall k :: k in Pending(jobs) <==> k in jobs && jobs[k].status == StatusPending;
  }

  /** So while no two pending jobs are inverted, a claim always takes the job that has waited longest. */
  lemma ClaimTakesOldest(jobs: Jobs, at: map<int, Instant>, j: int)
    requires CreatedWhen(jobs, at) && FirstPending(jobs, j)
    requires forall a, b :: a in Pending(jobs) && b in Pending(jobs) && a != b ==> !Inverted(at[a], at[b])
    ensures Oldest(jobs, at, j)
  {
    hide Earlier, Older, Inverted;
    assert j in Pending(jobs);
    forall k | k in Pending(jobs) && k != j ensures Older(at, j, k) {
      assert Earlier(jobs, j, k);
      EarlierIsOlder(jobs, at, j, k);
    }
  }

  /** Two jobs created in any one second, the first on the second and the other a tenth later: the later one is
      claimed first. */
  lemma LaterJobIsClaimedFirst(jobs: Jobs, second: nat, a: int, b: int)
    requires a != b && Pending(jobs) == {a, b}
    requires jobs[a].createdAt == Format(Instant(second, 0)) && jobs[b].createdAt == Format(Instant(second, 100_000_000))
    ensures var at := map[a := Instant(second, 0), b := Instant(second, 100_000_000)];
      CreatedWhen(jobs, at) && Oldest(jobs, at, a) && FirstPending(jobs, b) && !FirstPending(jobs, a)
  {
    hide Format, Inverted;
    var at := map[a := Instant(second, 0), b := Instant(second, 100_000_000)];
    assert a in Pending(jobs) && b in Pending(jobs);
    assert CreatedWhen(jobs, at);
    WholeSecondSortsLate(second);
    OldestIsClaimed(jobs, at, a);
    assert Earlier(jobs, b, a);
    assert forall k :: k in jobs && jobs[k].status == StatusPending ==> k in Pending(jobs);
  }
}
