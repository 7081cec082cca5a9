/** The coordinator of schema scans: it recovers what an earlier process left running, then claims, runs and finishes
    one job after another, waiting out a busy store, until it is cancelled. Meanwhile anyone may queue new jobs, and a
    call that cancellation cuts off may still commit. */
module SchemaScans {
  import opened Wrappers
  import opened Jobs
  import opened ScanRuns
  import opened Conditions

  const MaximumPendingSchemaScans := 100

  // ----- what has been committed -----------------------------------------------------------------

  /** These transactions, in this order, lead from one state of the table to another. */
  ghost predicate Leads(before: Jobs, events: seq<JobEvent>, after: Jobs)
    decreases |events|
  {
    if events == [] then after == before
    else exists mid :: JobStep(before, events[0], mid) && Leads(mid, events[1..], after)
  }

  lemma LeadsByOne(before: Jobs, e: JobEvent, after: Jobs)
    requires JobStep(before, e, after)
    ensures Leads(before, [e], after)
  {
    assert [e][1..] == [];
    assert Leads(after, [e][1..], after);
  }

  lemma {:induction false} LeadsOn(a: Jobs, first: seq<JobEvent>, b: Jobs, second: seq<JobEvent>, c: Jobs)
    requires Leads(a, first, b) && Leads(b, second, c)
    ensures Leads(a, first + second, c)
    decreases |first|
  {
    if first == [] {
      assert first + second == second;
    } else {
      var mid :| JobStep(a, first[0], mid) && Leads(mid, first[1..], b);
      LeadsOn(mid, first[1..], b, second, c);
      assert (first + second)[1..] == first[1..] + second;
    }
  }

  lemma LeadsOnByOne(a: Jobs, first: seq<JobEvent>, b: Jobs, e: JobEvent, c: Jobs)
    requires Leads(a, first, b) && JobStep(b, e, c)
    ensures Leads(a, first + [e], c)
  {
    LeadsByOne(b, e, c);
    LeadsOn(a, first, b, [e], c);
  }

  /** So what the coordinator commits continues any run of the table, and the theorems about runs apply to it. */
  lemma {:induction false} RunGoesOn(states: seq<Jobs>, events: seq<JobEvent>, more: seq<JobEvent>, after: Jobs)
    returns (longer: seq<Jobs>)
    requires JobRun(states, events) && Leads(states[|events|], more, after)
    ensures JobRun(longer, events + more) && longer[..|states|] == states && longer[|longer| - 1] == after
    decreases |more|
  {
    if more == [] {
      assert events + more == events;
      longer := states;
    } else {
      var mid :| JobStep(states[|events|], more[0], mid) && Leads(mid, more[1..], after);
      var next, so := states + [mid], events + [more[0]];
      assert forall i :: 0 <= i < |events| ==> JobStep(states[i], events[i], states[i + 1]);
      longer := RunGoesOn(next, so, more[1..], after);
      assert so + more[1..] == events + more;
      assert longer[..|states|] == longer[..|next|][..|states|];
    }
  }

  /** The transactions of the coordinator itself: all but the creations. */
  function Own(events: seq<JobEvent>): seq<JobEvent> {
    if events == [] then []
    else Own(events[..|events| - 1]) + if events[|events| - 1].Create? then [] else [events[|events| - 1]]
  }

  lemma OwnNext(events: seq<JobEvent>, e: JobEvent)
    ensures Own(events + [e]) == Own(events) + if e.Create? then [] else [e]
  {
    assert (events + [e])[..|events|] == events;
  }

  lemma {:induction false} OwnTogether(a: seq<JobEvent>, b: seq<JobEvent>)
    ensures Own(a + b) == Own(a) + Own(b)
  {
    if b == [] {
      assert a + b == a;
    } else {
      assert (a + b)[..|a + b| - 1] == a + b[..|b| - 1];
      OwnTogether(a, b[..|b| - 1]);
    }
  }

  /** Jobs were only added, all of them pending. */
  predicate OnlyQueued(before: Jobs, after: Jobs) {
    && (forall j :: j in before ==> j in after && after[j] == before[j])
    && (forall j :: j in after && j !in before ==> after[j].status == StatusPending)
  }

  // ----- the store as the coordinator meets it ---------------------------------------------------

  datatype Arrival = Arrival(id: int, job: Job)

  predicate Fresh(arrivals: seq<Arrival>) {
    forall i :: 0 <= i < |arrivals| ==> arrivals[i].job.status == StatusPending && arrivals[i].job.revisionNo == 1
  }

  /** What happens before a call is answered: jobs are queued by others, and the store may be busy. */
  datatype Moment = Moment(arrivals: seq<Arrival>, busy: bool)

  /** A call reaches the store, finds it busy, or is cut off by cancellation; cut off, it may yet have its effect. */
  datatype Attempt = Reached | StoreBusy | Cancelled(lands: bool)

  /** Queues jobs, as long as there is room. */
  method Queue(store: JobRepository, arrivals: seq<Arrival>) returns (ghost events: seq<JobEvent>)
    requires Fresh(arrivals)
    modifies store
    ensures Leads(old(store.jobs), events, store.jobs) && Own(events) == [] && OnlyQueued(old(store.jobs), store.jobs)
  {
    events := [];
    for i := 0 to |arrivals|
      invariant Leads(old(store.jobs), events, store.jobs) && Own(events) == [] && OnlyQueued(old(store.jobs), store.jobs)
    {
      ghost var before := store.jobs;
      var id, job := arrivals[i].id, arrivals[i].job;
      var created := store.CreateSchemaScanJob(id, job, MaximumPendingSchemaScans);
      if created.Success? {
        LeadsOnByOne(old(store.jobs), events, before, Create(id, job, MaximumPendingSchemaScans), store.jobs);
        OwnNext(events, Create(id, job, MaximumPendingSchemaScans));
        events := events + [Create(id, job, MaximumPendingSchemaScans)];
      }
    }
  }

  /** How the calls to come will go, up to the moment of cancellation. Only the call that cancellation cuts off can
      still commit: the store refuses what is sent to it afterwards. */
  class Calls {
    var coming: seq<Moment>
    var lands: bool

    ghost predicate Valid()
      reads this
    {
      forall i :: 0 <= i < |coming| ==> Fresh(coming[i].arrivals)
    }

    constructor (coming: seq<Moment>, lands: bool)
      requires forall i :: 0 <= i < |coming| ==> Fresh(coming[i].arrivals)
      ensures Valid() && this.coming == coming && this.lands == lands
    {
      this.coming, this.lands := coming, lands;
    }

    method Try(store: JobRepository) returns (attempt: Attempt, ghost events: seq<JobEvent>)
      requires Valid()
      modifies this, store
      ensures Valid() && Leads(old(store.jobs), events, store.jobs) && Own(events) == []
      ensures OnlyQueued(old(store.jobs), store.jobs)
      ensures if old(coming) == [] then attempt == Cancelled(old(lands)) && coming == [] && !lands
              else coming == old(coming)[1..] && lands == old(lands) && attempt == if old(coming)[0].busy then StoreBusy else Reached
    {
      if |coming| == 0 {
        attempt, events := Cancelled(lands), [];
        lands := false;
        return;
      }
      events := Queue(store, coming[0].arrivals);
      attempt := if coming[0].busy then StoreBusy else Reached;
      coming := coming[1..];
    }
  }

  // ----- what a run of the scanner means for its job ---------------------------------------------

  /** What became of a claimed job: its payload may be unreadable or ask for something the runner cannot do, the
      scan may fail with or without a code of its own, and a published snapshot has a summary, if it can be encoded. */
  datatype ScanOutcome =
    | InvalidPayload
    | Unsupported
    | Failed(code: string)
    | Published(summary: Option<string>)

  function FailureOf(id: int, job: Job, status: Status, code: string, at: string): Completion {
    Completion(id, job.revisionNo, status, None, code, at)
  }

  function CompletionOf(id: int, job: Job, outcome: ScanOutcome, cancelled: bool, at: string): (c: Completion)
    ensures c.jobID == id && c.expected == job.revisionNo && Terminal(c.status)
    ensures c.status == StatusSucceeded <==> outcome.Published? && outcome.summary.Some?
    ensures c.status == StatusCancelled <==> outcome.Failed? && cancelled
    ensures c.status != StatusSucceeded ==> c.errorCode != "" && c.result == None
  {
    match outcome
    case InvalidPayload => FailureOf(id, job, StatusFailed, "INVALID_JOB_PAYLOAD", at)
    case Unsupported => FailureOf(id, job, StatusFailed, "INCREMENTAL_SCAN_UNSUPPORTED", at)
    case Failed(code) =>
      if cancelled then FailureOf(id, job, StatusCancelled, "SCAN_CANCELLED", at)
      else FailureOf(id, job, StatusFailed, if code != "" then code else "SCHEMA_SCAN_FAILED", at)
    case Published(summary) =>
      if summary.None? then FailureOf(id, job, StatusFailed, "RESULT_ENCODING_FAILED", at)
      else Completion(id, job.revisionNo, StatusSucceeded, if summary.value == "" then None else summary, "", at)
  }

  /** The code under which a job fails. */
  function FailureCode(outcome: ScanOutcome): string {
    if outcome.InvalidPayload? then "INVALID_JOB_PAYLOAD"
    else if outcome.Unsupported? then "INCREMENTAL_SCAN_UNSUPPORTED"
    else if outcome.Published? then "RESULT_ENCODING_FAILED"
    else if outcome.code == "" then "SCHEMA_SCAN_FAILED" else outcome.code
  }

  /** How the row of a claimed job ends: succeeded exactly when its outcome was published and could be encoded, with the
      summary as its result; cancelled exactly when the scan failed after cancellation; failed with a code otherwise. */
  predicate EndedBy(claimed: Job, outcome: ScanOutcome, cancelled: bool, at: string, ended: Job) {
    && ended.payload == claimed.payload && ended.createdAt == claimed.createdAt && ended.startedAt == claimed.startedAt
    && ended.completedAt == Some(at) && ended.revisionNo == claimed.revisionNo + 1
    && (ended.status == StatusSucceeded || ended.status == StatusCancelled || ended.status == StatusFailed)
    && (ended.status == StatusSucceeded <==> outcome.Published? && outcome.summary.Some?)
    && (ended.status == StatusCancelled <==> outcome.Failed? && cancelled)
    && (ended.status == StatusSucceeded ==> ended.errorCode == "")
    && (ended.status == StatusSucceeded ==> ended.result == if outcome.summary.value == "" then None else outcome.summary)
    && (ended.status != StatusSucceeded ==> ended.result == None && ended.errorCode != "")
    && (ended.status == StatusCancelled ==> ended.errorCode == "SCAN_CANCELLED")
    && (ended.status == StatusFailed ==> ended.errorCode == FailureCode(outcome))
  }

  lemma CompletionEnds(j: int, claimed: Job, outcome: ScanOutcome, cancelled: bool, at: string, ended: Job)
    requires EndedAs(claimed, CompletionOf(j, claimed, outcome, cancelled, at), ended)
    ensures EndedBy(claimed, outcome, cancelled, at, ended)
  {
  }

  /** The job was claimed, and its row ends as the scan of the claimed job went. */
  ghost predicate TurnEnded(
    j: int, scan: Job -> ScanOutcome, startedAt: string, cancelled: bool, completedAt: string, jobs: Jobs)
  {
    j in jobs && exists claimed: Job :: RunBy(claimed, scan, startedAt, cancelled, completedAt, jobs[j])
  }

  ghost predicate RunBy(
    claimed: Job, scan: Job -> ScanOutcome, startedAt: string, cancelled: bool, completedAt: string, ended: Job)
  {
    && claimed.status == StatusRunning && claimed.startedAt == Some(startedAt)
    && EndedBy(claimed, scan(claimed), cancelled, completedAt, ended)
  }

  lemma TurnEnds(
    claimed: Job, j: int, scan: Job -> ScanOutcome, startedAt: string, cancelled: bool, completedAt: string, jobs: Jobs)
    requires claimed.status == StatusRunning && claimed.startedAt == Some(startedAt) && j in jobs
    requires EndedBy(claimed, scan(claimed), cancelled, completedAt, jobs[j])
    ensures TurnEnded(j, scan, startedAt, cancelled, completedAt, jobs)
  {
    assert RunBy(claimed, scan, startedAt, cancelled, completedAt, jobs[j]);
  }

  function Running(jobs: Jobs): set<int> {
    set j | j in jobs && jobs[j].status == StatusRunning
  }

  lemma QueuingRunsNothing(before: Jobs, after: Jobs)
    requires OnlyQueued(before, after)
    ensures Running(after) == Running(before)
  {
    forall j ensures j in Running(after) <==> j in Running(before) {
      assert j in before ==> after[j] == before[j];
      assert j in after && j !in before ==> after[j].status == StatusPending;
    }
  }

  // ----- the coordinator -------------------------------------------------------------------------

  datatype FinishOutcome = Done | Conflict | Interrupted

  datatype Step = Idle | Busy | Stopped | Ran(jobID: int) | Unfinished(jobID: int)

  /** What one turn commits of the coordinator's own: nothing; a claim; or a claim and the completion of that job by
      the outcome of its scan. */
  ghost predicate Turn(own: seq<JobEvent>, scan: Job -> ScanOutcome, startedAt: string, completedAt: string) {
    && |own| <= 2
    && (|own| >= 1 ==> own[0].Claim? && own[0].startedAt == startedAt)
    && (|own| == 2 ==> own[1].Finish? && exists job, cancelled :: EndsAs(own[1], own[0].jobID, job, scan, cancelled, startedAt, completedAt))
  }

  ghost predicate EndsAs(
    e: JobEvent, j: int, job: Job, scan: Job -> ScanOutcome, cancelled: bool, startedAt: string, completedAt: string)
  {
    && job.status == StatusRunning && job.startedAt == Some(startedAt)
    && e == Finish(CompletionOf(j, job, scan(job), cancelled, completedAt))
  }

  /** The job whose claim is the last thing committed. */
  function LeftOpen(own: seq<JobEvent>): set<int> {
    if own != [] && own[|own| - 1].Claim? then {own[|own| - 1].jobID} else {}
  }

  /** The whole life of a coordinator: at most one recovery, first, and then turns, all but the last of which end. */
  ghost predicate Life(own: seq<JobEvent>, scan: Job -> ScanOutcome, startedAt: string, completedAt: string) {
    own == [] || (own[0].Recover? && Turns(own[1..], scan, startedAt, completedAt))
  }

  ghost predicate Turns(own: seq<JobEvent>, scan: Job -> ScanOutcome, startedAt: string, completedAt: string)
    decreases |own|
  {
    if |own| <= 2 then Turn(own, scan, startedAt, completedAt)
    else Turn(own[..2], scan, startedAt, completedAt) && Turns(own[2..], scan, startedAt, completedAt)
  }

  lemma {:induction false} OneMoreTurn(
    own: seq<JobEvent>, turn: seq<JobEvent>, scan: Job -> ScanOutcome, startedAt: string, completedAt: string)
    requires Turns(own, scan, startedAt, completedAt) && |own| % 2 == 0 && Turn(turn, scan, startedAt, completedAt)
    ensures Turns(own + turn, scan, startedAt, completedAt)
    decreases |own|
  {
    if own == [] {
      assert own + turn == turn;
    } else if turn == [] {
      assert own + turn == own;
    } else if |own| == 2 {
      assert (own + turn)[..2] == own && (own + turn)[2..] == turn;
    } else {
      assert (own + turn)[..2] == own[..2] && (own + turn)[2..] == own[2..] + turn;
      OneMoreTurn(own[2..], turn, scan, startedAt, completedAt);
    }
  }

  lemma ClaimedTurn(
    j: int, ended: seq<JobEvent>, job: Job, scan: Job -> ScanOutcome, startedAt: string, completedAt: string)
    requires ended == [] || exists cancelled ::
      |ended| == 1 && EndsAs(ended[0], j, job, scan, cancelled, startedAt, completedAt)
    ensures Turn([Claim(j, startedAt)] + ended, scan, startedAt, completedAt)
    ensures LeftOpen([Claim(j, startedAt)] + ended) == if ended == [] then {j} else {}
  {
    var own := [Claim(j, startedAt)] + ended;
    if ended != [] {
      var cancelled :| EndsAs(ended[0], j, job, scan, cancelled, startedAt, completedAt);
      assert own[1] == ended[0];
    }
  }

  lemma NoTurn(scan: Job -> ScanOutcome, startedAt: string, completedAt: string)
    ensures Turn([], scan, startedAt, completedAt) && LeftOpen([]) == {}
  {
  }

  /** A recovery and turns that all ended. */
  ghost predicate Settled(own: seq<JobEvent>, scan: Job -> ScanOutcome, startedAt: string, completedAt: string) {
    own != [] && |own| % 2 == 1 && Life(own, scan, startedAt, completedAt) && LeftOpen(own) == {}
  }

  lemma TurnTaken(
    own: seq<JobEvent>, turn: seq<JobEvent>, scan: Job -> ScanOutcome, startedAt: string, completedAt: string)
    requires Settled(own, scan, startedAt, completedAt) && Turn(turn, scan, startedAt, completedAt)
    ensures Life(own + turn, scan, startedAt, completedAt) && LeftOpen(own + turn) == LeftOpen(turn)
    ensures |turn| != 1 ==> Settled(own + turn, scan, startedAt, completedAt)
  {
    hide EndsAs;
    assert (own + turn)[1..] == own[1..] + turn;
    OneMoreTurn(own[1..], turn, scan, startedAt, completedAt);
    if turn == [] { assert own + turn == own; }
  }

  class Coordinator {
    const store: JobRepository
    const scans: RunStore
    const scan: Job -> ScanOutcome

    constructor (store: JobRepository, scans: RunStore, scan: Job -> ScanOutcome)
      ensures this.store == store && this.scans == scans && this.scan == scan
    {
      this.store, this.scans, this.scan := store, scans, scan;
    }

    /** Tries until the store answers or the wait is cancelled. A claim that is held is never lost, and the
        completion takes effect at most once: certainly when the answer says so, perhaps when it was cut off. */
    method FinishWithRetry(calls: Calls, c: Completion) returns (r: FinishOutcome, ghost events: seq<JobEvent>)
      requires Terminal(c.status) && calls.Valid()
      modifies store, calls
      ensures calls.Valid() && |calls.coming| <= |old(calls.coming)|
      ensures Leads(old(store.jobs), events, store.jobs)
      ensures Own(events) == [] || Own(events) == [Finish(c)]
      ensures match r
        case Done => Own(events) == [Finish(c)]
        case Conflict => Own(events) == [] && !Holds(old(store.jobs), c.jobID, c.expected)
        case Interrupted => calls.coming == [] && (!old(calls.lands) ==> Own(events) == [])
      ensures Running(store.jobs) == Running(old(store.jobs)) - if Own(events) == [] then {} else {c.jobID}
      ensures Own(events) == [] ==> OnlyQueued(old(store.jobs), store.jobs)
      ensures Own(events) != [] ==>
        && c.jobID in old(store.jobs) && c.jobID in store.jobs && EndedAs(old(store.jobs)[c.jobID], c, store.jobs[c.jobID])
    {
      events := [];
      ghost var before := store.jobs;
      while true
        invariant calls.Valid() && |calls.coming| <= |old(calls.coming)| && calls.lands == old(calls.lands)
        invariant Leads(before, events, store.jobs) && Own(events) == [] && OnlyQueued(before, store.jobs)
        decreases |calls.coming|
      {
        ghost var now := store.jobs;
        var attempt;
        ghost var queued;
        attempt, queued := calls.Try(store);
        LeadsOn(before, events, now, queued, store.jobs);
        OwnTogether(events, queued);
        events := events + queued;
        QueuingRunsNothing(before, store.jobs);
        if attempt == Reached || attempt == Cancelled(true) {
          now := store.jobs;
          var finished := store.FinishSchemaScan(c);
          if finished.Success? {
            LeadsOnByOne(before, events, now, Finish(c), store.jobs);
            OwnNext(events, Finish(c));
            events := events + [Finish(c)];
            FinishingEndsOne(now, c, store.jobs);
            RunningWasThere(before, now, c.jobID);
          }
          return if attempt.Cancelled? then Interrupted else if finished.Success? then Done else Conflict, events;
        }
        if attempt.Cancelled? { return Interrupted, events; }
      }
    }

    /** Claims the first job in line, runs it and finishes it. A scan cut off by cancellation is finished within a
        separate grace period. No claim is lost, because nobody else claims or recovers. A claim may stay open only when
        the coordinator is cancelled. */
    method ProcessNext(calls: Calls, grace: Calls, startedAt: string, completedAt: string)
      returns (step: Step, ghost events: seq<JobEvent>)
      requires calls != grace && calls.Valid() && grace.Valid() && Running(store.jobs) == {}
      modifies store, calls, grace
      ensures calls.Valid() && grace.Valid()
      ensures |calls.coming| <= |old(calls.coming)| && (|calls.coming| == |old(calls.coming)| ==> step == Stopped)
      ensures Leads(old(store.jobs), events, store.jobs) && Turn(Own(events), scan, startedAt, completedAt)
      ensures step.Idle? || step.Busy? ==> Own(events) == []
      ensures step.Ran? ==> |Own(events)| == 2 && Own(events)[0].jobID == step.jobID
      ensures step.Unfinished? ==> Own(events) != [] && Own(events)[0].jobID == step.jobID && calls.coming == []
      ensures step.Stopped? ==> |Own(events)| <= 1 && calls.coming == [] && (!old(calls.lands) ==> Own(events) == [])
      ensures Running(store.jobs) == LeftOpen(Own(events))
      ensures |Own(events)| == 2 ==> TurnEnded(Own(events)[0].jobID, scan, startedAt, |old(calls.coming)| == 1, completedAt, store.jobs)
      ensures |Own(events)| == 1 ==>
        && Own(events)[0].jobID in store.jobs && store.jobs[Own(events)[0].jobID].status == StatusRunning
        && store.jobs[Own(events)[0].jobID].startedAt == Some(startedAt)
    {
      var attempt;
      attempt, events := calls.Try(store);
      QueuingRunsNothing(old(store.jobs), store.jobs);
      NoTurn(scan, startedAt, completedAt);
      hide Leads, Own, OnlyQueued, JobStep, EndsAs, Turn, LeftOpen, Running;
      hide EndedBy, TurnEnded, RunBy;
      if attempt.StoreBusy? { return Busy, events; }
      if attempt == Cancelled(false) { return Stopped, events; }
      ghost var queued := store.jobs;
      var claimed := TakeFirst(startedAt);
      if claimed.Failure? { return if attempt.Cancelled? then Stopped else Idle, events; }
      var j := claimed.value;
      LeadsOnByOne(old(store.jobs), events, queued, Claim(j, startedAt), store.jobs);
      OwnNext(events, Claim(j, startedAt));
      events := events + [Claim(j, startedAt)];
      assert Own(events) == [Claim(j, startedAt)];
      ClaimedTurn(j, [], store.jobs[j], scan, startedAt, completedAt);
      assert [Claim(j, startedAt)] + [] == [Claim(j, startedAt)];
      if attempt.Cancelled? { return Stopped, events; }
      ghost var now := store.jobs;
      ghost var finishing;
      step, finishing := RunClaimed(calls, grace, j, startedAt, completedAt);
      ClaimedTurn(j, Own(finishing), now[j], scan, startedAt, completedAt);
      LeadsOn(old(store.jobs), events, now, finishing, store.jobs);
      OwnTogether(events, finishing);
      if Own(finishing) != [] { TurnEnds(now[j], j, scan, startedAt, |old(calls.coming)| == 1, completedAt, store.jobs); }
      events := events + finishing;
    }

    /** Claims the first job in line. */
    method TakeFirst(startedAt: string) returns (claimed: JobOutcome<int>)
      requires Running(store.jobs) == {}
      modifies store
      ensures claimed.Failure? ==> store.jobs == old(store.jobs)
      ensures claimed.Success? ==> JobStep(old(store.jobs), Claim(claimed.value, startedAt), store.jobs)
      ensures claimed.Success? ==> Running(store.jobs) == {claimed.value} && claimed.value in store.jobs
      ensures claimed.Success? ==>
        store.jobs[claimed.value].status == StatusRunning && store.jobs[claimed.value].startedAt == Some(startedAt)
    {
      hide JobStep, FirstPending, Running, Queued, Pending, Advances, OnlyJob, TextLess, Holds;
      ghost var now := store.jobs;
      claimed := store.ClaimNextSchemaScan(startedAt);
      if claimed.Success? { ClaimingRunsOne(now, claimed.value, startedAt, store.jobs); }
    }

    /** Scans for the claimed job and finishes it. */
    method RunClaimed(calls: Calls, grace: Calls, j: int, startedAt: string, completedAt: string)
      returns (step: Step, ghost events: seq<JobEvent>)
      requires calls != grace && calls.Valid() && grace.Valid() && Running(store.jobs) == {j} && j in store.jobs
      requires store.jobs[j].startedAt == Some(startedAt)
      modifies store, calls, grace
      ensures calls.Valid() && grace.Valid() && |calls.coming| <= |old(calls.coming)|
      ensures Leads(old(store.jobs), events, store.jobs)
      ensures Own(events) == [] || exists cancelled ::
        |Own(events)| == 1 && EndsAs(Own(events)[0], j, old(store.jobs)[j], scan, cancelled, startedAt, completedAt)
      ensures step == Ran(j) || step == Unfinished(j)
      ensures step.Ran? ==> Own(events) != []
      ensures step.Unfinished? ==> calls.coming == []
      ensures Running(store.jobs) == if Own(events) == [] then {j} else {}
      ensures Own(events) == [] ==> j in store.jobs && store.jobs[j] == old(store.jobs)[j]
      ensures Own(events) != [] ==>
        && j in store.jobs
        && EndedBy(old(store.jobs)[j], scan(old(store.jobs)[j]), |old(calls.coming)| == 0, completedAt, store.jobs[j])
    {
      hide Leads, Own, OnlyQueued, EndedBy, EndedAs;
      var job := store.jobs[j];
      assert j in Running(store.jobs);
      var outcome := scan(job);
      var cancelled := |calls.coming| == 0;
      var completion := CompletionOf(j, job, outcome, cancelled, completedAt);
      assert EndsAs(Finish(completion), j, job, scan, cancelled, startedAt, completedAt);
      var r;
      if outcome.Failed? && cancelled {
        r, events := FinishWithRetry(grace, completion);
      } else {
        r, events := FinishWithRetry(calls, completion);
      }
      assert Own(events) != [] ==> EndsAs(Own(events)[0], j, job, scan, cancelled, startedAt, completedAt);
      if Own(events) != [] { CompletionEnds(j, job, outcome, cancelled, completedAt, store.jobs[j]); }
      step := if r == Done then Ran(j) else Unfinished(j);
    }

    /** Tries until the store answers or the wait is cancelled; cut off, the recovery may still take effect. */
    method RecoverRunning(calls: Calls, recoveredAt: string) returns (recovered: bool, ghost events: seq<JobEvent>)
      requires calls.Valid()
      modifies store, scans`runs, calls
      ensures calls.Valid() && |calls.coming| <= |old(calls.coming)|
      ensures Leads(old(store.jobs), events, store.jobs)
      ensures Own(events) == [] || (Own(events) == [Recover] && Running(store.jobs) == {})
      ensures RunsAdvance(old(scans.runs), scans.runs) && (Own(events) != [] ==> NoneRunning(scans.runs))
      ensures recovered ==> Own(events) == [Recover] && calls.lands == old(calls.lands)
      ensures !recovered ==> calls.coming == [] && !calls.lands && (!old(calls.lands) ==> Own(events) == [])
    {
      events := [];
      while true
        invariant calls.Valid() && |calls.coming| <= |old(calls.coming)| && calls.lands == old(calls.lands)
        invariant Leads(old(store.jobs), events, store.jobs) && Own(events) == [] && scans.runs == old(scans.runs)
        decreases |calls.coming|
      {
        ghost var now := store.jobs;
        var attempt;
        ghost var queued;
        attempt, queued := calls.Try(store);
        LeadsOn(old(store.jobs), events, now, queued, store.jobs);
        OwnTogether(events, queued);
        events := events + queued;
        if attempt == Reached || attempt == Cancelled(true) {
          now := store.jobs;
          var _ := store.RecoverRunningSchemaScans(scans, recoveredAt);
          NothingRuns(now, store.jobs);
          LeadsOnByOne(old(store.jobs), events, now, Recover, store.jobs);
          OwnNext(events, Recover);
          events := events + [Recover];
        }
        if attempt != StoreBusy { return !attempt.Cancelled?, events; }
      }
    }

    /** Runs until it is cancelled. Whoever queues jobs meanwhile, and whichever call is cut off, the coordinator's own
        transactions are one recovery followed by turns, each a claim of the first job in line and the completion of
        that job; only the last turn may lack its completion. So once it has recovered it leaves at most one job
        running, the one it was cut off in, and the next process starts by returning that job to the queue. */
    method Run(calls: Calls, grace: Calls, recoveredAt: string, startedAt: string, completedAt: string)
      returns (ghost events: seq<JobEvent>)
      requires calls != grace && calls.Valid() && grace.Valid()
      modifies store, scans`runs, calls, grace
      ensures Leads(old(store.jobs), events, store.jobs) && calls.coming == []
      ensures Life(Own(events), scan, startedAt, completedAt)
      ensures Own(events) != [] ==> Running(store.jobs) == LeftOpen(Own(events))
    {
      hide Leads, Own, OnlyQueued, Turn;
      var recovered;
      recovered, events := RecoverRunning(calls, recoveredAt);
      // Cancelled before it recovered, the coordinator finds every further call refused.
      JustRecovered(scan, startedAt, completedAt);
      if !recovered { return; }
      hide Life, LeftOpen, Settled, Running;
      while true
        invariant calls.Valid() && grace.Valid() && Leads(old(store.jobs), events, store.jobs)
        invariant Settled(Own(events), scan, startedAt, completedAt) && Running(store.jobs) == {}
        decreases |calls.coming|
      {
        ghost var now := store.jobs;
        var step;
        ghost var more;
        step, more := ProcessNext(calls, grace, startedAt, completedAt);
        LeadsOn(old(store.jobs), events, now, more, store.jobs);
        OwnTogether(events, more);
        TurnTaken(Own(events), Own(more), scan, startedAt, completedAt);
        if |Own(more)| != 1 { SettledRunsNothing(Own(events) + Own(more), Own(more), scan, startedAt, completedAt); }
        events := events + more;
        if step.Stopped? || step.Unfinished? { return; }
      }
    }
  }

  lemma JustRecovered(scan: Job -> ScanOutcome, startedAt: string, completedAt: string)
    ensures Settled([Recover], scan, startedAt, completedAt)
  {
    assert [Recover][1..] == [];
  }

  lemma SettledRunsNothing(
    own: seq<JobEvent>, turn: seq<JobEvent>, scan: Job -> ScanOutcome, startedAt: string, completedAt: string)
    requires Settled(own, scan, startedAt, completedAt) && LeftOpen(own) == LeftOpen(turn)
    ensures LeftOpen(turn) == {}
  {
  }

  lemma NothingRuns(before: Jobs, after: Jobs)
    requires JobStep(before, Recover, after)
    ensures Running(after) == {}
  {
    forall j | j in after ensures after[j].status != StatusRunning { assert j in before; }
  }

  lemma ClaimingRunsOne(before: Jobs, j: int, startedAt: string, after: Jobs)
    requires JobStep(before, Claim(j, startedAt), after)
    ensures Running(after) == Running(before) + {j}
  {
  }

  /** What runs now was there, and running, before jobs were only queued. */
  lemma RunningWasThere(before: Jobs, now: Jobs, j: int)
    requires OnlyQueued(before, now) && j in now && now[j].status == StatusRunning
    ensures j in before && before[j] == now[j]
  {
  }

  lemma FinishingEndsOne(before: Jobs, c: Completion, after: Jobs)
    requires JobStep(before, Finish(c), after)
    ensures Running(after) == Running(before) - {c.jobID}
  {
  }
}
