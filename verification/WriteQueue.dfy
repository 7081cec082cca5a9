/** The write queue as interleaved steps: callers of `write`, the one worker, and callers of `Close`. Each step is
    one operation on the mutex, a channel or the closed flag. A call to `write` and the request it submits share
    an identifier. */
module WriteQueue {
  import opened Wrappers

  /** Where a call to `write` stands. `Admitting` holds the mutex and a slot; `Sent` still holds the mutex. */
  datatype Writer = Calling | Locked | Admitting | Sent | Waiting | Returned(answer: Answer)

  datatype Answer = Executed | StoreClosed | QueueFull | ContextDone

  datatype Closer = CloseCalled | CloseLocked | FlagSet | StopSent | AwaitingDone | CloseReturned

  /** `Holding` has received a request, `Answered` has sent its result and still occupies its slot. Draining is
      the loop that rejects what is left. */
  datatype Worker =
    | Selecting | Holding(r: int) | Answered(r: int)
    | Draining | Rejecting(r: int) | Rejected(r: int)
    | Stopped

  datatype Owner = WriterOwns(w: int) | CloserOwns(c: int)

  /** `admitted` and `results` are histories: the requests in the order they were sent to the queue, and the
      answers in the order the worker sent them. */
  datatype State = State(
    capacity: nat, lock: Option<Owner>, closed: bool, stop: bool, done: bool, slots: nat, queue: seq<int>,
    writers: map<int, Writer>, closers: map<int, Closer>, worker: Worker,
    admitted: seq<int>, results: seq<(int, Answer)>)

  function Start(capacity: nat): State {
    State(capacity + 1, None, false, false, false, 0, [], map[], map[], Selecting, [], [])
  }

  datatype Step =
    | Call(w: int) | Lock(w: int) | RefuseClosed(w: int) | TakeSlot(w: int) | RefuseFull(w: int) | Send(w: int)
    | Unlock(w: int) | Collect(w: int) | GiveUp(w: int)
    | Receive | Finish(answer: Answer) | FreeSlot | SeeStop | DrainOne | RejectOne | FreeRejected | CloseDone
    | CallClose(c: int) | LockClose(c: int) | AlreadyClosed(c: int) | SetFlag(c: int) | CloseStop(c: int)
    | UnlockClose(c: int) | SeeDone(c: int)

  predicate At(s: State, w: int, at: Writer) {
    w in s.writers && s.writers[w] == at
  }

  predicate ClosingAt(s: State, c: int, at: Closer) {
    c in s.closers && s.closers[c] == at
  }

  function Move(s: State, w: int, to: Writer): State {
    s.(writers := s.writers[w := to])
  }

  function MoveClose(s: State, c: int, to: Closer): State {
    s.(closers := s.closers[c := to])
  }

  function ResultOf(results: seq<(int, Answer)>, w: int): Option<Answer> {
    if results == [] then None
    else if results[|results| - 1].0 == w then Some(results[|results| - 1].1)
    else ResultOf(results[..|results| - 1], w)
  }

  predicate Enabled(s: State, step: Step) {
    match step
    case Call(w) => w !in s.writers
    case Lock(w) => At(s, w, Calling) && s.lock.None?
    case RefuseClosed(w) => At(s, w, Locked) && s.closed
    case TakeSlot(w) => At(s, w, Locked) && !s.closed && s.slots < s.capacity
    case RefuseFull(w) => At(s, w, Locked) && !s.closed && s.slots >= s.capacity
    case Send(w) => At(s, w, Admitting) && |s.queue| < s.capacity
    case Unlock(w) => At(s, w, Sent)
    case Collect(w) => At(s, w, Waiting) && ResultOf(s.results, w).Some?
    case GiveUp(w) => At(s, w, Waiting)
    case Receive => s.worker == Selecting && s.queue != []
    case Finish(answer) => s.worker.Holding? && answer in {Executed, ContextDone}
    case FreeSlot => s.worker.Answered? && s.slots > 0
    case SeeStop => s.worker == Selecting && s.stop
    case DrainOne => s.worker == Draining && s.queue != []
    case RejectOne => s.worker.Rejecting?
    case FreeRejected => s.worker.Rejected? && s.slots > 0
    case CloseDone => s.worker == Draining && s.queue == []
    case CallClose(c) => c !in s.closers
    case LockClose(c) => ClosingAt(s, c, CloseCalled) && s.lock.None?
    case AlreadyClosed(c) => ClosingAt(s, c, CloseLocked) && s.closed
    case SetFlag(c) => ClosingAt(s, c, CloseLocked) && !s.closed
    case CloseStop(c) => ClosingAt(s, c, FlagSet)
    case UnlockClose(c) => ClosingAt(s, c, StopSent)
    case SeeDone(c) => ClosingAt(s, c, AwaitingDone) && s.done
  }

  function Take(s: State, step: Step): State
    requires Enabled(s, step)
  {
    match step
    case Call(w) => Move(s, w, Calling)
    case Lock(w) => Move(s, w, Locked).(lock := Some(WriterOwns(w)))
    case RefuseClosed(w) => Move(s, w, Returned(StoreClosed)).(lock := None)
    case TakeSlot(w) => Move(s, w, Admitting).(slots := s.slots + 1)
    case RefuseFull(w) => Move(s, w, Returned(QueueFull)).(lock := None)
    case Send(w) => Move(s, w, Sent).(queue := s.queue + [w], admitted := s.admitted + [w])
    case Unlock(w) => Move(s, w, Waiting).(lock := None)
    case Collect(w) => Move(s, w, Returned(ResultOf(s.results, w).value))
    case GiveUp(w) => Move(s, w, Returned(ContextDone))
    case Receive => s.(worker := Holding(s.queue[0]), queue := s.queue[1..])
    case Finish(answer) => s.(worker := Answered(s.worker.r), results := s.results + [(s.worker.r, answer)])
    case FreeSlot => s.(worker := Selecting, slots := s.slots - 1)
    case SeeStop => s.(worker := Draining)
    case DrainOne => s.(worker := Rejecting(s.queue[0]), queue := s.queue[1..])
    case RejectOne => s.(worker := Rejected(s.worker.r), results := s.results + [(s.worker.r, StoreClosed)])
    case FreeRejected => s.(worker := Draining, slots := s.slots - 1)
    case CloseDone => s.(worker := Stopped, done := true)
    case CallClose(c) => MoveClose(s, c, CloseCalled)
    case LockClose(c) => MoveClose(s, c, CloseLocked).(lock := Some(CloserOwns(c)))
    case AlreadyClosed(c) => MoveClose(s, c, CloseReturned).(lock := None)
    case SetFlag(c) => MoveClose(s, c, FlagSet).(closed := true)
    case CloseStop(c) => MoveClose(s, c, StopSent).(stop := true)
    case UnlockClose(c) => MoveClose(s, c, AwaitingDone).(lock := None)
    case SeeDone(c) => MoveClose(s, c, CloseReturned)
  }

  // ----- the invariant ---------------------------------------------------------------------------

  function Held(worker: Worker): seq<int> {
    match worker
    case Holding(r) => [r]
    case Rejecting(r) => [r]
    case _ => []
  }

  function Occupied(worker: Worker): nat {
    if worker.Holding? || worker.Answered? || worker.Rejecting? || worker.Rejected? then 1 else 0
  }

  function Requests(results: seq<(int, Answer)>): seq<int> {
    seq(|results|, i requires 0 <= i < |results| => results[i].0)
  }

  predicate InLock(at: Writer) {
    at in {Locked, Admitting, Sent}
  }

  predicate CloseInLock(at: Closer) {
    at in {CloseLocked, FlagSet, StopSent}
  }

  /** Being inside the critical section and owning the mutex are the same thing. */
  predicate Exclusive(s: State) {
    && (forall w :: w in s.writers && InLock(s.writers[w]) ==> s.lock == Some(WriterOwns(w)))
    && (forall c :: c in s.closers && CloseInLock(s.closers[c]) ==> s.lock == Some(CloserOwns(c)))
    && (match s.lock
        case None => true
        case Some(WriterOwns(w)) => w in s.writers && InLock(s.writers[w])
        case Some(CloserOwns(c)) => c in s.closers && CloseInLock(s.closers[c]))
  }

  predicate AdmittingNow(s: State) {
    s.lock.Some? && s.lock.value.WriterOwns? && At(s, s.lock.value.w, Admitting)
  }

  /** Every occupied slot is accounted for: a queued request, one being sent, or one with the worker. */
  predicate SlotsBalance(s: State) {
    s.slots == |s.queue| + (if AdmittingNow(s) then 1 else 0) + Occupied(s.worker) <= s.capacity
  }

  /** Admitted requests are answered, with the worker, or queued, in order and without repetition. */
  predicate OrderKept(s: State) {
    && s.admitted == Requests(s.results) + Held(s.worker) + s.queue
    && (forall i, j :: 0 <= i < j < |s.admitted| ==> s.admitted[i] != s.admitted[j])
    && (forall i :: 0 <= i < |s.admitted| ==> HasSent(s, s.admitted[i]))
  }

  predicate HasSent(s: State, w: int) {
    w in s.writers && s.writers[w] !in {Calling, Locked, Admitting}
  }

  predicate InShutdown(worker: Worker) {
    worker.Draining? || worker.Rejecting? || worker.Rejected? || worker.Stopped?
  }

  /** Closing sets the flag, then the stop signal; the worker drains only after it, and is done only when empty. */
  predicate ShutdownOrder(s: State) {
    && (s.stop ==> s.closed) && (InShutdown(s.worker) ==> s.stop) && (s.done <==> s.worker == Stopped)
    && (s.closed ==> !AdmittingNow(s)) && (s.done ==> s.queue == [])
    && (forall c :: c in s.closers && s.closers[c] in {FlagSet, StopSent, AwaitingDone} ==> s.closed)
    && (!InShutdown(s.worker) ==> forall i :: 0 <= i < |s.results| ==> s.results[i].1 != StoreClosed)
    && (forall i, j :: 0 <= i < j < |s.results| && s.results[i].1 == StoreClosed ==> s.results[j].1 == StoreClosed)
  }

  predicate Invariant(s: State) {
    Exclusive(s) && SlotsBalance(s) && OrderKept(s) && ShutdownOrder(s)
  }

  lemma StartIsSound(capacity: nat)
    ensures Invariant(Start(capacity))
  {
  }

  lemma ExclusiveKept(s: State, step: Step)
    requires Invariant(s) && Enabled(s, step)
    ensures Exclusive(Take(s, step))
  {
    hide SlotsBalance, OrderKept, ShutdownOrder, ResultOf, Requests;
  }

  lemma SlotsKept(s: State, step: Step)
    requires Invariant(s) && Enabled(s, step)
    ensures SlotsBalance(Take(s, step))
  {
    hide OrderKept, ShutdownOrder, ResultOf, Requests;
  }

  predicate WorkerStep(step: Step) {
    step.Receive? || step.Finish? || step.FreeSlot? || step.SeeStop? || step.DrainOne? || step.RejectOne? || step.FreeRejected? || step.CloseDone?
  }

  lemma WorkerKeepsOrder(s: State, step: Step)
    requires OrderKept(s) && WorkerStep(step) && Enabled(s, step)
    ensures OrderKept(Take(s, step))
  {
    hide ResultOf;
    var t := Take(s, step);
    if step.Finish? || step.RejectOne? { assert Requests(t.results) == Requests(s.results) + [s.worker.r]; }
    assert t.admitted == Requests(t.results) + Held(t.worker) + t.queue;
    hide Requests;
    forall i | 0 <= i < |t.admitted| ensures HasSent(t, t.admitted[i]) { assert HasSent(s, s.admitted[i]); }
  }

  lemma SendKeepsOrder(s: State, w: int)
    requires OrderKept(s) && Enabled(s, Send(w))
    ensures OrderKept(Take(s, Send(w)))
  {
    hide ResultOf, Requests;
    var t := Take(s, Send(w));
    forall i | 0 <= i < |s.admitted| ensures HasSent(t, s.admitted[i]) && s.admitted[i] != w { assert HasSent(s, s.admitted[i]); }
  }

  lemma OthersKeepOrder(s: State, step: Step)
    requires OrderKept(s) && !WorkerStep(step) && !step.Send? && Enabled(s, step)
    ensures OrderKept(Take(s, step))
  {
    hide ResultOf, Requests;
    var t := Take(s, step);
    forall i | 0 <= i < |t.admitted| ensures HasSent(t, t.admitted[i]) { assert HasSent(s, s.admitted[i]); }
  }

  lemma StepKeepsInvariant(s: State, step: Step)
    requires Invariant(s) && Enabled(s, step)
    ensures Invariant(Take(s, step))
  {
    ExclusiveKept(s, step);
    SlotsKept(s, step);
    ShutdownKept(s, step);
    hide Exclusive, SlotsBalance, ShutdownOrder, OrderKept, Enabled, Take;
    if WorkerStep(step) { WorkerKeepsOrder(s, step); }
    else if step.Send? { SendKeepsOrder(s, step.w); }
    else { OthersKeepOrder(s, step); }
  }

  lemma ShutdownKept(s: State, step: Step)
    requires Invariant(s) && Enabled(s, step)
    ensures ShutdownOrder(Take(s, step))
  {
    hide SlotsBalance, OrderKept, ResultOf, Requests;
  }

  // ----- every interleaving ----------------------------------------------------------------------

  predicate Runs(s: State, steps: seq<Step>)
    decreases |steps|
  {
    steps == [] || (Enabled(s, steps[0]) && Runs(Take(s, steps[0]), steps[1..]))
  }

  function Run(s: State, steps: seq<Step>): State
    requires Runs(s, steps)
    decreases |steps|
  {
    if steps == [] then s else Run(Take(s, steps[0]), steps[1..])
  }

  lemma {:induction false} RunKeepsInvariant(s: State, steps: seq<Step>)
    requires Invariant(s) && Runs(s, steps)
    ensures Invariant(Run(s, steps))
    decreases |steps|
  {
    hide Invariant, Enabled, Take;
    if steps != [] {
      StepKeepsInvariant(s, steps[0]);
      RunKeepsInvariant(Take(s, steps[0]), steps[1..]);
    }
  }

  /** The send made under the mutex never blocks: a caller holding a slot finds room in the queue. */
  lemma SendNeverBlocks(capacity: nat, steps: seq<Step>, w: int)
    requires Runs(Start(capacity), steps) && At(Run(Start(capacity), steps), w, Admitting)
    ensures Enabled(Run(Start(capacity), steps), Send(w))
  {
    StartIsSound(capacity);
    RunKeepsInvariant(Start(capacity), steps);
    hide Runs, Run, OrderKept, ShutdownOrder;
  }

  lemma StepKeepsCapacity(s: State, step: Step)
    requires Enabled(s, step)
    ensures Take(s, step).capacity == s.capacity
  {
    hide At, ClosingAt;
  }

  lemma {:induction false} CapacityKept(s: State, steps: seq<Step>)
    requires Runs(s, steps)
    ensures Run(s, steps).capacity == s.capacity
    decreases |steps|
  {
    hide Enabled, Take;
    if steps != [] {
      StepKeepsCapacity(s, steps[0]);
      CapacityKept(Take(s, steps[0]), steps[1..]);
    }
  }

  /** A writer that has the lock is refused as closed exactly when the store is, and as full exactly when more requests
      than the capacity are waiting or in the worker's hands; otherwise it is admitted. */
  lemma RefusedOnlyWhenFull(capacity: nat, steps: seq<Step>, step: Step, w: int)
    requires Runs(Start(capacity), steps) && At(Run(Start(capacity), steps), w, Locked)
    requires Enabled(Run(Start(capacity), steps), step) && !At(Take(Run(Start(capacity), steps), step), w, Locked)
    ensures var s := Run(Start(capacity), steps); var u := Take(s, step);
      var inHand := if s.worker == Selecting || s.worker == Draining || s.worker == Stopped then 0 else 1;
      At(u, w, if s.closed then Returned(StoreClosed)
               else if |s.queue| + inHand > capacity then Returned(QueueFull)
               else Admitting)
  {
    StartIsSound(capacity);
    RunKeepsInvariant(Start(capacity), steps);
    CapacityKept(Start(capacity), steps);
    hide Runs, Run, OrderKept, ShutdownOrder;
  }

  /** Closing twice is harmless: the second closer lets go and returns, and only the first raises the flag. */
  lemma ClosesOnce(s: State, step: Step, c: int)
    requires Enabled(s, step) && ClosingAt(s, c, CloseLocked) && !ClosingAt(Take(s, step), c, CloseLocked)
    ensures var u := Take(s, step);
      && u.closed && u.queue == s.queue && u.stop == s.stop && u.done == s.done
      && (s.closed ==> ClosingAt(u, c, CloseReturned) && u.lock.None?)
      && (!s.closed ==> ClosingAt(u, c, FlagSet) && u.lock == s.lock)
  {
  }

  /** The closer that stops the worker returns only when every admitted request has its result. */
  lemma CloseReturnsWhenDone(capacity: nat, steps: seq<Step>, step: Step, c: int)
    requires Runs(Start(capacity), steps) && ClosingAt(Run(Start(capacity), steps), c, AwaitingDone)
    requires Enabled(Run(Start(capacity), steps), step) && !ClosingAt(Take(Run(Start(capacity), steps), step), c, AwaitingDone)
    ensures var s := Run(Start(capacity), steps);
      && ClosingAt(Take(s, step), c, CloseReturned) && s.queue == [] && |s.results| == |s.admitted|
      && forall i :: 0 <= i < |s.admitted| ==> s.results[i].0 == s.admitted[i]
  {
    StartIsSound(capacity);
    RunKeepsInvariant(Start(capacity), steps);
    hide Runs, Run, Exclusive, SlotsBalance;
    var s := Run(Start(capacity), steps);
    assert s.done && s.worker == Stopped;
    assert s.admitted == Requests(s.results);
    forall i | 0 <= i < |s.admitted| ensures s.results[i].0 == s.admitted[i] { assert Requests(s.results)[i] == s.results[i].0; }
  }

  /** Each admitted request is at exactly one place of the pipeline, so it is answered at most once; answers come
      in admission order; executions precede rejections. */
  lemma AdmittedOnceInOrder(capacity: nat, steps: seq<Step>)
    requires Runs(Start(capacity), steps)
    ensures var s := Run(Start(capacity), steps);
      && Requests(s.results) <= s.admitted
      && (forall i, j :: 0 <= i < j < |s.results| ==> s.results[i].0 != s.results[j].0)
      && (forall i, j :: 0 <= i < j < |s.results| && s.results[i].1 == StoreClosed ==> s.results[j].1 == StoreClosed)
      && |s.admitted| == |s.results| + |Held(s.worker)| + |s.queue|
      && s.slots <= s.capacity
  {
    var s := Run(Start(capacity), steps);
    StartIsSound(capacity);
    RunKeepsInvariant(Start(capacity), steps);
    hide Runs, Run, Exclusive;
    forall i | 0 <= i < |s.results| ensures s.admitted[i] == s.results[i].0 { }
  }

  /** Once the done signal is given, every admitted request has been answered, no call can still be about to send,
      and the queue stays empty whatever happens next. */
  lemma DoneMeansEmptyForGood(capacity: nat, steps: seq<Step>, later: seq<Step>)
    requires Runs(Start(capacity), steps) && Run(Start(capacity), steps).done && Runs(Run(Start(capacity), steps), later)
    ensures var s := Run(Start(capacity), steps);
      && s.queue == [] && s.admitted == Requests(s.results) && Run(s, later).queue == [] && Run(s, later).admitted == s.admitted
  {
    StartIsSound(capacity);
    RunKeepsInvariant(Start(capacity), steps);
    DoneStays(Run(Start(capacity), steps), later);
    hide Runs, Run, Exclusive, SlotsBalance;
  }

  lemma {:induction false} DoneStays(s: State, later: seq<Step>)
    requires Invariant(s) && s.done && Runs(s, later)
    ensures Run(s, later).done && Run(s, later).queue == s.queue && Run(s, later).admitted == s.admitted
    decreases |later|
  {
    if later != [] {
      StepKeepsInvariant(s, later[0]);
      NothingAdmittedAfterDone(s, later[0]);
      hide Invariant, Enabled, Take;
      DoneStays(Take(s, later[0]), later[1..]);
    }
  }

  lemma NothingAdmittedAfterDone(s: State, step: Step)
    requires Invariant(s) && s.done && Enabled(s, step)
    ensures Take(s, step).done && Take(s, step).queue == s.queue && Take(s, step).admitted == s.admitted
  {
    hide SlotsBalance, ResultOf, Requests;
  }

  /** A caller that collects an answer collects the one the worker sent for its own request. */
  lemma CollectedAnswerIsOwn(s: State, w: int)
    requires Invariant(s) && Enabled(s, Collect(w))
    ensures exists i :: 0 <= i < |s.results| && s.results[i] == (w, Take(s, Collect(w)).writers[w].answer)
  {
    hide Invariant;
    ResultIsListed(s.results, w);
  }

  lemma {:induction false} ResultIsListed(results: seq<(int, Answer)>, w: int)
    requires ResultOf(results, w).Some?
    ensures exists i :: 0 <= i < |results| && results[i] == (w, ResultOf(results, w).value)
  {
    var last := |results| - 1;
    if results[last].0 == w {
      assert results[last] == (w, ResultOf(results, w).value);
    } else {
      ResultIsListed(results[..last], w);
      var i :| 0 <= i < last && results[..last][i] == (w, ResultOf(results, w).value);
      assert results[i] == (w, ResultOf(results, w).value);
    }
  }

  /** The worker only ever waits for a request or the stop signal; draining, each of its steps comes closer to the end. */
  function DrainingLeft(s: State): nat {
    3 * |s.queue| + (match s.worker case Rejecting(_) => 3 case Rejected(_) => 2 case Draining => 1 case _ => 0)
  }

  lemma WorkerNeverStuck(s: State) returns (step: Step)
    requires Invariant(s) && s.worker != Stopped && (s.worker == Selecting ==> s.queue != [] || s.stop)
    ensures WorkerStep(step) && Enabled(s, step)
    ensures InShutdown(s.worker) ==> DrainingLeft(Take(s, step)) < DrainingLeft(s)
  {
    hide OrderKept, Exclusive, ResultOf;
    match s.worker {
      case Selecting => step := if s.queue != [] then Receive else SeeStop;
      case Holding(_) => step := Finish(Executed);
      case Answered(_) => step := FreeSlot;
      case Draining => step := if s.queue != [] then DrainOne else CloseDone;
      case Rejecting(_) => step := RejectOne;
      case Rejected(_) => step := FreeRejected;
    }
  }
}
