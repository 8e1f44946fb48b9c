/**
 The worker pool of `runChannelTestWorkers` (controller/channel-test.go) as a transition system:
 a feeder and a closer goroutine, `WorkerCount` workers and the reducing caller, which meet over two
 unbuffered Go channels (`jobs`, `results`), a wait group and a cancellable context. One `Step` is one
 atomic action of one goroutine, or a rendezvous of two; a run is any sequence of enabled steps.
 */
module WorkerPool {
  import opened Basics

  datatype Summary = Summary(tested: int, succeeded: int, failed: int, disabled: int, enabled: int)

  const ZERO := Summary(0, 0, 0, 0, 0)

  function Plus(a: Summary, b: Summary): Summary {
    Summary(a.tested + b.tested, a.succeeded + b.succeeded, a.failed + b.failed,
            a.disabled + b.disabled, a.enabled + b.enabled)
  }

  // An element of `channels []*model.Channel`.
  datatype Job = NilChannel | Channel(id: int, status: int)

  const MANUALLY_DISABLED := 2

  predicate Runnable(job: Job) {
    job.Channel? && job.status != MANUALLY_DISABLED
  }

  // `outcome(i)` is what `run` returns for channels[i] as long as the context is not cancelled.
  datatype Config = Config(channels: seq<Job>, concurrency: int, pauses: bool, outcome: nat -> Summary)

  const DEFAULT_CONCURRENCY := 1
  const MAX_CONCURRENCY := 32

  function NormalizeConcurrency(concurrency: int): nat {
    if concurrency < 1 then DEFAULT_CONCURRENCY
    else if concurrency > MAX_CONCURRENCY then MAX_CONCURRENCY
    else concurrency
  }

  function WorkerCount(cfg: Config): nat {
    var normalized := NormalizeConcurrency(cfg.concurrency);
    if normalized < |cfg.channels| then normalized else |cfg.channels|
  }

  datatype Worker =
    | Waiting                                // at the select on ctx.Done() and jobs
    | Received(job: nat)                     // took a job, has not looked at ctx.Err() yet
    | Running(job: nat)                      // inside run
    | Sending(job: nat, result: Summary)     // at results <- result
    | Pausing                                // at the request-interval select
    | Exited

  datatype Reducer = Receiving | Reporting | Returned

  // What became of a job the feeder handed out.
  datatype Fate = Held(worker: nat) | Delivered(result: Summary) | Dropped

  datatype State = State(
    cancelled: bool,
    next: nat,              // the feeder's position in channels
    feeding: bool,          // the feeder goroutine has not returned
    jobsClosed: bool,
    workers: seq<Worker>,
    waitGroup: int,
    resultsClosed: bool,
    reducer: Reducer,
    summary: Summary,
    processed: nat,
    panicked: bool,         // a send on a closed channel or a negative wait group
    reports: seq<nat>,      // history: the values passed to report
    runs: seq<nat>,         // history: the jobs run was called on
    fates: seq<Fate>)       // history: one fate per job handed out

  datatype Step =
    | Cancel
    | FeederDone
    | FeederCancelled
    | Handoff(w: nat)
    | WorkerCancelled(w: nat)
    | WorkerSeesClosed(w: nat)
    | WorkerStarts(w: nat)
    | RunReturns(w: nat, result: Summary)
    | SendResult(w: nat)
    | PauseEnds(w: nat)
    | PauseCancelled(w: nat)
    | CloseResults
    | Report
    | ReducerReturns

  function Start(cfg: Config): State {
    if |cfg.channels| == 0 then
      // report(0, 0) and return before anything is started
      State(false, 0, false, true, [], 0, true, Returned, ZERO, 0, false, [0], [], [])
    else
      State(false, 0, true, false, seq(WorkerCount(cfg), _ => Waiting), WorkerCount(cfg),
            false, Receiving, ZERO, 0, false, [0], [], [])
  }

  function Pc(s: State, w: nat): Worker {
    if w < |s.workers| then s.workers[w] else Exited
  }

  predicate Enabled(cfg: Config, s: State, step: Step) {
    && !s.panicked
    && match step
       case Cancel => !s.cancelled
       case FeederDone => s.feeding && s.next == |cfg.channels|
       case FeederCancelled => s.feeding && s.next < |cfg.channels| && s.cancelled
       case Handoff(w) => s.feeding && s.next < |cfg.channels| && Pc(s, w).Waiting?
       case WorkerCancelled(w) => s.cancelled && Pc(s, w).Waiting?
       case WorkerSeesClosed(w) => s.jobsClosed && Pc(s, w).Waiting?
       case WorkerStarts(w) => Pc(s, w).Received?
       case RunReturns(w, result) =>
         Pc(s, w).Running? && (s.cancelled || result == cfg.outcome(Pc(s, w).job))
       case SendResult(w) => Pc(s, w).Sending? && (s.reducer.Receiving? || s.resultsClosed)
       case PauseEnds(w) => Pc(s, w).Pausing?
       case PauseCancelled(w) => s.cancelled && Pc(s, w).Pausing?
       case CloseResults => s.waitGroup == 0 && !s.resultsClosed
       case Report => s.reducer.Reporting?
       case ReducerReturns => s.reducer.Receiving? && s.resultsClosed
  }

  // `defer workers.Done()` as the worker goroutine returns.
  function Exit(s: State, w: nat): State
    requires w < |s.workers|
  {
    s.(workers := s.workers[w := Exited], waitGroup := s.waitGroup - 1, panicked := s.waitGroup <= 0)
  }

  function Do(cfg: Config, s: State, step: Step): State
    requires Enabled(cfg, s, step)
  {
    match step
    case Cancel => s.(cancelled := true)
    case FeederDone => s.(feeding := false, jobsClosed := true)
    case FeederCancelled => s.(feeding := false, jobsClosed := true)
    case Handoff(w) =>
      if s.jobsClosed then s.(panicked := true)
      else s.(next := s.next + 1, workers := s.workers[w := Received(s.next)], fates := s.fates + [Held(w)])
    case WorkerCancelled(w) => Exit(s, w)
    case WorkerSeesClosed(w) => Exit(s, w)
    case WorkerStarts(w) =>
      var job := s.workers[w].job;
      if s.cancelled then
        Exit(s, w).(fates := SetFate(s.fates, job, Dropped))
      else if job < |cfg.channels| && Runnable(cfg.channels[job]) then
        s.(workers := s.workers[w := Running(job)], runs := s.runs + [job])
      else
        s.(workers := s.workers[w := Sending(job, ZERO)])
    case RunReturns(w, result) =>
      s.(workers := s.workers[w := Sending(s.workers[w].job, result)])
    case SendResult(w) =>
      if s.resultsClosed then s.(panicked := true)
      else
        var Sending(job, result) := s.workers[w];
        s.(workers := s.workers[w := if cfg.pauses then Pausing else Waiting],
           summary := Plus(s.summary, result), processed := s.processed + 1, reducer := Reporting,
           fates := SetFate(s.fates, job, Delivered(result)))
    case PauseEnds(w) => s.(workers := s.workers[w := Waiting])
    case PauseCancelled(w) => Exit(s, w)
    case CloseResults => s.(resultsClosed := true)
    case Report =>
      s.(reducer := Receiving, reports := if s.cancelled then s.reports else s.reports + [s.processed])
    case ReducerReturns => s.(reducer := Returned)
  }

  function SetFate(fates: seq<Fate>, job: nat, fate: Fate): seq<Fate> {
    if job < |fates| then fates[job := fate] else fates
  }

  // The state a run ends in; None when one of its steps was not enabled.
  function After(cfg: Config, steps: seq<Step>): Option<State> {
    if |steps| == 0 then Some(Start(cfg))
    else
      var last := |steps| - 1;
      match After(cfg, steps[..last])
      case None => None
      case Some(s) => if Enabled(cfg, s, steps[last]) then Some(Do(cfg, s, steps[last])) else None
  }

  // The caller has returned and no goroutine is left behind.
  predicate Final(s: State) {
    s.reducer.Returned? && !s.feeding && forall w :: 0 <= w < |s.workers| ==> s.workers[w].Exited?
  }

  // Sums over workers and fates

  function SumInt<T>(xs: seq<T>, f: T -> int): int {
    if |xs| == 0 then 0 else SumInt(xs[..|xs| - 1], f) + f(xs[|xs| - 1])
  }

  function SumOf<T>(xs: seq<T>, f: T -> Summary): Summary {
    if |xs| == 0 then ZERO else Plus(SumOf(xs[..|xs| - 1], f), f(xs[|xs| - 1]))
  }

  lemma {:induction false} SumIntUpdate<T>(xs: seq<T>, f: T -> int, i: nat, x: T)
    requires i < |xs|
    ensures SumInt(xs[i := x], f) == SumInt(xs, f) - f(xs[i]) + f(x)
  {
    var last := |xs| - 1;
    if i == last {
      assert xs[i := x][..last] == xs[..last];
    } else {
      assert xs[i := x][..last] == xs[..last][i := x];
      SumIntUpdate(xs[..last], f, i, x);
    }
  }

  lemma {:induction false} SumOfUpdate<T>(xs: seq<T>, f: T -> Summary, i: nat, x: T)
    requires i < |xs|
    ensures Plus(SumOf(xs[i := x], f), f(xs[i])) == Plus(SumOf(xs, f), f(x))
  {
    var last := |xs| - 1;
    if i == last {
      assert xs[i := x][..last] == xs[..last];
    } else {
      assert xs[i := x][..last] == xs[..last][i := x];
      SumOfUpdate(xs[..last], f, i, x);
    }
  }

  lemma SumAppend<T>(xs: seq<T>, f: T -> int, g: T -> Summary, x: T)
    ensures SumInt(xs + [x], f) == SumInt(xs, f) + f(x)
    ensures SumOf(xs + [x], g) == Plus(SumOf(xs, g), g(x))
  {
    assert (xs + [x])[..|xs|] == xs;
  }

  // Every counter is the integer sum of that counter over the summaries of some things.
  ghost predicate Adds<T(!new)>(sum: Summary, xs: seq<T>, f: T -> Summary) {
    && sum.tested == SumInt(xs, (x: T) => f(x).tested)
    && sum.succeeded == SumInt(xs, (x: T) => f(x).succeeded)
    && sum.failed == SumInt(xs, (x: T) => f(x).failed)
    && sum.disabled == SumInt(xs, (x: T) => f(x).disabled)
    && sum.enabled == SumInt(xs, (x: T) => f(x).enabled)
  }

  lemma {:induction false} SumOfAdds<T(!new)>(xs: seq<T>, f: T -> Summary)
    ensures Adds(SumOf(xs, f), xs, f)
  {
    if |xs| > 0 {
      SumOfAdds(xs[..|xs| - 1], f);
    }
  }

  lemma {:induction false} SumIntBounds<T>(xs: seq<T>, f: T -> int, lo: int, hi: int)
    requires forall i :: 0 <= i < |xs| ==> lo <= f(xs[i]) <= hi
    ensures lo * |xs| <= SumInt(xs, f) <= hi * |xs|
  {
    if |xs| > 0 {
      SumIntBounds(xs[..|xs| - 1], f, lo, hi);
    }
  }

  function Live(pc: Worker): int { if pc.Exited? then 0 else 1 }

  function InRun(pc: Worker): int { if pc.Running? then 1 else 0 }

  // A result that run has returned and the reducer has not received.
  function Pending(pc: Worker): Summary { if pc.Sending? then pc.result else ZERO }

  function IsDelivered(fate: Fate): int { if fate.Delivered? then 1 else 0 }

  function DeliveredResult(fate: Fate): Summary { if fate.Delivered? then fate.result else ZERO }

  // The invariant

  // The worker has a job in hand.
  predicate Busy(pc: Worker) {
    pc.Received? || pc.Running? || pc.Sending?
  }

  function Expected(cfg: Config, job: nat): Summary {
    if job < |cfg.channels| && Runnable(cfg.channels[job]) then cfg.outcome(job) else ZERO
  }

  predicate Flags(cfg: Config, s: State) {
    && !s.panicked
    && s.next <= |cfg.channels|
    && s.feeding == !s.jobsClosed
    && (s.jobsClosed ==> s.cancelled || s.next == |cfg.channels|)
    && |s.workers| == WorkerCount(cfg)
    && (s.reducer.Returned? ==> s.resultsClosed)
  }

  // A worker only leaves when it is told to, and none is left when the results are closed.
  predicate ExitOk(s: State, w: nat) {
    w < |s.workers| ==>
      && (s.resultsClosed ==> s.workers[w].Exited?)
      && (s.workers[w].Exited? ==> s.cancelled || s.jobsClosed)
  }

  ghost predicate Control(cfg: Config, s: State) {
    Flags(cfg, s) && forall w: nat :: ExitOk(s, w)
  }

  // The wait group counts the workers that have not returned.
  ghost predicate Counted(s: State) {
    s.waitGroup == SumInt(s.workers, Live)
  }

  // A worker's job is held by that worker and nobody else.
  predicate WorkerCustody(s: State, w: nat) {
    w < |s.workers| && Busy(s.workers[w]) ==>
      s.workers[w].job < |s.fates| && s.fates[s.workers[w].job] == Held(w)
  }

  predicate FateCustody(s: State, i: nat) {
    i < |s.fates| ==>
      && (s.fates[i].Held? ==>
            var w := s.fates[i].worker; w < |s.workers| && Busy(s.workers[w]) && s.workers[w].job == i)
      && (s.fates[i].Dropped? ==> s.cancelled)
  }

  // Every job handed out is in one place.
  ghost predicate Custody(cfg: Config, s: State) {
    && |s.fates| == s.next
    && (forall w: nat :: WorkerCustody(s, w))
    && (forall i: nat :: FateCustody(s, i))
  }

  // `job` has passed the point where run is called.
  predicate Ran(cfg: Config, s: State, job: nat) {
    && job < |s.fates| && job < |cfg.channels| && Runnable(cfg.channels[job])
    && match s.fates[job]
       case Held(w) => w < |s.workers| && !s.workers[w].Received?
       case Delivered(_) => true
       case Dropped => false
  }

  predicate RunsRunnable(cfg: Config, s: State, w: nat) {
    Pc(s, w).Running? ==> Pc(s, w).job < |cfg.channels| && Runnable(cfg.channels[Pc(s, w).job])
  }

  ghost predicate Calls(cfg: Config, s: State) {
    && (forall job :: job in s.runs <==> Ran(cfg, s, job))
    && (forall i, j :: 0 <= i < j < |s.runs| ==> s.runs[i] != s.runs[j])
    && (forall w: nat :: RunsRunnable(cfg, s, w))
  }

  ghost predicate Balanced(fates: seq<Fate>, processed: int, summary: Summary) {
    processed == SumInt(fates, IsDelivered) && summary == SumOf(fates, DeliveredResult)
  }

  ghost predicate Totals(s: State) {
    Balanced(s.fates, s.processed, s.summary)
  }

  predicate SendsExpected(cfg: Config, s: State, w: nat) {
    Pc(s, w).Sending? ==> Pc(s, w).result == Expected(cfg, Pc(s, w).job)
  }

  predicate GotExpected(cfg: Config, s: State, i: nat) {
    i < |s.fates| && s.fates[i].Delivered? ==> s.fates[i].result == Expected(cfg, i)
  }

  ghost predicate Results(cfg: Config, s: State) {
    !s.cancelled ==> (forall w: nat :: SendsExpected(cfg, s, w)) && (forall i: nat :: GotExpected(cfg, s, i))
  }

  predicate CountsUp(reports: seq<nat>) {
    1 <= |reports| && forall i :: 0 <= i < |reports| ==> reports[i] == i
  }

  ghost predicate Progress(s: State) {
    && CountsUp(s.reports)
    && var due := |s.reports| + (if s.reducer.Reporting? then 1 else 0);
       if s.cancelled then due <= s.processed + 1 else due == s.processed + 1
  }

  ghost predicate Inv(cfg: Config, s: State) {
    Control(cfg, s) && Counted(s) && Custody(cfg, s) && Calls(cfg, s) && Totals(s) && Results(cfg, s) && Progress(s)
  }

  // Every step keeps the invariant

  predicate HasWorker(step: Step) {
    match step
    case Cancel => false
    case FeederDone => false
    case FeederCancelled => false
    case CloseResults => false
    case Report => false
    case ReducerReturns => false
    case _ => true
  }

  // A step changes the worker it names and no other.
  lemma OneWorkerMoves(cfg: Config, s: State, step: Step)
    requires Enabled(cfg, s, step)
    ensures var t := Do(cfg, s, step);
      if HasWorker(step) then
        step.w < |s.workers| == |t.workers| && t.workers == s.workers[step.w := t.workers[step.w]]
      else
        t.workers == s.workers
  {
  }

  function Change(s: State, step: Step, t: State, f: Worker -> int): int {
    if HasWorker(step) then f(Pc(t, step.w)) - f(Pc(s, step.w)) else 0
  }

  lemma SumChanges(cfg: Config, s: State, step: Step, f: Worker -> int)
    requires Enabled(cfg, s, step)
    ensures var t := Do(cfg, s, step);
      SumInt(t.workers, f) == SumInt(s.workers, f) + Change(s, step, t, f)
  {
    OneWorkerMoves(cfg, s, step);
    if HasWorker(step) {
      SumIntUpdate(s.workers, f, step.w, Do(cfg, s, step).workers[step.w]);
    }
  }

  // The wait group is zero exactly when every worker is gone.
  lemma {:induction false} LiveWorker(workers: seq<Worker>)
    ensures 0 <= SumInt(workers, Live)
    ensures SumInt(workers, Live) == 0 <==> forall w :: 0 <= w < |workers| ==> workers[w].Exited?
  {
    if |workers| > 0 {
      LiveWorker(workers[..|workers| - 1]);
    }
  }

  lemma FlagsKept(cfg: Config, s: State, step: Step)
    requires Flags(cfg, s) && Enabled(cfg, s, step) && 0 <= s.waitGroup
    requires HasWorker(step) ==> ExitOk(s, step.w) && 0 < s.waitGroup
    ensures Flags(cfg, Do(cfg, s, step))
    ensures Do(cfg, s, step).waitGroup == s.waitGroup + Change(s, step, Do(cfg, s, step), Live)
  {
  }

  lemma ExitKept(cfg: Config, s: State, step: Step, w: nat)
    requires Flags(cfg, s) && Enabled(cfg, s, step) && ExitOk(s, w)
    requires s.waitGroup == 0 && w < |s.workers| ==> s.workers[w].Exited?
    ensures ExitOk(Do(cfg, s, step), w)
  {
  }

  lemma ControlKept(cfg: Config, s: State, step: Step)
    requires Control(cfg, s) && Enabled(cfg, s, step)
    requires 0 <= s.waitGroup
    requires s.waitGroup == 0 <==> forall w :: 0 <= w < |s.workers| ==> s.workers[w].Exited?
    ensures Control(cfg, Do(cfg, s, step))
    ensures Do(cfg, s, step).waitGroup == s.waitGroup + Change(s, step, Do(cfg, s, step), Live)
  {
    OneWorkerMoves(cfg, s, step);
    if HasWorker(step) {
      assert ExitOk(s, step.w) && !Pc(s, step.w).Exited?;
    }
    FlagsKept(cfg, s, step);
    forall w: nat
      ensures ExitOk(Do(cfg, s, step), w)
    {
      assert ExitOk(s, w);
      ExitKept(cfg, s, step, w);
    }
  }

  // The four ways a step can touch the books.
  datatype Booking = Nothing | HandedOut(w: nat) | DroppedJob(job: nat) | DeliveredJob(job: nat, result: Summary)

  function BookingOf(s: State, step: Step): Booking {
    match step
    case Handoff(w) => if s.jobsClosed then Nothing else HandedOut(w)
    case WorkerStarts(w) => if s.cancelled && Pc(s, w).Received? then DroppedJob(Pc(s, w).job) else Nothing
    case SendResult(w) =>
      if !s.resultsClosed && Pc(s, w).Sending? then DeliveredJob(Pc(s, w).job, Pc(s, w).result) else Nothing
    case _ => Nothing
  }

  predicate Booked(b: Booking, s: State, t: State) {
    match b
    case Nothing => t.fates == s.fates && t.processed == s.processed && t.summary == s.summary
    case HandedOut(w) => t.fates == s.fates + [Held(w)] && t.processed == s.processed && t.summary == s.summary
    case DroppedJob(job) =>
      && job < |s.fates| && s.fates[job].Held?
      && t.fates == s.fates[job := Dropped] && t.processed == s.processed && t.summary == s.summary
    case DeliveredJob(job, result) =>
      && job < |s.fates| && s.fates[job].Held?
      && t.fates == s.fates[job := Delivered(result)]
      && t.processed == s.processed + 1 && t.summary == Plus(s.summary, result)
  }

  // What it means for the job in the hands of the worker that moves.
  predicate Hands(b: Booking, next: nat, pc: Worker, pc': Worker) {
    match b
    case Nothing => Busy(pc) == Busy(pc') && (Busy(pc) ==> pc.job == pc'.job)
    case HandedOut(_) => !Busy(pc) && pc' == Received(next)
    case DroppedJob(job) => pc == Received(job) && !Busy(pc')
    case DeliveredJob(job, result) => pc == Sending(job, result) && !Busy(pc')
  }

  // A step as far as custody is concerned.
  ghost predicate Passes(s: State, step: Step, t: State) {
    var b := BookingOf(s, step);
    && (s.cancelled ==> t.cancelled) && (b.DroppedJob? ==> s.cancelled)
    && t.next == (if b.HandedOut? then s.next + 1 else s.next)
    && if HasWorker(step) then
         && step.w < |s.workers| && t.workers == s.workers[step.w := Pc(t, step.w)]
         && Hands(b, s.next, Pc(s, step.w), Pc(t, step.w)) && (b.HandedOut? ==> b.w == step.w)
       else
         t.workers == s.workers && b.Nothing?
  }

  lemma StepHands(cfg: Config, s: State, step: Step)
    requires Enabled(cfg, s, step) && !Do(cfg, s, step).panicked && HasWorker(step)
    ensures Hands(BookingOf(s, step), s.next, Pc(s, step.w), Pc(Do(cfg, s, step), step.w))
  {
  }

  lemma StepPasses(cfg: Config, s: State, step: Step)
    requires Enabled(cfg, s, step) && !Do(cfg, s, step).panicked
    ensures Passes(s, step, Do(cfg, s, step))
  {
    OneWorkerMoves(cfg, s, step);
    if HasWorker(step) {
      StepHands(cfg, s, step);
    }
    var t := Do(cfg, s, step);
    assert t.next == if BookingOf(s, step).HandedOut? then s.next + 1 else s.next;
  }

  lemma StepIsBooked(cfg: Config, s: State, step: Step)
    requires Enabled(cfg, s, step)
    requires HasWorker(step) ==> WorkerCustody(s, step.w)
    ensures Booked(BookingOf(s, step), s, Do(cfg, s, step))
  {
  }

  lemma WorkerCustodyKept(s: State, step: Step, t: State, w: nat)
    requires Passes(s, step, t) && Booked(BookingOf(s, step), s, t) && |s.fates| == s.next
    requires WorkerCustody(s, w) && (HasWorker(step) ==> WorkerCustody(s, step.w))
    ensures WorkerCustody(t, w)
  {
  }

  lemma FateCustodyKept(s: State, step: Step, t: State, i: nat)
    requires Passes(s, step, t) && Booked(BookingOf(s, step), s, t) && |s.fates| == s.next
    requires FateCustody(s, i) && (HasWorker(step) ==> WorkerCustody(s, step.w))
    ensures FateCustody(t, i)
  {
  }

  lemma CustodyKept(cfg: Config, s: State, step: Step)
    requires Custody(cfg, s) && Enabled(cfg, s, step) && !Do(cfg, s, step).panicked
    ensures Custody(cfg, Do(cfg, s, step))
  {
    var t := Do(cfg, s, step);
    assert HasWorker(step) ==> WorkerCustody(s, step.w);
    StepPasses(cfg, s, step);
    StepIsBooked(cfg, s, step);
    forall w: nat
      ensures WorkerCustody(t, w)
    {
      assert WorkerCustody(s, w);
      WorkerCustodyKept(s, step, t, w);
    }
    forall i: nat
      ensures FateCustody(t, i)
    {
      assert FateCustody(s, i);
      FateCustodyKept(s, step, t, i);
    }
  }

  // A worker that has not started its job has not called run on it.
  lemma FreshJob(cfg: Config, s: State, w: nat)
    requires Custody(cfg, s) && Calls(cfg, s) && Pc(s, w).Received?
    ensures s.workers[w].job !in s.runs
  {
    assert WorkerCustody(s, w) && !Ran(cfg, s, s.workers[w].job);
  }

  lemma RanKept(cfg: Config, s: State, step: Step, job: nat)
    requires Flags(cfg, s) && |s.fates| == s.next && Enabled(cfg, s, step) && FateCustody(s, job)
    requires HasWorker(step) ==> WorkerCustody(s, step.w) && RunsRunnable(cfg, s, step.w)
    requires job in s.runs <==> Ran(cfg, s, job)
    ensures job in Do(cfg, s, step).runs <==> Ran(cfg, Do(cfg, s, step), job)
  {
  }

  lemma CallsKept(cfg: Config, s: State, step: Step)
    requires Flags(cfg, s) && Custody(cfg, s) && Calls(cfg, s) && Enabled(cfg, s, step)
    ensures Calls(cfg, Do(cfg, s, step))
  {
    var t := Do(cfg, s, step);
    assert HasWorker(step) ==> WorkerCustody(s, step.w) && RunsRunnable(cfg, s, step.w);
    forall job: nat
      ensures job in t.runs <==> Ran(cfg, t, job)
    {
      assert FateCustody(s, job);
      RanKept(cfg, s, step, job);
    }
    if step.WorkerStarts? {
      FreshJob(cfg, s, step.w);
    }
    OneWorkerMoves(cfg, s, step);
    forall w: nat
      ensures RunsRunnable(cfg, t, w)
    {
      assert RunsRunnable(cfg, s, w);
    }
  }

  lemma ResultsKept(cfg: Config, s: State, step: Step)
    requires Flags(cfg, s) && Custody(cfg, s) && Calls(cfg, s) && Results(cfg, s) && Enabled(cfg, s, step)
    ensures Results(cfg, Do(cfg, s, step))
  {
    var t := Do(cfg, s, step);
    if !t.cancelled {
      if HasWorker(step) {
        assert SendsExpected(cfg, s, step.w) && RunsRunnable(cfg, s, step.w) && WorkerCustody(s, step.w);
      }
      OneWorkerMoves(cfg, s, step);
      forall w: nat
        ensures SendsExpected(cfg, t, w)
      {
        assert SendsExpected(cfg, s, w);
      }
      forall i: nat
        ensures GotExpected(cfg, t, i)
      {
        assert GotExpected(cfg, s, i);
      }
    }
  }

  lemma HandedOutBalances(fates: seq<Fate>, processed: int, summary: Summary, w: nat)
    requires Balanced(fates, processed, summary)
    ensures Balanced(fates + [Held(w)], processed, summary)
  {
    SumAppend(fates, IsDelivered, DeliveredResult, Held(w));
    PlusZero(SumOf(fates, DeliveredResult));
  }

  lemma PlusZero(a: Summary)
    ensures Plus(a, ZERO) == a
  {
  }

  lemma DroppedBalances(fates: seq<Fate>, processed: int, summary: Summary, job: nat)
    requires Balanced(fates, processed, summary) && job < |fates| && fates[job].Held?
    ensures Balanced(fates[job := Dropped], processed, summary)
  {
    SumIntUpdate(fates, IsDelivered, job, Dropped);
    SumOfUpdate(fates, DeliveredResult, job, Dropped);
  }

  lemma DeliveredBalances(fates: seq<Fate>, processed: int, summary: Summary, job: nat, result: Summary)
    requires Balanced(fates, processed, summary) && job < |fates| && fates[job].Held?
    ensures Balanced(fates[job := Delivered(result)], processed + 1, Plus(summary, result))
  {
    SumIntUpdate(fates, IsDelivered, job, Delivered(result));
    SumOfUpdate(fates, DeliveredResult, job, Delivered(result));
  }

  lemma BookedKeepsTotals(b: Booking, s: State, t: State)
    requires Totals(s) && Booked(b, s, t)
    ensures Totals(t)
  {
    match b
    case Nothing =>
    case HandedOut(w) => HandedOutBalances(s.fates, s.processed, s.summary, w);
    case DroppedJob(job) => DroppedBalances(s.fates, s.processed, s.summary, job);
    case DeliveredJob(job, result) => DeliveredBalances(s.fates, s.processed, s.summary, job, result);
  }

  lemma ProgressKept(cfg: Config, s: State, step: Step)
    requires Progress(s) && Enabled(cfg, s, step)
    ensures Progress(Do(cfg, s, step))
  {
    var t := Do(cfg, s, step);
    assert t.reports == if step.Report? && !s.cancelled then s.reports + [s.processed] else s.reports;
    assert t.processed == if step.SendResult? && !s.resultsClosed then s.processed + 1 else s.processed;
  }

  lemma Initially(cfg: Config)
    ensures Inv(cfg, Start(cfg))
  {
    var s := Start(cfg);
    AllLive(s.workers);
  }

  lemma {:induction false} AllLive(workers: seq<Worker>)
    requires forall w :: 0 <= w < |workers| ==> !workers[w].Exited?
    ensures SumInt(workers, Live) == |workers|
  {
    SumIntBounds(workers, Live, 1, 1);
  }

  lemma StepKeepsInv(cfg: Config, s: State, step: Step)
    requires Inv(cfg, s) && Enabled(cfg, s, step)
    ensures Inv(cfg, Do(cfg, s, step))
  {
    LiveWorker(s.workers);
    ControlKept(cfg, s, step);
    SumChanges(cfg, s, step, Live);
    CustodyKept(cfg, s, step);
    CallsKept(cfg, s, step);
    if HasWorker(step) {
      assert WorkerCustody(s, step.w);
    }
    StepIsBooked(cfg, s, step);
    BookedKeepsTotals(BookingOf(s, step), s, Do(cfg, s, step));
    ResultsKept(cfg, s, step);
    ProgressKept(cfg, s, step);
  }

  lemma {:induction false} RunKeepsInv(cfg: Config, steps: seq<Step>)
    requires After(cfg, steps).Some?
    ensures Inv(cfg, After(cfg, steps).value)
  {
    if |steps| == 0 {
      Initially(cfg);
    } else {
      var last := |steps| - 1;
      RunKeepsInv(cfg, steps[..last]);
      StepKeepsInv(cfg, After(cfg, steps[..last]).value, steps[last]);
    }
  }

  // n is the largest number up to total and 32 that is at most 1 or at most the concurrency asked for.
  predicate IsWorkerCount(n: int, total: int, concurrency: int) {
    && n <= total && n <= 32 && (n <= 1 || n <= concurrency)
    && (n == total || n == 32 || (n >= 1 && n >= concurrency))
  }

  // How many calls of run have returned.
  function Returns(steps: seq<Step>): nat {
    if |steps| == 0 then 0
    else Returns(steps[..|steps| - 1]) + if steps[|steps| - 1].RunReturns? then 1 else 0
  }

  // The calls of run that have not returned are those workers are in.
  lemma {:induction false} OpenRuns(cfg: Config, steps: seq<Step>)
    requires After(cfg, steps).Some?
    ensures |After(cfg, steps).value.runs| == Returns(steps) + SumInt(After(cfg, steps).value.workers, InRun)
  {
    if |steps| == 0 {
      SumIntBounds(Start(cfg).workers, InRun, 0, 0);
    } else {
      var last := |steps| - 1;
      OpenRuns(cfg, steps[..last]);
      OpenRunsNext(cfg, After(cfg, steps[..last]).value, steps[last]);
    }
  }

  lemma OpenRunsNext(cfg: Config, s: State, step: Step)
    requires Enabled(cfg, s, step)
    ensures var t := Do(cfg, s, step);
      |t.runs| - SumInt(t.workers, InRun) == |s.runs| - SumInt(s.workers, InRun) + if step.RunReturns? then 1 else 0
  {
    SumChanges(cfg, s, step, InRun);
  }

  // Safety, in every interleaving and with cancellation at any point: no send on a closed channel and
  // no negative wait group; as many workers as asked for, but at least one, at most 32 and no more than there are
  // channels, and no more runs at a time; progress is reported as 0, 1, 2, ...; run is called at most once per
  // channel, and never on a nil or manually disabled one; every counter of the summary adds up exactly the
  // delivered results, one per processed channel.
  lemma PoolIsSafe(cfg: Config, steps: seq<Step>)
    requires After(cfg, steps).Some?
    ensures var s := After(cfg, steps).value;
      && !s.panicked
      && 0 <= s.waitGroup
      && (s.waitGroup == 0 <==> forall w :: 0 <= w < |s.workers| ==> s.workers[w].Exited?)
      && 0 <= |s.runs| - Returns(steps) <= |s.workers|
      && IsWorkerCount(|s.workers|, |cfg.channels|, cfg.concurrency)
      && (forall i :: 0 <= i < |s.reports| ==> s.reports[i] == i)
      && 1 <= |s.reports| <= s.processed + 1 <= |cfg.channels| + 1
      && (forall i, j :: 0 <= i < j < |s.runs| ==> s.runs[i] != s.runs[j])
      && (forall job :: job in s.runs ==>
            job < |cfg.channels| && cfg.channels[job].Channel? && cfg.channels[job].status != MANUALLY_DISABLED)
      && s.processed == SumInt(s.fates, IsDelivered)
      && Adds(s.summary, s.fates, DeliveredResult)
  {
    RunKeepsInv(cfg, steps);
    var s := After(cfg, steps).value;
    LiveWorker(s.workers);
    OpenRuns(cfg, steps);
    SumIntBounds(s.workers, InRun, 0, 1);
    SumIntBounds(s.fates, IsDelivered, 0, 1);
    SumOfAdds(s.fates, DeliveredResult);
  }

  function Indices(n: nat): seq<nat> {
    seq(n, i => i)
  }

  // The result of channel i: what run returns, or nothing for a channel that is not run.
  function ResultOf(cfg: Config): nat -> Summary {
    (i: nat) =>
      if i < |cfg.channels| && cfg.channels[i].Channel? && cfg.channels[i].status != MANUALLY_DISABLED
      then cfg.outcome(i) else ZERO
  }

  lemma {:induction false} AllDelivered(cfg: Config, fates: seq<Fate>)
    requires forall i :: 0 <= i < |fates| ==> fates[i] == Delivered(Expected(cfg, i))
    ensures SumInt(fates, IsDelivered) == |fates|
    ensures SumOf(fates, DeliveredResult) == SumOf(Indices(|fates|), ResultOf(cfg))
  {
    if |fates| > 0 {
      var n := |fates| - 1;
      AllDelivered(cfg, fates[..n]);
      assert Indices(|fates|)[..n] == Indices(n);
    }
  }

  // Completeness, in every interleaving that is never cancelled: when the caller returns, run has been
  // called exactly once on every runnable channel, every channel has been counted and reported, and the
  // summary holds the sums of the per-channel results.
  lemma PoolCompletes(cfg: Config, steps: seq<Step>)
    requires After(cfg, steps).Some? && After(cfg, steps).value.reducer.Returned?
    requires !After(cfg, steps).value.cancelled
    ensures var s := After(cfg, steps).value;
      && |s.fates| == |cfg.channels| && (forall i :: 0 <= i < |s.fates| ==> s.fates[i].Delivered?)
      && s.processed == |cfg.channels|
      && Adds(s.summary, Indices(|cfg.channels|), ResultOf(cfg))
      && (forall i, j :: 0 <= i < j < |s.runs| ==> s.runs[i] != s.runs[j])
      && (forall job: nat :: job in s.runs <==>
            job < |cfg.channels| && cfg.channels[job].Channel? && cfg.channels[job].status != MANUALLY_DISABLED)
      && |s.reports| == |cfg.channels| + 1
      && (forall i :: 0 <= i < |s.reports| ==> s.reports[i] == i)
  {
    RunKeepsInv(cfg, steps);
    var s := After(cfg, steps).value;
    forall i | 0 <= i < |s.fates|
      ensures s.fates[i] == Delivered(Expected(cfg, i))
    {
      assert FateCustody(s, i) && GotExpected(cfg, s, i);
      assert ExitOk(s, if s.fates[i].Held? then s.fates[i].worker else 0);
    }
    AllDelivered(cfg, s.fates);
    SumOfAdds(Indices(|cfg.channels|), ResultOf(cfg));
    assert ExitOk(s, 0);
  }

  // What run has returned in a step.
  function ReturnedBy(step: Step): Summary {
    if step.RunReturns? then step.result else ZERO
  }

  function AddReturned(sum: Summary, step: Step): Summary {
    Plus(sum, ReturnedBy(step))
  }

  // Reduced so far plus still to be sent.
  function Accounted(s: State): Summary {
    Plus(s.summary, SumOf(s.workers, Pending))
  }

  lemma PendingChanges(cfg: Config, s: State, step: Step)
    requires Enabled(cfg, s, step)
    ensures var t := Do(cfg, s, step);
      if HasWorker(step) then
        Plus(SumOf(t.workers, Pending), Pending(Pc(s, step.w))) ==
        Plus(SumOf(s.workers, Pending), Pending(Pc(t, step.w)))
      else
        SumOf(t.workers, Pending) == SumOf(s.workers, Pending)
  {
    OneWorkerMoves(cfg, s, step);
    if HasWorker(step) {
      SumOfUpdate(s.workers, Pending, step.w, Do(cfg, s, step).workers[step.w]);
    }
  }

  // With `before` and `after` the sums of what workers have pending.
  lemma StepAccounts(cfg: Config, s: State, step: Step, before: Summary, after: Summary)
    requires Enabled(cfg, s, step)
    requires if HasWorker(step) then
               Plus(after, Pending(Pc(s, step.w))) == Plus(before, Pending(Pc(Do(cfg, s, step), step.w)))
             else after == before
    ensures Plus(Do(cfg, s, step).summary, after) == AddReturned(Plus(s.summary, before), step)
  {
  }

  lemma AccountedStep(cfg: Config, s: State, step: Step)
    requires Enabled(cfg, s, step)
    ensures Accounted(Do(cfg, s, step)) == AddReturned(Accounted(s), step)
  {
    PendingChanges(cfg, s, step);
    StepAccounts(cfg, s, step, SumOf(s.workers, Pending), SumOf(Do(cfg, s, step).workers, Pending));
  }

  lemma AccountedAtStart(s: State)
    requires s.summary == ZERO && forall w :: 0 <= w < |s.workers| ==> s.workers[w].Waiting?
    ensures Accounted(s) == ZERO
  {
    NonePending(s.workers);
  }

  lemma {:induction false} ReturnedIsAccounted(cfg: Config, steps: seq<Step>)
    requires After(cfg, steps).Some?
    ensures SumOf(steps, ReturnedBy) == Accounted(After(cfg, steps).value)
  {
    if |steps| == 0 {
      AccountedAtStart(Start(cfg));
    } else {
      var last := |steps| - 1;
      ReturnedIsAccounted(cfg, steps[..last]);
      AccountedStep(cfg, After(cfg, steps[..last]).value, steps[last]);
    }
  }

  // No result is lost, cancelled or not: what run has returned so far is, counter by counter, what the summary
  // holds plus what workers are still trying to send.
  lemma NothingLost(cfg: Config, steps: seq<Step>) returns (unsent: Summary)
    requires After(cfg, steps).Some?
    ensures Adds(unsent, After(cfg, steps).value.workers, Pending)
    ensures var sum := After(cfg, steps).value.summary;
      Adds(Summary(sum.tested + unsent.tested, sum.succeeded + unsent.succeeded, sum.failed + unsent.failed,
                   sum.disabled + unsent.disabled, sum.enabled + unsent.enabled),
           steps, ReturnedBy)
  {
    ReturnedIsAccounted(cfg, steps);
    var workers := After(cfg, steps).value.workers;
    SumOfAdds(steps, ReturnedBy);
    SumOfAdds(workers, Pending);
    unsent := SumOf(workers, Pending);
  }

  lemma {:induction false} NonePending(workers: seq<Worker>)
    requires forall w :: 0 <= w < |workers| ==> !workers[w].Sending?
    ensures SumOf(workers, Pending) == ZERO
  {
    if |workers| > 0 {
      NonePending(workers[..|workers| - 1]);
      assert SumOf(workers[..|workers| - 1], Pending) == ZERO;
    }
  }

  lemma NothingPendingAtEnd(cfg: Config, steps: seq<Step>)
    requires After(cfg, steps).Some? && After(cfg, steps).value.reducer.Returned?
    ensures SumOf(After(cfg, steps).value.workers, Pending) == ZERO
  {
    RunKeepsInv(cfg, steps);
    var s := After(cfg, steps).value;
    forall w: nat | w < |s.workers|
      ensures !s.workers[w].Sending?
    {
      assert ExitOk(s, w);
    }
    NonePending(s.workers);
  }

  // When the caller returns, cancelled or not, every counter adds up what run has returned.
  lemma ReturnedResultsAreReduced(cfg: Config, steps: seq<Step>)
    requires After(cfg, steps).Some? && After(cfg, steps).value.reducer.Returned?
    ensures Adds(After(cfg, steps).value.summary, steps, ReturnedBy)
  {
    ReturnedIsAccounted(cfg, steps);
    NothingPendingAtEnd(cfg, steps);
    PlusZero(After(cfg, steps).value.summary);
    SumOfAdds(steps, ReturnedBy);
  }

  lemma CancelledStep(cfg: Config, s: State, step: Step)
    requires Enabled(cfg, s, step) && s.cancelled
    ensures var t := Do(cfg, s, step);
      t.cancelled && t.runs == s.runs && t.reports == s.reports
  {
  }

  // Once the context is cancelled, run is not called again and nothing is reported any more.
  lemma {:induction false} NothingStartsAfterCancel(cfg: Config, steps: seq<Step>, n: nat)
    requires n <= |steps| && After(cfg, steps).Some? && After(cfg, steps[..n]).Some?
    requires After(cfg, steps[..n]).value.cancelled
    ensures var before, s := After(cfg, steps[..n]).value, After(cfg, steps).value;
      s.cancelled && s.runs == before.runs && s.reports == before.reports
    decreases |steps|
  {
    if n == |steps| {
      assert steps[..n] == steps;
    } else {
      var last := |steps| - 1;
      assert steps[..last][..n] == steps[..n];
      NothingStartsAfterCancel(cfg, steps[..last], n);
      CancelledStep(cfg, After(cfg, steps[..last]).value, steps[last]);
    }
  }

  // How often a worker has sent a result, and how often it has then waited for the request interval.

  function Sends(steps: seq<Step>, w: nat): nat {
    if |steps| == 0 then 0
    else Sends(steps[..|steps| - 1], w) + if steps[|steps| - 1] == SendResult(w) then 1 else 0
  }

  function Pauses(steps: seq<Step>, w: nat): nat {
    if |steps| == 0 then 0
    else
      var last := steps[|steps| - 1];
      Pauses(steps[..|steps| - 1], w) + if last == PauseEnds(w) || last == PauseCancelled(w) then 1 else 0
  }

  // A worker waits for the request interval after every result, if there is one, and never otherwise.
  lemma {:induction false} PausesAfterResults(cfg: Config, steps: seq<Step>, w: nat)
    requires After(cfg, steps).Some?
    ensures var pausing := if Pc(After(cfg, steps).value, w).Pausing? then 1 else 0;
      Pauses(steps, w) + pausing == if cfg.pauses then Sends(steps, w) else 0
  {
    if |steps| > 0 {
      var last := |steps| - 1;
      PausesAfterResults(cfg, steps[..last], w);
      RunKeepsInv(cfg, steps);
      OneWorkerMoves(cfg, After(cfg, steps[..last]).value, steps[last]);
    }
  }

  // Liveness: some goroutine can always move until all of them are done, and every step uses up some of
  // a finite measure, so every maximal run ends with the caller returned and no goroutine left.
  lemma PoolNeverDeadlocks(cfg: Config, steps: seq<Step>) returns (step: Step)
    requires After(cfg, steps).Some? && !Final(After(cfg, steps).value)
    ensures !step.Cancel? && Enabled(cfg, After(cfg, steps).value, step)
  {
    RunKeepsInv(cfg, steps);
    step := NextStep(cfg, After(cfg, steps).value);
  }

  lemma NextStep(cfg: Config, s: State) returns (step: Step)
    requires Control(cfg, s) && Counted(s) && !Final(s)
    ensures !step.Cancel? && Enabled(cfg, s, step)
  {
    LiveWorker(s.workers);
    if s.reducer.Reporting? {
      return Report;
    }
    if w: nat :| w < |s.workers| && !s.workers[w].Exited? {
      assert ExitOk(s, w);
      return WorkerStep(cfg, s, w);
    }
    if s.feeding {
      if s.next == |cfg.channels| { return FeederDone; }
      assert ExitOk(s, 0);
      return FeederCancelled;
    }
    if !s.resultsClosed { return CloseResults; }
    return ReducerReturns;
  }

  function WorkerStep(cfg: Config, s: State, w: nat): (step: Step)
    requires Flags(cfg, s) && !s.reducer.Reporting? && !s.resultsClosed
    requires w < |s.workers| && !s.workers[w].Exited?
    ensures !step.Cancel? && Enabled(cfg, s, step)
  {
    match s.workers[w]
    case Waiting =>
      if s.jobsClosed then WorkerSeesClosed(w) else if s.next < |cfg.channels| then Handoff(w) else FeederDone
    case Received(_) => WorkerStarts(w)
    case Running(job) => RunReturns(w, cfg.outcome(job))
    case Sending(_, _) => SendResult(w)
    case Pausing => PauseEnds(w)
  }

  function Weight(pc: Worker): int {
    match pc
    case Received(_) => 6
    case Running(_) => 5
    case Sending(_, _) => 4
    case Pausing => 2
    case Waiting => 1
    case Exited => 0
  }

  // `weight` is the sum of the workers' weights.
  function Rank(cfg: Config, s: State, weight: int): int {
    6 * (|cfg.channels| - s.next) + weight
    + (if s.feeding then 1 else 0) + (if s.cancelled then 0 else 1) + (if s.resultsClosed then 0 else 1)
    + (match s.reducer case Receiving => 1 case Reporting => 2 case Returned => 0)
  }

  function Measure(cfg: Config, s: State): int {
    Rank(cfg, s, SumInt(s.workers, Weight))
  }

  lemma StepDecreasesRank(cfg: Config, s: State, step: Step, weight: int)
    requires Enabled(cfg, s, step) && !Do(cfg, s, step).panicked
    ensures Rank(cfg, Do(cfg, s, step), weight + Change(s, step, Do(cfg, s, step), Weight)) < Rank(cfg, s, weight)
  {
  }

  lemma MeasureIsNatural(cfg: Config, s: State)
    requires Control(cfg, s)
    ensures 0 <= Measure(cfg, s)
  {
    SumIntBounds(s.workers, Weight, 0, 6);
  }

  lemma {:induction false} PoolDrains(cfg: Config, steps: seq<Step>)
    requires After(cfg, steps).Some?
    ensures |steps| + Measure(cfg, After(cfg, steps).value) <= 6 * |cfg.channels| + WorkerCount(cfg) + 4
    ensures 0 <= Measure(cfg, After(cfg, steps).value)
  {
    RunKeepsInv(cfg, steps);
    MeasureIsNatural(cfg, After(cfg, steps).value);
    if |steps| == 0 {
      SumIntBounds(Start(cfg).workers, Weight, 1, 1);
    } else {
      var last := |steps| - 1;
      PoolDrains(cfg, steps[..last]);
      var s := After(cfg, steps[..last]).value;
      SumChanges(cfg, s, steps[last], Weight);
      StepDecreasesRank(cfg, s, steps[last], SumInt(s.workers, Weight));
    }
  }
}
