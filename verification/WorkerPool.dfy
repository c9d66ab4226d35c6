/** The channel-test worker pool: a feeder, a fixed set of workers, a closer and a
    reducer joined by two unbuffered channels, with cancellation at any moment. One
    `Step` is one atomic action of one goroutine; a rendezvous is a joint step. Every
    interleaving and every cancellation point is some sequence of steps. */
module WorkerPool {

  datatype Summary = Summary(tested: int, succeeded: int, failed: int, disabled: int, enabled: int)

  const ZERO := Summary(0, 0, 0, 0, 0)

  function Add(a: Summary, b: Summary): Summary {
    Summary(a.tested + b.tested, a.succeeded + b.succeeded, a.failed + b.failed,
            a.disabled + b.disabled, a.enabled + b.enabled)
  }

  /** f(0) + ... + f(n - 1). */
  function Plus(n: nat, f: nat -> int): int { if n == 0 then 0 else Plus(n - 1, f) + f(n - 1) }

  function TestedBy(rows: nat -> Summary): nat -> int { (i: nat) => rows(i).tested }

  function SucceededBy(rows: nat -> Summary): nat -> int { (i: nat) => rows(i).succeeded }

  function FailedBy(rows: nat -> Summary): nat -> int { (i: nat) => rows(i).failed }

  function DisabledBy(rows: nat -> Summary): nat -> int { (i: nat) => rows(i).disabled }

  function EnabledBy(rows: nat -> Summary): nat -> int { (i: nat) => rows(i).enabled }

  /** Each of the five counts is the plain sum of that count over the first n rows. */
  ghost predicate CountsOf(total: Summary, n: nat, rows: nat -> Summary) {
    && total.tested == Plus(n, TestedBy(rows)) && total.succeeded == Plus(n, SucceededBy(rows))
    && total.failed == Plus(n, FailedBy(rows)) && total.disabled == Plus(n, DisabledBy(rows))
    && total.enabled == Plus(n, EnabledBy(rows))
  }

  lemma CountsOfMore(total: Summary, n: nat, rows: nat -> Summary)
    requires CountsOf(total, n, rows)
    ensures CountsOf(Add(total, rows(n)), n + 1, rows)
  {
  }

  lemma {:induction false} PlusAgrees(n: nat, f: nat -> int, g: nat -> int)
    requires forall i: nat | i < n :: f(i) == g(i)
    ensures Plus(n, f) == Plus(n, g)
  {
    if n > 0 { PlusAgrees(n - 1, f, g); }
  }

  lemma CountsAgree(total: Summary, n: nat, rows: nat -> Summary, rows': nat -> Summary)
    requires CountsOf(total, n, rows) && forall i: nat | i < n :: rows(i) == rows'(i)
    ensures CountsOf(total, n, rows')
  {
    PlusAgrees(n, TestedBy(rows), TestedBy(rows'));
    PlusAgrees(n, SucceededBy(rows), SucceededBy(rows'));
    PlusAgrees(n, FailedBy(rows), FailedBy(rows'));
    PlusAgrees(n, DisabledBy(rows), DisabledBy(rows'));
    PlusAgrees(n, EnabledBy(rows), EnabledBy(rows'));
  }

  const STATUS_ENABLED := 1
  const STATUS_MANUALLY_DISABLED := 2

  /** An entry of the channel list, which may hold nil pointers. */
  datatype Job = NilChannel | Channel(status: int)

  /** `run(i, c)` is what testing the i-th channel returns when the context is cancelled
      (c) or not (!c) at that time; `pause` says whether a request interval is set. */
  datatype Config = Config(jobs: seq<Job>, concurrency: int, pause: bool, run: (nat, bool) -> Summary)

  function NormalizeConcurrency(concurrency: int): int {
    if concurrency < 1 then 1 else if concurrency > 32 then 32 else concurrency
  }

  function WorkerCount(cfg: Config): nat {
    var n := NormalizeConcurrency(cfg.concurrency);
    if n < |cfg.jobs| then n else |cfg.jobs|
  }

  predicate Runnable(job: Job) {
    job.Channel? && job.status != STATUS_MANUALLY_DISABLED
  }

  function Outcome(cfg: Config, i: nat, cancelled: bool): Summary
    requires i < |cfg.jobs|
  {
    if Runnable(cfg.jobs[i]) then cfg.run(i, cancelled) else ZERO
  }

  datatype Phase =
    | Idle                                   // in the select on ctx.Done and jobs
    | Got(job: nat)                          // received, context not yet checked
    | Running(job: nat)                      // inside run
    | Sending(job: nat, result: Summary)     // blocked on results <-
    | Pausing                                // waiting out the request interval
    | Exited

  datatype Reducer = Receiving | Reporting | Returned

  datatype Entry = Entry(job: nat, result: Summary)

  /** Where a job is. An auxiliary record: no step's guard reads it. */
  datatype Place = Undelivered | AtWorker(w: nat) | Reduced(k: nat) | Dropped

  datatype State = State(
    next: nat,                 // jobs[next] is the feeder's next send
    jobsClosed: bool,          // the feeder has returned and closed jobs
    workers: seq<Phase>,
    resultsClosed: bool,
    reducer: Reducer,
    total: Summary,
    reports: seq<nat>,         // the processed counts reported so far
    cancelled: bool,
    reduced: seq<Entry>,       // everything the reducer received, in order
    place: seq<Place>,         // per job
    calls: seq<nat>)           // per job: how often run was called

  function Init(cfg: Config): State {
    var n := |cfg.jobs|;
    var place := seq(n, _ => Undelivered);
    var calls := seq(n, _ => 0);
    if n == 0 then State(0, true, [], true, Returned, ZERO, [0], false, [], place, calls)
    else State(0, false, seq(WorkerCount(cfg), _ => Idle), false, Receiving, ZERO, [0], false, [], place, calls)
  }

  datatype Step =
    | Cancel            // the context is cancelled
    | Deliver(w: nat)   // jobs <- channel meets worker w's receive
    | CloseJobs         // the feeder returns: list exhausted or context done
    | Leave(w: nat)     // worker w returns
    | Start(w: nat)     // worker w passes the ctx.Err check
    | Finish(w: nat)    // run returns
    | Receive(w: nat)   // results <- result meets the reducer's receive
    | Resume(w: nat)    // the request interval elapses
    | CloseResults      // workers.Wait returns; results is closed
    | Report            // the reducer reports progress unless cancelled
    | Return            // the reducer sees results closed

  predicate Worker(s: State, w: nat) { w < |s.workers| }

  predicate Enabled(cfg: Config, s: State, step: Step) {
    match step
    case Cancel => !s.cancelled
    case Deliver(w) => !s.jobsClosed && s.next < |cfg.jobs| && Worker(s, w) && s.workers[w].Idle?
    case CloseJobs => !s.jobsClosed && (s.next >= |cfg.jobs| || s.cancelled)
    case Leave(w) => Worker(s, w) &&
      (match s.workers[w]
       case Idle => s.cancelled || s.jobsClosed
       case Got(_) => s.cancelled
       case Pausing => s.cancelled
       case _ => false)
    case Start(w) => Worker(s, w) && s.workers[w].Got? && !s.cancelled
    case Finish(w) => Worker(s, w) && s.workers[w].Running?
    case Receive(w) => Worker(s, w) && s.workers[w].Sending? && s.reducer.Receiving?
    case Resume(w) => Worker(s, w) && s.workers[w].Pausing?
    case CloseResults => !s.resultsClosed && forall w | 0 <= w < |s.workers| :: s.workers[w].Exited?
    case Report => s.reducer.Reporting?
    case Return => s.reducer.Receiving? && s.resultsClosed
  }

  function SetPhase(s: State, w: nat, p: Phase): State
    requires Worker(s, w)
  {
    s.(workers := s.workers[w := p])
  }

  predicate Holds(p: Phase) { p.Got? || p.Running? || p.Sending? }

  /** The record tables fit the job list, so every step is defined. */
  predicate Fits(cfg: Config, s: State) {
    && |s.place| == |s.calls| == |cfg.jobs|
    && forall w | 0 <= w < |s.workers| && Holds(s.workers[w]) :: s.workers[w].job < |cfg.jobs|
  }

  function Apply(cfg: Config, s: State, step: Step): State
    requires Fits(cfg, s) && Enabled(cfg, s, step)
  {
    match step
    case Cancel => s.(cancelled := true)
    case Deliver(w) => SetPhase(s, w, Got(s.next)).(next := s.next + 1, place := s.place[s.next := AtWorker(w)])
    case CloseJobs => s.(jobsClosed := true)
    case Leave(w) =>
      var s' := SetPhase(s, w, Exited);
      if s.workers[w].Got? then s'.(place := s.place[s.workers[w].job := Dropped]) else s'
    case Start(w) =>
      var i := s.workers[w].job;
      if Runnable(cfg.jobs[i])
      then SetPhase(s, w, Running(i)).(calls := s.calls[i := s.calls[i] + 1])
      else SetPhase(s, w, Sending(i, ZERO))
    case Finish(w) =>
      var i := s.workers[w].job;
      SetPhase(s, w, Sending(i, cfg.run(i, s.cancelled)))
    case Receive(w) =>
      var p := s.workers[w];
      SetPhase(s, w, if cfg.pause then Pausing else Idle).(
        reducer := Reporting,
        total := Add(s.total, p.result),
        reduced := s.reduced + [Entry(p.job, p.result)],
        place := s.place[p.job := Reduced(|s.reduced|)])
    case Resume(w) => SetPhase(s, w, Idle)
    case CloseResults => s.(resultsClosed := true)
    case Report =>
      s.(reducer := Receiving, reports := if s.cancelled then s.reports else s.reports + [|s.reduced|])
    case Return => s.(reducer := Returned)
  }

  // ----- The invariant, in parts -----

  function Sum(es: seq<Entry>): Summary {
    if es == [] then ZERO else Add(Sum(es[..|es| - 1]), es[|es| - 1].result)
  }

  ghost predicate Genuine(cfg: Config, s: State, i: nat, r: Summary)
    requires i < |cfg.jobs|
  {
    r == Outcome(cfg, i, false) || (s.cancelled && r == Outcome(cfg, i, true))
  }

  /** Jobs and their places correspond one to one. */
  ghost predicate Owned(cfg: Config, s: State) {
    && Fits(cfg, s)
    && s.next <= |cfg.jobs|
    && (forall w | 0 <= w < |s.workers| && Holds(s.workers[w]) :: s.place[s.workers[w].job] == AtWorker(w))
    && (forall k | 0 <= k < |s.reduced| :: s.reduced[k].job < |cfg.jobs| && s.place[s.reduced[k].job] == Reduced(k))
    && (forall i | 0 <= i < |s.place| :: match s.place[i]
          case Undelivered => i >= s.next
          case AtWorker(w) => i < s.next && Worker(s, w) && Holds(s.workers[w]) && s.workers[w].job == i
          case Reduced(k) => i < s.next && k < |s.reduced| && s.reduced[k].job == i
          case Dropped => i < s.next && s.cancelled)
  }

  ghost predicate Begun(s: State, i: nat)
    requires i < |s.place|
  {
    s.place[i].Reduced? || (s.place[i].AtWorker? && Worker(s, s.place[i].w) && !s.workers[s.place[i].w].Got?)
  }

  ghost predicate CalledOnce(cfg: Config, s: State)
    requires Owned(cfg, s)
  {
    forall i | 0 <= i < |s.calls| :: s.calls[i] == (if Runnable(cfg.jobs[i]) && Begun(s, i) then 1 else 0)
  }

  ghost predicate Tallied(cfg: Config, s: State)
    requires Owned(cfg, s)
  {
    && s.total == Sum(s.reduced)
    && (forall k | 0 <= k < |s.reduced| :: Genuine(cfg, s, s.reduced[k].job, s.reduced[k].result))
    && (forall w | 0 <= w < |s.workers| && s.workers[w].Sending? ::
          Genuine(cfg, s, s.workers[w].job, s.workers[w].result))
    && (forall w | 0 <= w < |s.workers| && s.workers[w].Running? :: Runnable(cfg.jobs[s.workers[w].job]))
  }

  ghost predicate Phased(cfg: Config, s: State) {
    && |s.workers| == WorkerCount(cfg)
    && (s.resultsClosed ==> forall w | 0 <= w < |s.workers| :: s.workers[w].Exited?)
    && (s.reducer.Returned? ==> s.resultsClosed)
    && (s.jobsClosed && !s.cancelled ==> s.next == |cfg.jobs|)
    && (!s.cancelled && !s.jobsClosed ==> forall w | 0 <= w < |s.workers| :: !s.workers[w].Exited?)
    && (!s.jobsClosed ==> |s.workers| > 0)
  }

  ghost predicate Reported(s: State) {
    && |s.reports| > 0
    && (forall k | 0 <= k < |s.reports| :: s.reports[k] == k)
    && |s.reports| <= |s.reduced| + (if s.reducer.Reporting? then 0 else 1)
    && (!s.cancelled ==> |s.reports| == |s.reduced| + (if s.reducer.Reporting? then 0 else 1))
  }

  ghost predicate Inv(cfg: Config, s: State) {
    Owned(cfg, s) && CalledOnce(cfg, s) && Tallied(cfg, s) && Phased(cfg, s) && Reported(s)
  }

  lemma InitInv(cfg: Config)
    ensures Inv(cfg, Init(cfg))
  {
  }

  /** A worker that keeps its job while changing phase keeps every place right. */
  lemma OwnedRephase(cfg: Config, s: State, w: nat, p: Phase)
    requires Owned(cfg, s) && Worker(s, w) && Holds(p) == Holds(s.workers[w])
    requires Holds(p) ==> p.job == s.workers[w].job
    ensures Owned(cfg, SetPhase(s, w, p))
  {
  }

  lemma OwnedDeliver(cfg: Config, s: State, w: nat)
    requires Owned(cfg, s) && Enabled(cfg, s, Deliver(w))
    ensures Owned(cfg, Apply(cfg, s, Deliver(w)))
  {
  }

  lemma OwnedDrop(cfg: Config, s: State, w: nat)
    requires Owned(cfg, s) && Enabled(cfg, s, Leave(w)) && s.workers[w].Got?
    ensures Owned(cfg, Apply(cfg, s, Leave(w)))
  {
  }

  lemma OwnedReceive(cfg: Config, s: State, w: nat)
    requires Owned(cfg, s) && Enabled(cfg, s, Receive(w))
    ensures Owned(cfg, Apply(cfg, s, Receive(w)))
  {
  }

  /** Places do not depend on the channel flags, the reducer, the totals or the call counts. */
  lemma OwnedFrame(cfg: Config, s: State, s': State)
    requires Owned(cfg, s) && |s'.calls| == |s.calls| && (s.cancelled ==> s'.cancelled)
    requires s'.next == s.next && s'.workers == s.workers && s'.reduced == s.reduced && s'.place == s.place
    ensures Owned(cfg, s')
  {
  }

  lemma OwnedStep(cfg: Config, s: State, step: Step)
    requires Owned(cfg, s) && Enabled(cfg, s, step)
    ensures Owned(cfg, Apply(cfg, s, step))
  {
    match step
    case Deliver(w) => OwnedDeliver(cfg, s, w);
    case Receive(w) => OwnedReceive(cfg, s, w);
    case Leave(w) => if s.workers[w].Got? { OwnedDrop(cfg, s, w); } else { OwnedRephase(cfg, s, w, Exited); }
    case Start(w) => OwnedWork(cfg, s, w, step);
    case Finish(w) => OwnedWork(cfg, s, w, step);
    case Resume(w) => OwnedRephase(cfg, s, w, Idle);
    case _ => OwnedFrame(cfg, s, Apply(cfg, s, step));
  }

  lemma OwnedWork(cfg: Config, s: State, w: nat, step: Step)
    requires Owned(cfg, s) && Enabled(cfg, s, step) && (step == Start(w) || step == Finish(w))
    ensures Owned(cfg, Apply(cfg, s, step))
  {
    var s' := Apply(cfg, s, step);
    OwnedRephase(cfg, s, w, s'.workers[w]);
    OwnedFrame(cfg, SetPhase(s, w, s'.workers[w]), s');
  }

  /** Only starting a test counts a call; the job that starts was not begun before. */
  lemma CalledOnceStart(cfg: Config, s: State, w: nat)
    requires Owned(cfg, s) && CalledOnce(cfg, s) && Enabled(cfg, s, Start(w))
    requires Owned(cfg, Apply(cfg, s, Start(w)))
    ensures CalledOnce(cfg, Apply(cfg, s, Start(w)))
  {
    var s' := Apply(cfg, s, Start(w));
    var job := s.workers[w].job;
    forall i | 0 <= i < |s'.calls|
      ensures s'.calls[i] == (if Runnable(cfg.jobs[i]) && Begun(s', i) then 1 else 0)
    {
      assert s.calls[i] == (if Runnable(cfg.jobs[i]) && Begun(s, i) then 1 else 0);
      if i != job { BegunOther(cfg, s, w, i); }
    }
  }

  lemma BegunOther(cfg: Config, s: State, w: nat, i: nat)
    requires Owned(cfg, s) && Enabled(cfg, s, Start(w)) && i < |cfg.jobs| && i != s.workers[w].job
    ensures |Apply(cfg, s, Start(w)).place| == |cfg.jobs| && Begun(Apply(cfg, s, Start(w)), i) == Begun(s, i)
  {
  }

  lemma BegunStep(cfg: Config, s: State, step: Step, i: nat)
    requires Owned(cfg, s) && Enabled(cfg, s, step) && !step.Start? && i < |cfg.jobs|
    ensures |Apply(cfg, s, step).place| == |cfg.jobs| && Begun(Apply(cfg, s, step), i) == Begun(s, i)
  {
  }

  lemma CalledOnceStep(cfg: Config, s: State, step: Step)
    requires Owned(cfg, s) && CalledOnce(cfg, s) && Enabled(cfg, s, step)
    requires Owned(cfg, Apply(cfg, s, step))
    ensures CalledOnce(cfg, Apply(cfg, s, step))
  {
    var s' := Apply(cfg, s, step);
    if step.Start? {
      CalledOnceStart(cfg, s, step.w);
    } else {
      assert s'.calls == s.calls;
      forall i | 0 <= i < |s'.calls|
        ensures s'.calls[i] == (if Runnable(cfg.jobs[i]) && Begun(s', i) then 1 else 0)
      {
        BegunStep(cfg, s, step, i);
        assert s.calls[i] == (if Runnable(cfg.jobs[i]) && Begun(s, i) then 1 else 0);
      }
    }
  }

  lemma ReducedStep(cfg: Config, s: State, step: Step)
    requires Owned(cfg, s) && Tallied(cfg, s) && Enabled(cfg, s, step)
    ensures var s' := Apply(cfg, s, step);
      && s'.total == Sum(s'.reduced)
      && forall k | 0 <= k < |s'.reduced| ::
           s'.reduced[k].job < |cfg.jobs| && Genuine(cfg, s', s'.reduced[k].job, s'.reduced[k].result)
  {
    var s' := Apply(cfg, s, step);
    if step.Receive? {
      assert s'.reduced[..|s'.reduced| - 1] == s.reduced;
    }
    forall k | 0 <= k < |s'.reduced|
      ensures s'.reduced[k].job < |cfg.jobs| && Genuine(cfg, s', s'.reduced[k].job, s'.reduced[k].result)
    {
      if k < |s.reduced| {
        assert s'.reduced[k] == s.reduced[k] && Genuine(cfg, s, s.reduced[k].job, s.reduced[k].result);
      }
    }
  }

  /** How a worker comes to be sending or running. */
  lemma PhaseStep(cfg: Config, s: State, step: Step, w: nat)
    requires Fits(cfg, s) && Enabled(cfg, s, step) && w < |s.workers|
    ensures var s' := Apply(cfg, s, step);
      && |s'.workers| == |s.workers| && (s.cancelled ==> s'.cancelled)
      && (s'.workers[w] == s.workers[w]
          || !(s'.workers[w].Sending? || s'.workers[w].Running?)
          || (step == Finish(w) && s'.workers[w] == Sending(s.workers[w].job, cfg.run(s.workers[w].job, s.cancelled)))
          || (step == Start(w) && s'.workers[w] ==
                var i := s.workers[w].job; if Runnable(cfg.jobs[i]) then Running(i) else Sending(i, ZERO)))
  {
  }

  lemma SendersStep(cfg: Config, s: State, step: Step, w: nat)
    requires Owned(cfg, s) && Tallied(cfg, s) && Enabled(cfg, s, step)
    requires w < |s.workers|
    ensures var s' := Apply(cfg, s, step);
      && |s'.workers| == |s.workers|
      && (s'.workers[w].Sending? ==>
            s'.workers[w].job < |cfg.jobs| && Genuine(cfg, s', s'.workers[w].job, s'.workers[w].result))
      && (s'.workers[w].Running? ==> s'.workers[w].job < |cfg.jobs| && Runnable(cfg.jobs[s'.workers[w].job]))
  {
    PhaseStep(cfg, s, step, w);
    var s' := Apply(cfg, s, step);
    if s'.workers[w] == s.workers[w] && s.workers[w].Sending? {
      assert Genuine(cfg, s, s.workers[w].job, s.workers[w].result);
    }
  }

  lemma TalliedStep(cfg: Config, s: State, step: Step)
    requires Owned(cfg, s) && Tallied(cfg, s) && Enabled(cfg, s, step)
    requires Owned(cfg, Apply(cfg, s, step))
    ensures Tallied(cfg, Apply(cfg, s, step))
  {
    ReducedStep(cfg, s, step);
    var s' := Apply(cfg, s, step);
    forall w | 0 <= w < |s'.workers|
      ensures s'.workers[w].Sending? ==> Genuine(cfg, s', s'.workers[w].job, s'.workers[w].result)
      ensures s'.workers[w].Running? ==> Runnable(cfg.jobs[s'.workers[w].job])
    {
      SendersStep(cfg, s, step, w);
    }
  }

  lemma PhasedStep(cfg: Config, s: State, step: Step)
    requires Inv(cfg, s) && Enabled(cfg, s, step)
    ensures Phased(cfg, Apply(cfg, s, step))
  {
  }

  lemma ReportedStep(cfg: Config, s: State, step: Step)
    requires Inv(cfg, s) && Enabled(cfg, s, step)
    ensures Reported(Apply(cfg, s, step))
  {
  }

  /** Every step of every goroutine, and every cancellation, keeps the invariant. */
  lemma StepKeepsInv(cfg: Config, s: State, step: Step)
    requires Inv(cfg, s) && Enabled(cfg, s, step)
    ensures Inv(cfg, Apply(cfg, s, step))
  {
    OwnedStep(cfg, s, step);
    CalledOnceStep(cfg, s, step);
    TalliedStep(cfg, s, step);
    PhasedStep(cfg, s, step);
    ReportedStep(cfg, s, step);
  }

  // ----- Runs -----

  datatype Reach = Stuck | At(s: State)

  /** The state after taking `steps` in order from `s`, if each was enabled when taken. */
  ghost function Exec(cfg: Config, s: State, steps: seq<Step>): Reach
    decreases |steps|
  {
    if steps == [] then At(s)
    else if Fits(cfg, s) && Enabled(cfg, s, steps[0]) then Exec(cfg, Apply(cfg, s, steps[0]), steps[1..])
    else Stuck
  }

  function Weight(p: Phase): nat {
    match p
    case Exited => 0
    case Idle => 1
    case Pausing => 2
    case Sending(_, _) => 4
    case Running(_) => 5
    case Got(_) => 6
  }

  function WorkerWeight(ws: seq<Phase>): nat {
    if ws == [] then 0 else WorkerWeight(ws[..|ws| - 1]) + Weight(ws[|ws| - 1])
  }

  lemma {:induction false} WorkerWeightUpdate(ws: seq<Phase>, w: nat, p: Phase)
    requires w < |ws|
    ensures WorkerWeight(ws[w := p]) == WorkerWeight(ws) - Weight(ws[w]) + Weight(p)
  {
    var last := |ws| - 1;
    if w == last {
      assert ws[w := p][..last] == ws[..last];
    } else {
      WorkerWeightUpdate(ws[..last], w, p);
      assert ws[w := p][..last] == ws[..last][w := p];
    }
  }

  lemma {:induction false} IdleWeight(n: nat)
    ensures WorkerWeight(seq(n, _ => Idle)) == n
  {
    if n > 0 {
      IdleWeight(n - 1);
      assert seq(n, _ => Idle)[..n - 1] == seq(n - 1, _ => Idle);
    }
  }

  /** An upper bound on the number of steps still possible. */
  function Measure(cfg: Config, s: State): int {
    6 * (|cfg.jobs| - s.next) + WorkerWeight(s.workers)
    + (if s.jobsClosed then 0 else 1) + (if s.resultsClosed then 0 else 1) + (if s.cancelled then 0 else 1)
    + (match s.reducer case Receiving => 1 case Reporting => 2 case Returned => 0)
  }

  predicate OfWorker(step: Step) {
    step.Deliver? || step.Leave? || step.Start? || step.Finish? || step.Receive? || step.Resume?
  }

  lemma WorkerStepWeight(cfg: Config, s: State, step: Step)
    requires Fits(cfg, s) && Enabled(cfg, s, step) && OfWorker(step)
    ensures var s' := Apply(cfg, s, step);
      && |s'.workers| == |s.workers|
      && WorkerWeight(s'.workers) == WorkerWeight(s.workers) - Weight(s.workers[step.w]) + Weight(s'.workers[step.w])
  {
    var s' := Apply(cfg, s, step);
    assert s'.workers == s.workers[step.w := s'.workers[step.w]];
    WorkerWeightUpdate(s.workers, step.w, s'.workers[step.w]);
  }

  /** Every step, of any goroutine and including cancellation, uses up some of the measure. */
  lemma MeasureDecreases(cfg: Config, s: State, step: Step)
    requires Fits(cfg, s) && s.next <= |cfg.jobs| && Enabled(cfg, s, step)
    ensures 0 <= Measure(cfg, Apply(cfg, s, step)) < Measure(cfg, s)
  {
    var s' := Apply(cfg, s, step);
    if OfWorker(step) {
      WorkerStepWeight(cfg, s, step);
    } else {
      assert s'.workers == s.workers;
    }
  }

  /** Every run from a good state stays good and is no longer than the measure allows. */
  lemma {:induction false} RunKeepsInv(cfg: Config, s: State, steps: seq<Step>)
    requires Inv(cfg, s) && Exec(cfg, s, steps).At?
    ensures var t := Exec(cfg, s, steps).s; Inv(cfg, t) && |steps| <= Measure(cfg, s) - Measure(cfg, t)
    decreases |steps|
  {
    if steps != [] {
      StepKeepsInv(cfg, s, steps[0]);
      MeasureDecreases(cfg, s, steps[0]);
      RunKeepsInv(cfg, Apply(cfg, s, steps[0]), steps[1..]);
    }
  }

  /** The received results by position. */
  function ResultsOf(es: seq<Entry>): nat -> Summary {
    (k: nat) => if k < |es| then es[k].result else Summary(0, 0, 0, 0, 0)
  }

  lemma {:induction false} SumCounts(es: seq<Entry>)
    ensures CountsOf(Sum(es), |es|, ResultsOf(es))
  {
    if es != [] {
      var n := |es| - 1;
      SumCounts(es[..n]);
      CountsAgree(Sum(es[..n]), n, ResultsOf(es[..n]), ResultsOf(es));
      CountsOfMore(Sum(es[..n]), n, ResultsOf(es));
    }
  }

  /** Safety at every point of every interleaving with any cancellation: run was called at
      most once per channel and never for one that is nil or manually disabled, no worker
      can be about to send on the closed results channel, the totals are the sum of what was
      received from distinct channels, count by count, progress was reported as 0, 1, 2, ...
      without gaps, there are as many workers as asked for, but from 1 to 32 and no more than
      channels, and no run takes more than 6 steps per channel plus one per worker plus 4. */
  lemma EveryRunIsSafe(cfg: Config, steps: seq<Step>)
    requires Exec(cfg, Init(cfg), steps).At?
    ensures var s := Exec(cfg, Init(cfg), steps).s;
      && |s.calls| == |cfg.jobs|
      && (forall i | 0 <= i < |s.calls| ::
            s.calls[i] <= if cfg.jobs[i].Channel? && cfg.jobs[i].status != 2 then 1 else 0)
      && (s.resultsClosed ==> forall w | 0 <= w < |s.workers| :: !s.workers[w].Sending?)
      && CountsOf(s.total, |s.reduced|, ResultsOf(s.reduced))
      && (forall j, k | 0 <= j < k < |s.reduced| :: s.reduced[j].job != s.reduced[k].job)
      && (forall k | 0 <= k < |s.reports| :: s.reports[k] == k)
      && 0 < |s.reports| <= |s.reduced| + 1 <= |cfg.jobs| + 1
      && |s.workers| <= 32 && |s.workers| <= |cfg.jobs| && (cfg.jobs != [] ==> |s.workers| >= 1)
      && (1 <= cfg.concurrency <= 32 && cfg.concurrency <= |cfg.jobs| ==> |s.workers| == cfg.concurrency)
      && (cfg.concurrency < 1 ==> |s.workers| <= 1)
      && (cfg.concurrency > 32 && |cfg.jobs| >= 32 ==> |s.workers| == 32)
      && |steps| <= 6 * |cfg.jobs| + |s.workers| + 4
  {
    InitInv(cfg);
    RunKeepsInv(cfg, Init(cfg), steps);
    IdleWeight(WorkerCount(cfg));
    var s := Exec(cfg, Init(cfg), steps).s;
    ReducedCount(cfg, s);
    MeasureNonNegative(cfg, s);
    SumCounts(s.reduced);
  }

  lemma MeasureNonNegative(cfg: Config, s: State)
    requires s.next <= |cfg.jobs|
    ensures Measure(cfg, s) >= 0
  {
  }

  /** Distinct job numbers below n: there are at most n of them. */
  lemma ReducedCount(cfg: Config, s: State)
    requires Owned(cfg, s)
    ensures |s.reduced| <= |cfg.jobs|
  {
    DistinctBelow(seq(|s.reduced|, k requires 0 <= k < |s.reduced| => s.reduced[k].job), |cfg.jobs|);
  }

  lemma {:induction false} DistinctBelow(xs: seq<nat>, n: nat)
    requires forall k | 0 <= k < |xs| :: xs[k] < n
    requires forall j, k | 0 <= j < k < |xs| :: xs[j] != xs[k]
    ensures |xs| <= n
  {
    if xs == [] {
      return;
    }
    assert xs[0] < n;
    if n - 1 in xs {
      var k :| 0 <= k < |xs| && xs[k] == n - 1;
      DistinctBelow(xs[..k] + xs[k + 1..], n - 1);
    } else {
      DistinctBelow(xs, n - 1);
    }
  }

  /** When the pool has returned, every call of run is accounted for by exactly one received
      result, and that result is what run returned. */
  lemma EveryResultIsReducedOnce(cfg: Config, steps: seq<Step>, i: nat)
    requires Exec(cfg, Init(cfg), steps).At? && i < |cfg.jobs|
    requires Exec(cfg, Init(cfg), steps).s.reducer.Returned?
    ensures var s := Exec(cfg, Init(cfg), steps).s;
      && |s.calls| == |cfg.jobs|
      && (Runnable(cfg.jobs[i]) ==> (s.calls[i] == 1 <==> exists k | 0 <= k < |s.reduced| :: s.reduced[k].job == i))
      && (forall j, k | 0 <= j < |s.reduced| && 0 <= k < |s.reduced| && s.reduced[j].job == i == s.reduced[k].job ::
            j == k)
      && (forall k | 0 <= k < |s.reduced| && s.reduced[k].job == i ::
            if cfg.jobs[i].Channel? && cfg.jobs[i].status != 2
            then s.reduced[k].result in {cfg.run(i, false), cfg.run(i, s.cancelled)}
            else s.reduced[k].result == Summary(0, 0, 0, 0, 0))
  {
    InitInv(cfg);
    RunKeepsInv(cfg, Init(cfg), steps);
    var s := Exec(cfg, Init(cfg), steps).s;
    if s.calls[i] == 1 {
      assert Begun(s, i);
      assert s.reduced[s.place[i].k].job == i;
    }
  }

  // ----- The sum over all channels -----

  function SumTo(cfg: Config, n: nat): Summary
    requires n <= |cfg.jobs|
  {
    if n == 0 then ZERO else Add(SumTo(cfg, n - 1), Outcome(cfg, n - 1, false))
  }

  /** What testing each channel returns; nothing for a nil or manually disabled one. */
  function OutcomesOf(cfg: Config): nat -> Summary {
    (i: nat) =>
      if i < |cfg.jobs| && cfg.jobs[i].Channel? && cfg.jobs[i].status != 2 then cfg.run(i, false)
      else Summary(0, 0, 0, 0, 0)
  }

  lemma {:induction false} SumToCounts(cfg: Config, n: nat)
    requires n <= |cfg.jobs|
    ensures CountsOf(SumTo(cfg, n), n, OutcomesOf(cfg))
  {
    if n > 0 {
      SumToCounts(cfg, n - 1);
      CountsOfMore(SumTo(cfg, n - 1), n - 1, OutcomesOf(cfg));
    }
  }

  lemma {:induction false} SumWithout(es: seq<Entry>, k: nat)
    requires k < |es|
    ensures Sum(es) == Add(Sum(es[..k] + es[k + 1..]), es[k].result)
  {
    var last := |es| - 1;
    if k == last {
      assert es[..k] + es[k + 1..] == es[..last];
    } else {
      SumWithout(es[..last], k);
      assert (es[..k] + es[k + 1..])[..last - 1] == es[..last][..k] + es[..last][k + 1..];
    }
  }

  /** Entries for each of the jobs 0..n, in any order, sum to the sum in list order. */
  lemma {:induction false} SumAnyOrder(cfg: Config, es: seq<Entry>, at: seq<nat>)
    requires |at| == |es| <= |cfg.jobs|
    requires forall i | 0 <= i < |at| :: at[i] < |es| && es[at[i]] == Entry(i, Outcome(cfg, i, false))
    ensures Sum(es) == SumTo(cfg, |es|)
    decreases |es|
  {
    if es != [] {
      var n := |es| - 1;
      var k := at[n];
      var es' := es[..k] + es[k + 1..];
      var at' := seq(n, i requires 0 <= i < n => if at[i] > k then at[i] - 1 else at[i]);
      forall i | 0 <= i < n ensures at'[i] < n && es'[at'[i]] == Entry(i, Outcome(cfg, i, false)) {
        assert at[i] != k by { assert es[at[i]].job == i; }
      }
      SumWithout(es, k);
      SumAnyOrder(cfg, es', at');
    }
  }

  lemma AllReduced(cfg: Config, s: State)
    requires Inv(cfg, s) && s.reducer.Returned? && !s.cancelled
    ensures |s.reduced| == |cfg.jobs|
    ensures forall i | 0 <= i < |cfg.jobs| ::
              s.place[i].Reduced? && s.reduced[s.place[i].k] == Entry(i, Outcome(cfg, i, false))
  {
    assert |s.workers| > 0 ==> s.workers[0].Exited?;
    forall i | 0 <= i < |cfg.jobs| ensures s.place[i].Reduced? { }
    ReducedCount(cfg, s);
    DistinctBelow(seq(|s.place|, i requires 0 <= i < |s.place| => s.place[i].k), |s.reduced|);
  }

  /** A run that is never cancelled returns exactly the sum over all channels, in each of the
      five counts, and has reported every count from 0 to the number of channels. */
  lemma UncancelledRunSumsAllChannels(cfg: Config, steps: seq<Step>)
    requires Exec(cfg, Init(cfg), steps).At?
    requires var s := Exec(cfg, Init(cfg), steps).s; s.reducer.Returned? && !s.cancelled
    ensures var s := Exec(cfg, Init(cfg), steps).s;
      CountsOf(s.total, |cfg.jobs|, OutcomesOf(cfg)) && s.reports == seq(|cfg.jobs| + 1, k => k)
  {
    InitInv(cfg);
    RunKeepsInv(cfg, Init(cfg), steps);
    var s := Exec(cfg, Init(cfg), steps).s;
    AllReduced(cfg, s);
    SumToCounts(cfg, |cfg.jobs|);
    SumAnyOrder(cfg, s.reduced, seq(|s.place|, i requires 0 <= i < |s.place| => s.place[i].k));
  }

  // ----- Progress -----

  /** The caller has its result and no goroutine is left behind. */
  predicate Quiet(s: State) {
    s.reducer.Returned? && s.jobsClosed && s.resultsClosed && forall w | 0 <= w < |s.workers| :: s.workers[w].Exited?
  }

  /** No reachable state is a deadlock: until everything has wound down, some goroutine can
      move without the help of a cancellation. */
  lemma NoDeadlock(cfg: Config, s: State) returns (step: Step)
    requires Inv(cfg, s) && !Quiet(s)
    ensures Enabled(cfg, s, step) && !step.Cancel?
  {
    if s.reducer.Reporting? {
      return Report;
    }
    if w: nat :| w < |s.workers| && !s.workers[w].Exited? {
      match s.workers[w]
      case Running(_) => return Finish(w);
      case Sending(_, _) => return Receive(w);
      case Pausing => return Resume(w);
      case Got(_) => return if s.cancelled then Leave(w) else Start(w);
      case Idle =>
        if s.cancelled || s.jobsClosed { return Leave(w); }
        return if s.next < |cfg.jobs| then Deliver(w) else CloseJobs;
    }
    if !s.resultsClosed {
      return CloseResults;
    }
    if !s.reducer.Returned? {
      return Return;
    }
    assert |s.workers| > 0 ==> s.workers[0].Exited?;
    return CloseJobs;
  }

  /** From every reachable state the pool can wind down by its own steps alone, and a run
      that cannot move any more has wound down. */
  lemma {:induction false} CanAlwaysFinish(cfg: Config, s: State) returns (steps: seq<Step>)
    requires Inv(cfg, s)
    ensures Exec(cfg, s, steps).At? && Quiet(Exec(cfg, s, steps).s)
    ensures Exec(cfg, s, steps).s.cancelled == s.cancelled
    decreases Measure(cfg, s)
  {
    if Quiet(s) {
      return [];
    }
    var step := NoDeadlock(cfg, s);
    StepKeepsInv(cfg, s, step);
    MeasureDecreases(cfg, s, step);
    var s' := Apply(cfg, s, step);
    assert s'.cancelled == s.cancelled;
    var rest := CanAlwaysFinish(cfg, s');
    steps := [step] + rest;
    assert steps[1..] == rest;
  }

  lemma {:induction false} NoCancelNoCancelled(cfg: Config, s: State, steps: seq<Step>)
    requires Exec(cfg, s, steps).At? && !s.cancelled && Cancel !in steps
    ensures !Exec(cfg, s, steps).s.cancelled
    decreases |steps|
  {
    if steps != [] {
      assert steps[0] in steps;
      NoCancelNoCancelled(cfg, Apply(cfg, s, steps[0]), steps[1..]);
    }
  }

  /** A run that no goroutine can continue has returned to its caller and left none behind;
      and if it was not cancelled on the way, its result is the sum over all channels. */
  lemma StoppedRunHasReturned(cfg: Config, steps: seq<Step>)
    requires Exec(cfg, Init(cfg), steps).At?
    requires forall step: Step | !step.Cancel? :: !Enabled(cfg, Exec(cfg, Init(cfg), steps).s, step)
    ensures var s := Exec(cfg, Init(cfg), steps).s;
      Quiet(s) && (Cancel !in steps ==> CountsOf(s.total, |cfg.jobs|, OutcomesOf(cfg)))
  {
    var s := Exec(cfg, Init(cfg), steps).s;
    InitInv(cfg);
    RunKeepsInv(cfg, Init(cfg), steps);
    if !Quiet(s) {
      var step := NoDeadlock(cfg, s);
    }
    if Cancel !in steps {
      NoCancelNoCancelled(cfg, Init(cfg), steps);
      UncancelledRunSumsAllChannels(cfg, steps);
    }
  }

  lemma {:induction false} StaysCancelled(cfg: Config, s: State, steps: seq<Step>)
    requires Exec(cfg, s, steps).At? && s.cancelled
    ensures var t := Exec(cfg, s, steps).s; t.cancelled && t.calls == s.calls && t.reports == s.reports
    decreases |steps|
  {
    if steps != [] { StaysCancelled(cfg, Apply(cfg, s, steps[0]), steps[1..]); }
  }

  lemma {:induction false} ExecSplit(cfg: Config, s: State, a: seq<Step>, b: seq<Step>)
    requires Exec(cfg, s, a + b).At?
    ensures Exec(cfg, s, a).At? && Exec(cfg, Exec(cfg, s, a).s, b) == Exec(cfg, s, a + b)
    decreases |a|
  {
    if a == [] {
      assert a + b == b;
    } else {
      assert (a + b)[1..] == a[1..] + b;
      ExecSplit(cfg, Apply(cfg, s, a[0]), a[1..], b);
    }
  }

  /** Once cancelled, no further test begins and no further progress is reported, however the
      run goes on. */
  lemma NothingAfterCancel(cfg: Config, before: seq<Step>, after: seq<Step>)
    requires Exec(cfg, Init(cfg), before + [Cancel] + after).At?
    ensures Exec(cfg, Init(cfg), before).At?
    ensures var s, t := Exec(cfg, Init(cfg), before).s, Exec(cfg, Init(cfg), before + [Cancel] + after).s;
      t.calls == s.calls && t.reports == s.reports
  {
    ExecSplit(cfg, Init(cfg), before + [Cancel], after);
    ExecSplit(cfg, Init(cfg), before, [Cancel]);
    var s := Exec(cfg, Init(cfg), before).s;
    assert [Cancel][1..] == [];
    StaysCancelled(cfg, Apply(cfg, s, Cancel), after);
  }

  /** With a request interval set, a worker that handed over a result takes no other job until
      the interval has elapsed; without one it is ready at once. */
  lemma PausesBetween(cfg: Config, s: State, w: nat)
    requires Fits(cfg, s) && Enabled(cfg, s, Receive(w))
    ensures var s' := Apply(cfg, s, Receive(w));
      && (Enabled(cfg, s', Resume(w)) <==> cfg.pause)
      && (cfg.pause ==> !Enabled(cfg, s', Deliver(w)))
      && (!cfg.pause && !s.jobsClosed && s.next < |cfg.jobs| ==> Enabled(cfg, s', Deliver(w)))
  {
  }

  // ----- The health check as `run` -----

  /** What the outside world answers during one health check. */
  datatype Probe = Probe(failed: bool, localError: bool, shouldDisable: bool, slow: bool,
                         autoBan: bool, shouldEnable: bool)

  /** `disableOn` is the tenant's automatic-disable switch, `allowDisable` the caller's. */
  function HealthCheck(status: int, p: Probe, disableOn: bool, allowDisable: bool, cancelled: bool): Summary {
    if cancelled then ZERO else
    var enabled := status == STATUS_ENABLED;
    var banByError := p.failed && p.shouldDisable;
    var banBySpeed := disableOn && !banByError && p.slow;
    var failed := p.failed || banBySpeed;
    Summary(1, if failed then 0 else 1, if failed then 1 else 0,
            if allowDisable && enabled && (banByError || banBySpeed) && p.autoBan then 1 else 0,
            if !p.localError && !enabled && p.shouldEnable then 1 else 0)
  }

  /** When each count of a health check is 1: tested unless cancelled; failed on an error or,
      with the switch on, on being slow; disabled if the caller allows it, the channel is
      enabled and may be banned, and the error asks for it or it is slow with the switch on;
      enabled if the test ran, the channel is not enabled, and it should be. */
  lemma HealthCounts(status: int, p: Probe, disableOn: bool, allowDisable: bool, cancelled: bool)
    ensures var r := HealthCheck(status, p, disableOn, allowDisable, cancelled);
      var ban := (p.failed && p.shouldDisable) || (disableOn && p.slow);
      && r.tested == (if cancelled then 0 else 1)
      && r.failed == (if !cancelled && (p.failed || (disableOn && p.slow)) then 1 else 0)
      && r.succeeded == r.tested - r.failed
      && r.disabled == (if !cancelled && allowDisable && status == 1 && p.autoBan && ban then 1 else 0)
      && r.enabled == (if !cancelled && !p.localError && status != 1 && p.shouldEnable then 1 else 0)
  {
  }

  predicate Balanced(r: Summary) {
    && r.tested == r.succeeded + r.failed
    && 0 <= r.succeeded
    && 0 <= r.disabled <= r.failed
    && 0 <= r.enabled
    && r.disabled + r.enabled <= r.tested
  }

  lemma {:induction false} SumBalanced(es: seq<Entry>)
    requires forall k | 0 <= k < |es| :: Balanced(es[k].result)
    ensures Balanced(Sum(es))
  {
    if es != [] {
      SumBalanced(es[..|es| - 1]);
    }
  }

  /** With the health check as the test, the totals balance at every point of every run,
      whatever the probes answer and whenever the run is cancelled. */
  lemma HealthTotalsBalance(cfg: Config, steps: seq<Step>, probes: seq<Probe>, disableOn: bool, allowDisable: bool)
    requires |probes| == |cfg.jobs|
    requires forall i: nat, c: bool | i < |cfg.jobs| && cfg.jobs[i].Channel? ::
               cfg.run(i, c) == HealthCheck(cfg.jobs[i].status, probes[i], disableOn, allowDisable, c)
    requires Exec(cfg, Init(cfg), steps).At?
    ensures Balanced(Exec(cfg, Init(cfg), steps).s.total)
  {
    InitInv(cfg);
    RunKeepsInv(cfg, Init(cfg), steps);
    var s := Exec(cfg, Init(cfg), steps).s;
    forall k | 0 <= k < |s.reduced| ensures Balanced(s.reduced[k].result) {
      assert Genuine(cfg, s, s.reduced[k].job, s.reduced[k].result);
    }
    SumBalanced(s.reduced);
  }
}
