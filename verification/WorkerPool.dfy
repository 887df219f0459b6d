/**
 * The worker pool as a transition system. Submitters, workers and closers share an unbuffered job
 * channel, a closed signal, a once and a wait group; every handle has a result channel of
 * capacity one. What Go answers with a panic (a send on a closed channel, a second close, a
 * negative wait group) sets `crashed`.
 */
module WorkerPool {
  import opened Prelude
  import opened WorkGroups
  import opened TickSpec

  type ContextID = nat

  datatype Job = Job(ctx: ContextID, group: WorkGroup, tick: uint64)

  /** A result channel: all that was ever sent, how much of it was received, and the closes. */
  datatype Channel = Channel(sent: seq<JobResult>, taken: nat, closes: nat) {
    predicate HasRoom() {
      |sent| <= taken
    }
  }

  const UNUSED: Channel := Channel([], 0, 0)

  /** Where a submission stands; `Taken` names the worker that received the job. */
  datatype Stage =
    | Selecting
    | Sending
    | Rejecting(err: TickError)
    | ClosingOwn
    | Taken(worker: nat)
    | Answered

  /** One call of Submit: its job, its handle's channel, and how often the job function was called. */
  datatype Ticket = Ticket(job: Job, stage: Stage, result: Channel, calls: nat) {
    /** Submit has returned the handle. */
    predicate Returned() {
      stage.Taken? || stage.Answered?
    }
  }

  datatype Task = Received | Running(rs: RunState) | Finished(res: JobResult) | Closing

  datatype Worker = Idle | Busy(ticket: nat, job: Job, task: Task) | Leaving | Exited

  /** One call of Close. */
  datatype Closer = Entering | ClosingSignal | ClosingJobs | Waiting | Back

  datatype Once = Unused | InUse(closer: nat) | Used

  datatype Pool = Pool(workers: seq<Worker>,
                       tickets: seq<Ticket>,
                       closers: seq<Closer>,
                       once: Once,
                       signal: bool,
                       jobsClosed: bool,
                       live: int,
                       cancelled: set<ContextID>,
                       crashed: bool)

  /** Which ready case the select of a submission takes. */
  datatype Choice = SawClosed | SawDone | SawNothing

  datatype Step =
    | Cancel(ctx: ContextID)
    | NewSubmit(job: Job)
    | NewClose
    | Select(t: nat, choice: Choice)
    | HandOver(t: nat, w: nat)
    | SendFails(t: nat)
    | Reject(t: nat)
    | CloseOwn(t: nat)
    | Leave(w: nat)
    | SignOff(w: nat)
    | Work(w: nat)
    | CloserMoves(c: nat)
    | Receive(t: nat)
  {
    /** Steps the pool takes by itself, once called: no caller arrives, cancels or waits. */
    predicate Internal() {
      !Cancel? && !NewSubmit? && !NewClose? && !Receive?
    }
  }

  function NewPool(size: nat): Pool {
    Pool(seq(size, _ => Idle), [], [], Unused, false, false, size, {}, false)
  }

  /** What the pool answers itself, without calling the job function. */
  function PoolAnswer(err: TickError): JobResult {
    JobResult(Some(err), [], None)
  }

  predicate At(p: Pool, t: nat, stage: Stage) {
    t < |p.tickets| && p.tickets[t].stage == stage
  }

  predicate Enabled(p: Pool, step: Step) {
    match step
    case Cancel(_) => true
    case NewSubmit(_) => true
    case NewClose => true
    case Select(t, choice) => At(p, t, Selecting) && CanChoose(p, p.tickets[t].job.ctx, choice)
    case HandOver(t, w) => At(p, t, Sending) && w < |p.workers| && p.workers[w].Idle? && !p.jobsClosed
    case SendFails(t) => At(p, t, Sending) && p.jobsClosed
    case Reject(t) => t < |p.tickets| && p.tickets[t].stage.Rejecting? && p.tickets[t].result.HasRoom()
    case CloseOwn(t) => At(p, t, ClosingOwn)
    case Leave(w) => w < |p.workers| && p.workers[w].Idle? && (p.signal || p.jobsClosed)
    case SignOff(w) => w < |p.workers| && p.workers[w].Leaving?
    case Work(w) => w < |p.workers| && p.workers[w].Busy? && CanWork(p, p.workers[w])
    case CloserMoves(c) => c < |p.closers| && CanMove(p, c)
    case Receive(t) => t < |p.tickets| && p.tickets[t].Returned() && p.tickets[t].result.taken < |p.tickets[t].result.sent|
  }

  /** A select with a default takes the default only if no other case is ready. */
  predicate CanChoose(p: Pool, ctx: ContextID, choice: Choice) {
    match choice
    case SawClosed => p.signal
    case SawDone => ctx in p.cancelled
    case SawNothing => !p.signal && ctx !in p.cancelled
  }

  /** Only sending the result can block a busy worker. */
  predicate CanWork(p: Pool, worker: Worker)
    requires worker.Busy?
  {
    && worker.ticket < |p.tickets|
    && (worker.task.Running? ==> worker.task.rs.next <= |worker.job.group.systems|)
    && (worker.task.Finished? ==> p.tickets[worker.ticket].result.HasRoom())
  }

  predicate CanMove(p: Pool, c: nat)
    requires c < |p.closers|
  {
    match p.closers[c]
    case Entering => !p.once.InUse?
    case ClosingSignal => true
    case ClosingJobs => true
    case Waiting => p.live == 0
    case Back => false
  }

  function Next(p: Pool, oracle: Oracle, step: Step): Pool
    requires Enabled(p, step)
  {
    match step
    case Cancel(ctx) => p.(cancelled := p.cancelled + {ctx})
    case NewSubmit(job) => p.(tickets := p.tickets + [Ticket(job, Selecting, UNUSED, 0)])
    case NewClose => p.(closers := p.closers + [Entering])
    case Select(t, choice) =>
      Move(p, t, match choice
                 case SawClosed => Rejecting(PoolClosed)
                 case SawDone => Rejecting(ContextDone)
                 case SawNothing => Sending)
    case HandOver(t, w) =>
      Move(p, t, Taken(w)).(workers := p.workers[w := Busy(t, p.tickets[t].job, Received)])
    case SendFails(t) => Move(p, t, Rejecting(PoolClosed))
    case Reject(t) => Move(Send(p, t, PoolAnswer(p.tickets[t].stage.err)), t, ClosingOwn)
    case CloseOwn(t) => Move(CloseResult(p, t), t, Answered)
    case Leave(w) => p.(workers := p.workers[w := Leaving])
    case SignOff(w) => p.(workers := p.workers[w := Exited], live := p.live - 1, crashed := p.crashed || p.live <= 0)
    case Work(w) => WorkNext(p, oracle, w)
    case CloserMoves(c) => CloserNext(p, c)
    case Receive(t) =>
      var ch := p.tickets[t].result;
      p.(tickets := p.tickets[t := p.tickets[t].(result := ch.(taken := ch.taken + 1))])
  }

  function Move(p: Pool, t: nat, stage: Stage): Pool
    requires t < |p.tickets|
  {
    p.(tickets := p.tickets[t := p.tickets[t].(stage := stage)])
  }

  function Send(p: Pool, t: nat, res: JobResult): Pool
    requires t < |p.tickets|
  {
    var ch := p.tickets[t].result;
    p.(tickets := p.tickets[t := p.tickets[t].(result := ch.(sent := ch.sent + [res]))],
       crashed := p.crashed || ch.closes > 0)
  }

  function CloseResult(p: Pool, t: nat): Pool
    requires t < |p.tickets|
  {
    var ch := p.tickets[t].result;
    p.(tickets := p.tickets[t := p.tickets[t].(result := ch.(closes := ch.closes + 1))],
       crashed := p.crashed || ch.closes > 0)
  }

  /** A busy worker checks the job's context, runs the job a system at a time, sends and closes. */
  function WorkNext(p: Pool, oracle: Oracle, w: nat): Pool
    requires w < |p.workers| && p.workers[w].Busy? && CanWork(p, p.workers[w])
  {
    var worker := p.workers[w];
    var t, job := worker.ticket, worker.job;
    var done := job.ctx in p.cancelled;
    match worker.task
    case Received =>
      if done then p.(workers := p.workers[w := worker.(task := Finished(PoolAnswer(ContextDone)))])
      else
        p.(workers := p.workers[w := worker.(task := Running(StartRun(job.group, true, job.tick, [])))],
           tickets := p.tickets[t := p.tickets[t].(calls := p.tickets[t].calls + 1)])
    case Running(rs) =>
      var task := if rs.done then Finished(ResultOf(rs)) else Running(StepRun(job.group, job.tick, oracle, rs, done));
      p.(workers := p.workers[w := worker.(task := task)])
    case Finished(res) =>
      Send(p, t, res).(workers := p.workers[w := worker.(task := Closing)])
    case Closing =>
      Move(CloseResult(p, t), t, Answered).(workers := p.workers[w := Idle])
  }

  /** The first closer runs the once; the others wait for it, then all wait for the workers. */
  function CloserNext(p: Pool, c: nat): Pool
    requires c < |p.closers|
  {
    match p.closers[c]
    case Entering =>
      if p.once.Unused? then p.(once := InUse(c), closers := p.closers[c := ClosingSignal])
      else p.(closers := p.closers[c := Waiting])
    case ClosingSignal => p.(signal := true, crashed := p.crashed || p.signal, closers := p.closers[c := ClosingJobs])
    case ClosingJobs =>
      p.(jobsClosed := true, crashed := p.crashed || p.jobsClosed, once := Used, closers := p.closers[c := Waiting])
    case Waiting => p.(closers := p.closers[c := Back])
    case Back => p
  }

  // ---------------------------------------------------------------------------------------------
  // What a job may answer.

  function CancelledFrom(n: nat): Polls {
    i => i >= n
  }

  /** The run of a job whose context is done from check `n` on. */
  function RunUntil(oracle: Oracle, job: Job, n: nat): RunState {
    RunGroup(job.group, true, job.tick, oracle, [], CancelledFrom(n), 0).0
  }

  function Expected(oracle: Oracle, job: Job): JobResult {
    ExpectedResult(job.group, job.tick, oracle)
  }

  /** `rs` lies on the run of the job; if it has ended early, the context has been cancelled. */
  ghost predicate RunOK(oracle: Oracle, job: Job, cancelled: bool, rs: RunState) {
    && rs.next <= |job.group.systems|
    && if rs.done then EndedRun(oracle, job, cancelled, rs)
       else forall n: nat :: n >= rs.next ==>
         RunFrom(job.group, job.tick, oracle, rs, CancelledFrom(n), rs.next).0 == RunUntil(oracle, job, n)
  }

  ghost predicate EndedRun(oracle: Oracle, job: Job, cancelled: bool, rs: RunState) {
    exists n: nat :: (cancelled || n >= |job.group.systems|) && rs == RunUntil(oracle, job, n)
  }

  lemma RunBegins(oracle: Oracle, job: Job, cancelled: bool)
    ensures RunOK(oracle, job, cancelled, StartRun(job.group, true, job.tick, []))
  {
  }

  lemma RunContinues(oracle: Oracle, job: Job, cancelled: bool, rs: RunState)
    requires RunOK(oracle, job, cancelled, rs) && !rs.done
    ensures RunOK(oracle, job, cancelled, StepRun(job.group, job.tick, oracle, rs, cancelled))
  {
    var g, k := job.group, |job.group.systems|;
    var rs' := StepRun(g, job.tick, oracle, rs, cancelled);
    StepBounds(g, job.tick, oracle, rs, cancelled);
    if rs.next == k {
      assert RunFrom(g, job.tick, oracle, rs, CancelledFrom(k), k).0 == rs';
      assert rs' == RunUntil(oracle, job, k);
    } else if cancelled {
      assert RunFrom(g, job.tick, oracle, rs, CancelledFrom(rs.next), rs.next).0 == rs' by {
        hide StepRun;
      }
      assert rs' == RunUntil(oracle, job, rs.next);
    } else {
      hide StepRun, RunUntil;
      forall n: nat | n >= rs.next + 1
        ensures RunFrom(g, job.tick, oracle, rs', CancelledFrom(n), rs.next + 1).0 == RunUntil(oracle, job, n)
      {
        assert RunFrom(g, job.tick, oracle, rs, CancelledFrom(n), rs.next).0 == RunUntil(oracle, job, n);
      }
      if rs'.done {
        assert RunFrom(g, job.tick, oracle, rs', CancelledFrom(k), rs.next + 1).0 == rs';
      }
    }
  }

  lemma StepBounds(g: WorkGroup, tick: uint64, oracle: Oracle, rs: RunState, cancelled: bool)
    requires !rs.done && rs.next <= |g.systems|
    ensures var rs' := StepRun(g, tick, oracle, rs, cancelled);
      && rs.next <= rs'.next <= |g.systems|
      && (if rs'.done then rs'.next == rs.next else rs'.next == rs.next + 1)
      && (rs.next == |g.systems| || cancelled ==> rs'.done)
  {
  }

  lemma {:induction false} NotCancelledInTime(g: WorkGroup, tick: uint64, oracle: Oracle, rs: RunState, n: nat)
    requires rs.next <= |g.systems| <= n
    ensures RunFrom(g, tick, oracle, rs, CancelledFrom(n), rs.next).0 == RunFrom(g, tick, oracle, rs, NEVER, rs.next).0
    decreases |g.systems| - rs.next, !rs.done
  {
    if !rs.done && rs.next < |g.systems| {
      StepBounds(g, tick, oracle, rs, false);
      var rs' := StepRun(g, tick, oracle, rs, false);
      hide StepRun;
      if !rs'.done {
        NotCancelledInTime(g, tick, oracle, rs', n);
      }
    }
  }

  /** A job whose context is not cancelled answers what its run computes. */
  lemma UncancelledAnswer(oracle: Oracle, job: Job, rs: RunState)
    requires EndedRun(oracle, job, false, rs)
    ensures ResultOf(rs) == Expected(oracle, job)
  {
    var n: nat :| n >= |job.group.systems| && rs == RunUntil(oracle, job, n);
    NotCancelledInTime(job.group, job.tick, oracle, StartRun(job.group, true, job.tick, []), n);
    hide RunFrom, StartRun;
  }

  /**
   * An answer came from the pool itself, which then never called the job function and had a
   * reason to refuse, or it is the result of the one call.
   */
  ghost predicate AnswerOK(oracle: Oracle, job: Job, calls: nat, cancelled: bool, closed: bool, res: JobResult) {
    || (calls == 0 && closed && res == PoolAnswer(PoolClosed))
    || (calls == 0 && cancelled && res == PoolAnswer(ContextDone))
    || (calls == 1 && ResultOK(oracle, job, cancelled, res))
  }

  ghost predicate ResultOK(oracle: Oracle, job: Job, cancelled: bool, res: JobResult) {
    exists rs :: EndedRun(oracle, job, cancelled, rs) && res == ResultOf(rs)
  }

  // ---------------------------------------------------------------------------------------------
  // The invariant.

  function LiveCount(workers: seq<Worker>): nat {
    if workers == [] then 0 else Counted(workers[0]) + LiveCount(workers[1..])
  }

  function Counted(worker: Worker): nat {
    if worker.Exited? then 0 else 1
  }

  ghost predicate TaskOK(p: Pool, oracle: Oracle, tk: Ticket, task: Task) {
    var cancelled := tk.job.ctx in p.cancelled;
    match task
    case Received => tk.result == UNUSED && tk.calls == 0
    case Running(rs) => tk.result == UNUSED && tk.calls == 1 && RunOK(oracle, tk.job, cancelled, rs)
    case Finished(res) => tk.result == UNUSED && AnswerOK(oracle, tk.job, tk.calls, cancelled, p.signal, res)
    case Closing => Answering(p, oracle, tk, 0)
  }

  /** Exactly one result was sent, and the channel has been closed `closes` times. */
  ghost predicate Answering(p: Pool, oracle: Oracle, tk: Ticket, closes: nat) {
    && |tk.result.sent| == 1 && tk.result.taken <= 1 && tk.result.closes == closes
    && AnswerOK(oracle, tk.job, tk.calls, tk.job.ctx in p.cancelled, p.signal, tk.result.sent[0])
  }

  ghost predicate TicketOK(p: Pool, oracle: Oracle, t: nat)
    requires t < |p.tickets|
  {
    var tk := p.tickets[t];
    match tk.stage
    case Selecting => tk.result == UNUSED && tk.calls == 0
    case Sending => tk.result == UNUSED && tk.calls == 0
    case Rejecting(err) =>
      && tk.result == UNUSED && tk.calls == 0
      && AnswerOK(oracle, tk.job, 0, tk.job.ctx in p.cancelled, p.signal, PoolAnswer(err))
    case ClosingOwn => tk.calls == 0 && Answering(p, oracle, tk, 0)
    case Taken(w) =>
      && w < |p.workers| && p.workers[w].Busy? && p.workers[w].ticket == t && p.workers[w].job == tk.job
      && TaskOK(p, oracle, tk, p.workers[w].task)
    case Answered => Answering(p, oracle, tk, 1)
  }

  /** A busy worker holds the ticket that names it; a worker leaves only once the pool is closed. */
  ghost predicate WorkerOK(p: Pool, w: nat)
    requires w < |p.workers|
  {
    match p.workers[w]
    case Idle => true
    case Busy(t, _, _) => At(p, t, Taken(w))
    case Leaving => p.signal
    case Exited => p.signal
  }

  ghost predicate CloserOK(p: Pool, c: nat)
    requires c < |p.closers|
  {
    match p.closers[c]
    case Entering => true
    case ClosingSignal => p.once == InUse(c) && !p.signal
    case ClosingJobs => p.once == InUse(c) && p.signal
    case Waiting => p.once == Used
    case Back => p.once == Used && p.live == 0
  }

  ghost predicate OnceOK(p: Pool) {
    && (p.jobsClosed <==> p.once.Used?)
    && (p.jobsClosed ==> p.signal)
    && (p.once.Unused? ==> !p.signal)
    && (p.once.InUse? ==>
          && p.once.closer < |p.closers|
          && p.closers[p.once.closer] == if p.signal then ClosingJobs else ClosingSignal)
  }

  ghost predicate PoolInv(p: Pool, oracle: Oracle) {
    && (forall t: nat :: t < |p.tickets| ==> TicketOK(p, oracle, t))
    && (forall w: nat :: w < |p.workers| ==> WorkerOK(p, w))
    && (forall c: nat :: c < |p.closers| ==> CloserOK(p, c))
    && OnceOK(p)
    && p.live == LiveCount(p.workers)
    && !p.crashed
  }

  lemma {:induction false} LiveUpdate(workers: seq<Worker>, w: nat, x: Worker)
    requires w < |workers|
    ensures LiveCount(workers[w := x]) + Counted(workers[w]) == LiveCount(workers) + Counted(x)
    ensures !workers[w].Exited? ==> LiveCount(workers) > 0
  {
    if w == 0 {
      assert workers[w := x][1..] == workers[1..];
    } else {
      assert workers[w := x][1..] == workers[1..][w - 1 := x];
      LiveUpdate(workers[1..], w - 1, x);
    }
  }

  lemma {:induction false} StartLive(size: nat)
    ensures LiveCount(NewPool(size).workers) == size
  {
    if size > 0 {
      assert NewPool(size).workers[1..] == NewPool(size - 1).workers;
      StartLive(size - 1);
    }
  }

  lemma StartInv(size: nat, oracle: Oracle)
    ensures PoolInv(NewPool(size), oracle)
  {
    StartLive(size);
  }

  /** What an answer may be only grows with cancellation and closing. */
  lemma AnswerStays(oracle: Oracle, job: Job, calls: nat, res: JobResult, cancelled: bool, closed: bool,
                    cancelled': bool, closed': bool)
    requires AnswerOK(oracle, job, calls, cancelled, closed, res)
    requires (cancelled ==> cancelled') && (closed ==> closed')
    ensures AnswerOK(oracle, job, calls, cancelled', closed', res)
  {
    hide RunUntil;
    if calls == 1 && ResultOK(oracle, job, cancelled, res) {
      var rs :| EndedRun(oracle, job, cancelled, rs) && res == ResultOf(rs);
      assert EndedRun(oracle, job, cancelled', rs);
    }
  }

  lemma RunStays(oracle: Oracle, job: Job, rs: RunState, cancelled: bool, cancelled': bool)
    requires RunOK(oracle, job, cancelled, rs) && (cancelled ==> cancelled')
    ensures RunOK(oracle, job, cancelled', rs)
  {
    hide RunUntil;
  }

  /** A ticket the step does not touch stays as it should be. */
  lemma TicketStays(p: Pool, p': Pool, oracle: Oracle, t: nat)
    requires t < |p.tickets| && t < |p'.tickets| && TicketOK(p, oracle, t)
    requires p'.tickets[t] == p.tickets[t] || Receives(p.tickets[t], p'.tickets[t])
    requires p.tickets[t].stage.Taken? ==>
      var w := p.tickets[t].stage.worker; w < |p.workers| && w < |p'.workers| && p'.workers[w] == p.workers[w]
    requires p.cancelled <= p'.cancelled && (p.signal ==> p'.signal)
    ensures TicketOK(p', oracle, t)
  {
    hide AnswerOK, RunOK;
    var tk, tk' := p.tickets[t], p'.tickets[t];
    var was, now := tk.job.ctx in p.cancelled, tk.job.ctx in p'.cancelled;
    if |tk.result.sent| == 1 && AnswerOK(oracle, tk.job, tk.calls, was, p.signal, tk.result.sent[0]) {
      AnswerStays(oracle, tk.job, tk.calls, tk.result.sent[0], was, p.signal, now, p'.signal);
    }
    if tk.stage.Rejecting? {
      AnswerStays(oracle, tk.job, 0, PoolAnswer(tk.stage.err), was, p.signal, now, p'.signal);
    }
    if tk.stage.Taken? {
      var task := p.workers[tk.stage.worker].task;
      if task.Finished? {
        AnswerStays(oracle, tk.job, tk.calls, task.res, was, p.signal, now, p'.signal);
      } else if task.Running? {
        RunStays(oracle, tk.job, task.rs, was, now);
      }
    }
  }

  /** A waiting caller receives the buffered result. */
  predicate Receives(tk: Ticket, tk': Ticket) {
    && tk.Returned() && tk.result.taken < |tk.result.sent|
    && tk' == tk.(result := tk.result.(taken := tk.result.taken + 1))
  }

  /** Every step of a submission that moves only its own ticket. */
  lemma SubmitStep(p: Pool, oracle: Oracle, step: Step)
    requires PoolInv(p, oracle) && Enabled(p, step)
    requires step.Select? || step.SendFails? || step.Reject? || step.CloseOwn? || step.Receive?
    ensures PoolInv(Next(p, oracle, step), oracle)
  {
    hide RunOK, ResultOK, LiveCount;
    var p' := Next(p, oracle, step);
    assert TicketOK(p, oracle, step.t);
    forall t: nat | t < |p'.tickets|
      ensures TicketOK(p', oracle, t)
    {
      assert TicketOK(p, oracle, t);
      if t != step.t || step.Receive? {
        TicketStays(p, p', oracle, t);
      }
    }
    forall w: nat | w < |p'.workers|
      ensures WorkerOK(p', w)
    {
      assert WorkerOK(p, w);
    }
    forall c: nat | c < |p'.closers|
      ensures CloserOK(p', c)
    {
      assert CloserOK(p, c);
    }
  }

  /** Callers arrive, and contexts are cancelled, at any time. */
  lemma ArrivalStep(p: Pool, oracle: Oracle, step: Step)
    requires PoolInv(p, oracle) && (step.Cancel? || step.NewSubmit? || step.NewClose?)
    ensures PoolInv(Next(p, oracle, step), oracle)
  {
    hide RunOK, ResultOK, LiveCount;
    var p' := Next(p, oracle, step);
    forall t: nat | t < |p'.tickets|
      ensures TicketOK(p', oracle, t)
    {
      if t < |p.tickets| {
        assert TicketOK(p, oracle, t);
        TicketStays(p, p', oracle, t);
      }
    }
    forall w: nat | w < |p'.workers|
      ensures WorkerOK(p', w)
    {
      assert WorkerOK(p, w);
    }
    forall c: nat | c < |p'.closers|
      ensures CloserOK(p', c)
    {
      if c < |p.closers| {
        assert CloserOK(p, c);
      }
    }
  }

  /** The other parts of the state are untouched by a worker's step. */
  ghost predicate OnlyWorker(p: Pool, p': Pool, w: nat, t: nat)
    requires w < |p.workers|
  {
    && |p'.workers| == |p.workers| && |p'.tickets| == |p.tickets|
    && (forall u: nat :: u < |p.workers| && u != w ==> p'.workers[u] == p.workers[u])
    && (forall u: nat :: u < |p.tickets| && u != t ==> p'.tickets[u] == p.tickets[u])
    && p'.closers == p.closers && p'.once == p.once && p'.cancelled == p.cancelled
    && p'.signal == p.signal && p'.jobsClosed == p.jobsClosed
  }

  /** A step of one worker on one ticket keeps every other worker and ticket as it should be. */
  lemma OthersStay(p: Pool, p': Pool, oracle: Oracle, w: nat, t: nat)
    requires PoolInv(p, oracle) && w < |p.workers| && OnlyWorker(p, p', w, t)
    requires p.workers[w].Busy? ==> p.workers[w].ticket == t
    requires p.workers[w].Idle? || p.workers[w].Busy?
    requires t < |p.tickets| && (p.tickets[t].stage == Sending || p.tickets[t].stage == Taken(w))
    ensures forall u: nat :: u < |p.tickets| && u != t ==> TicketOK(p', oracle, u)
    ensures forall u: nat :: u < |p.workers| && u != w ==> WorkerOK(p', u)
    ensures forall c: nat :: c < |p.closers| && p'.live == p.live ==> CloserOK(p', c)
  {
    hide RunOK, AnswerOK, LiveCount;
    forall u: nat | u < |p.tickets| && u != t
      ensures TicketOK(p', oracle, u)
    {
      assert TicketOK(p, oracle, u);
      TicketStays(p, p', oracle, u);
    }
    forall u: nat | u < |p.workers| && u != w
      ensures WorkerOK(p', u)
    {
      assert WorkerOK(p, u);
    }
    forall c: nat | c < |p.closers| && p'.live == p.live
      ensures CloserOK(p', c)
    {
      assert CloserOK(p, c);
    }
  }

  lemma HandOverStep(p: Pool, oracle: Oracle, t: nat, w: nat)
    requires PoolInv(p, oracle) && Enabled(p, HandOver(t, w))
    ensures PoolInv(Next(p, oracle, HandOver(t, w)), oracle)
  {
    hide RunOK, AnswerOK;
    var p' := Next(p, oracle, HandOver(t, w));
    assert TicketOK(p, oracle, t);
    OthersStay(p, p', oracle, w, t);
    LiveUpdate(p.workers, w, p'.workers[w]);
    assert TicketOK(p', oracle, t) && WorkerOK(p', w);
  }

  /** The ticket and the worker are as they should be, and nothing has crashed. */
  ghost predicate PairOK(p: Pool, oracle: Oracle, t: nat, w: nat) {
    t < |p.tickets| && w < |p.workers| && TicketOK(p, oracle, t) && WorkerOK(p, w) && !p.crashed
  }

  lemma RunningStep(p: Pool, oracle: Oracle, w: nat)
    requires PoolInv(p, oracle) && Enabled(p, Work(w)) && p.workers[w].task.Running?
    ensures PairOK(Next(p, oracle, Work(w)), oracle, p.workers[w].ticket, w)
  {
    var worker := p.workers[w];
    var job, rs := worker.job, worker.task.rs;
    assert TicketOK(p, oracle, worker.ticket) && WorkerOK(p, w);
    var done := job.ctx in p.cancelled;
    if rs.done {
      assert EndedRun(oracle, job, done, rs);
      hide RunUntil;
    } else {
      RunContinues(oracle, job, done, rs);
      hide RunOK, StepRun;
    }
  }

  /** A busy worker's next move keeps its own ticket as it should be. */
  lemma TaskStep(p: Pool, oracle: Oracle, w: nat)
    requires PoolInv(p, oracle) && Enabled(p, Work(w))
    ensures PairOK(Next(p, oracle, Work(w)), oracle, p.workers[w].ticket, w)
  {
    var worker := p.workers[w];
    assert TicketOK(p, oracle, worker.ticket) && WorkerOK(p, w);
    match worker.task
    case Received =>
      RunBegins(oracle, worker.job, worker.job.ctx in p.cancelled);
      hide RunOK, ResultOK;
    case Running(_) =>
      RunningStep(p, oracle, w);
      hide PairOK, Next;
    case Finished(_) => hide RunOK, ResultOK;
    case Closing => hide RunOK, ResultOK;
  }

  lemma WorkIsLocal(p: Pool, oracle: Oracle, w: nat)
    requires Enabled(p, Work(w))
    ensures var p' := Next(p, oracle, Work(w));
      && OnlyWorker(p, p', w, p.workers[w].ticket) && p'.live == p.live
      && !p'.workers[w].Exited? && p'.workers == p.workers[w := p'.workers[w]]
  {
    hide StepRun, StartRun;
  }

  lemma WorkStep(p: Pool, oracle: Oracle, w: nat)
    requires PoolInv(p, oracle) && Enabled(p, Work(w))
    ensures PoolInv(Next(p, oracle, Work(w)), oracle)
  {
    var p', t := Next(p, oracle, Work(w)), p.workers[w].ticket;
    assert WorkerOK(p, w);
    TaskStep(p, oracle, w);
    WorkIsLocal(p, oracle, w);
    OthersStay(p, p', oracle, w, t);
    LiveUpdate(p.workers, w, p'.workers[w]);
    hide Next, TicketOK, WorkerOK, CloserOK, LiveCount;
    OnceStays(p, p');
  }

  lemma OnceStays(p: Pool, p': Pool)
    requires OnceOK(p) && p'.closers == p.closers && p'.once == p.once
    requires p'.signal == p.signal && p'.jobsClosed == p.jobsClosed
    ensures OnceOK(p')
  {
  }

  /** A worker leaves, once the pool is closed, and signs off the wait group. */
  lemma LeaveStep(p: Pool, oracle: Oracle, step: Step)
    requires PoolInv(p, oracle) && Enabled(p, step) && (step.Leave? || step.SignOff?)
    ensures PoolInv(Next(p, oracle, step), oracle)
  {
    hide RunOK, AnswerOK;
    var p' := Next(p, oracle, step);
    LiveUpdate(p.workers, step.w, p'.workers[step.w]);
    forall t: nat | t < |p'.tickets|
      ensures TicketOK(p', oracle, t)
    {
      assert TicketOK(p, oracle, t);
      TicketStays(p, p', oracle, t);
    }
    forall w: nat | w < |p'.workers|
      ensures WorkerOK(p', w)
    {
      assert WorkerOK(p, w) && WorkerOK(p, step.w);
    }
    forall c: nat | c < |p'.closers|
      ensures CloserOK(p', c)
    {
      assert CloserOK(p, c);
    }
  }

  lemma CloserStep(p: Pool, oracle: Oracle, c: nat)
    requires PoolInv(p, oracle) && Enabled(p, CloserMoves(c))
    ensures PoolInv(Next(p, oracle, CloserMoves(c)), oracle)
  {
    hide RunOK, ResultOK, LiveCount;
    var p' := Next(p, oracle, CloserMoves(c));
    assert CloserOK(p, c);
    forall t: nat | t < |p'.tickets|
      ensures TicketOK(p', oracle, t)
    {
      assert TicketOK(p, oracle, t);
      TicketStays(p, p', oracle, t);
    }
    forall w: nat | w < |p'.workers|
      ensures WorkerOK(p', w)
    {
      assert WorkerOK(p, w);
    }
    forall d: nat | d < |p'.closers|
      ensures CloserOK(p', d)
    {
      assert CloserOK(p, d);
    }
  }

  /** Every step of the pool, its callers and its environment keeps the invariant. */
  lemma StepKeepsInv(p: Pool, oracle: Oracle, step: Step)
    requires PoolInv(p, oracle) && Enabled(p, step)
    ensures PoolInv(Next(p, oracle, step), oracle)
  {
    hide PoolInv;
    match step
    case Cancel(_) => ArrivalStep(p, oracle, step);
    case NewSubmit(_) => ArrivalStep(p, oracle, step);
    case NewClose => ArrivalStep(p, oracle, step);
    case Select(_, _) => SubmitStep(p, oracle, step);
    case HandOver(t, w) => HandOverStep(p, oracle, t, w);
    case SendFails(_) => SubmitStep(p, oracle, step);
    case Reject(_) => SubmitStep(p, oracle, step);
    case CloseOwn(_) => SubmitStep(p, oracle, step);
    case Leave(_) => LeaveStep(p, oracle, step);
    case SignOff(_) => LeaveStep(p, oracle, step);
    case Work(w) => WorkStep(p, oracle, w);
    case CloserMoves(c) => CloserStep(p, oracle, c);
    case Receive(_) => SubmitStep(p, oracle, step);
  }

  // ---------------------------------------------------------------------------------------------
  // Runs: what holds of every interleaving.

  ghost predicate Legal(p: Pool, oracle: Oracle, steps: seq<Step>)
    decreases |steps|
  {
    steps == [] || (Enabled(p, steps[0]) && Legal(Next(p, oracle, steps[0]), oracle, steps[1..]))
  }

  ghost function After(p: Pool, oracle: Oracle, steps: seq<Step>): Pool
    requires Legal(p, oracle, steps)
    decreases |steps|
  {
    if steps == [] then p else After(Next(p, oracle, steps[0]), oracle, steps[1..])
  }

  lemma {:induction false} RunKeepsInv(p: Pool, oracle: Oracle, steps: seq<Step>)
    requires PoolInv(p, oracle) && Legal(p, oracle, steps)
    ensures PoolInv(After(p, oracle, steps), oracle)
    decreases |steps|
  {
    hide PoolInv, Next, Enabled;
    if steps != [] {
      StepKeepsInv(p, oracle, steps[0]);
      RunKeepsInv(Next(p, oracle, steps[0]), oracle, steps[1..]);
    }
  }

  /** What a handle's channel has carried so far, and when it is closed. */
  ghost predicate Delivery(p: Pool, oracle: Oracle, t: nat)
    requires t < |p.tickets|
  {
    var tk := p.tickets[t];
    && |tk.result.sent| <= 1 && tk.result.closes <= |tk.result.sent| && tk.result.taken <= |tk.result.sent|
    && tk.calls <= 1
    && (tk.stage.Answered? <==> tk.result.closes == 1)
    && (tk.result.sent != [] ==>
          AnswerOK(oracle, tk.job, tk.calls, tk.job.ctx in p.cancelled, p.signal, tk.result.sent[0]))
  }

  lemma InvMeansDelivery(p: Pool, oracle: Oracle, t: nat)
    requires PoolInv(p, oracle) && t < |p.tickets|
    ensures Delivery(p, oracle, t)
  {
    hide RunOK, ResultOK;
    assert TicketOK(p, oracle, t);
  }

  /**
   * Exactly-once delivery, on every interleaving of submissions, workers, cancellations and
   * closes: no channel is sent to after it was closed or closed twice, each handle gets at most
   * one result and one close, and one of each once it is answered; its job function is called
   * at most once, and not at all if the pool answered for it.
   */
  lemma DeliveredExactlyOnce(size: nat, oracle: Oracle, steps: seq<Step>, t: nat)
    requires Legal(NewPool(size), oracle, steps)
    ensures !After(NewPool(size), oracle, steps).crashed
    ensures t < |After(NewPool(size), oracle, steps).tickets| ==> Delivery(After(NewPool(size), oracle, steps), oracle, t)
  {
    StartInv(size, oracle);
    RunKeepsInv(NewPool(size), oracle, steps);
    hide Delivery, NewPool, After, Legal;
    var p := After(NewPool(size), oracle, steps);
    if t < |p.tickets| {
      InvMeansDelivery(p, oracle, t);
    }
  }

  /** An answered handle keeps its answer. */
  lemma AnswerIsFinal(p: Pool, oracle: Oracle, step: Step, t: nat)
    requires PoolInv(p, oracle) && Enabled(p, step) && At(p, t, Answered)
    ensures var p' := Next(p, oracle, step);
      && At(p', t, Answered)
      && p'.tickets[t].job == p.tickets[t].job
      && p'.tickets[t].result.sent == p.tickets[t].result.sent
      && (!step.Receive? ==> p'.tickets[t] == p.tickets[t])
  {
    hide RunOK, AnswerOK, StepRun, StartRun;
    if step.Work? {
      assert WorkerOK(p, step.w);
    }
  }

  lemma {:induction false} AnswersAreFinal(p: Pool, oracle: Oracle, steps: seq<Step>, t: nat)
    requires PoolInv(p, oracle) && Legal(p, oracle, steps) && At(p, t, Answered)
    ensures At(After(p, oracle, steps), t, Answered)
    ensures After(p, oracle, steps).tickets[t].result.sent == p.tickets[t].result.sent
    decreases |steps|
  {
    hide PoolInv, Next, Enabled;
    if steps != [] {
      StepKeepsInv(p, oracle, steps[0]);
      AnswerIsFinal(p, oracle, steps[0], t);
      AnswersAreFinal(Next(p, oracle, steps[0]), oracle, steps[1..], t);
    }
  }

  /** What no step changes about a ticket: its job, what was sent, and that its handle was returned. */
  predicate Evolves(tk: Ticket, tk': Ticket) {
    && tk'.job == tk.job
    && tk.result.sent <= tk'.result.sent
    && (tk.Returned() ==> tk'.Returned())
    && tk.result.taken <= tk'.result.taken
  }

  lemma WorkEvolves(p: Pool, oracle: Oracle, w: nat)
    requires Enabled(p, Work(w))
    ensures var p', t := Next(p, oracle, Work(w)), p.workers[w].ticket;
      Evolves(p.tickets[t], p'.tickets[t]) && p'.tickets[t].result.taken == p.tickets[t].result.taken
  {
    WorkIsLocal(p, oracle, w);
    match p.workers[w].task
    case Received => hide StepRun, StartRun, ResultOf;
    case Running(_) => hide StepRun, StartRun, ResultOf;
    case Finished(_) => hide StepRun, StartRun, ResultOf;
    case Closing => hide StepRun, StartRun, ResultOf;
  }

  lemma TicketEvolves(p: Pool, oracle: Oracle, step: Step, t: nat)
    requires Enabled(p, step) && t < |p.tickets|
    ensures var p' := Next(p, oracle, step);
      && t < |p'.tickets| && Evolves(p.tickets[t], p'.tickets[t])
      && (step != Receive(t) ==> p'.tickets[t].result.taken == p.tickets[t].result.taken)
  {
    if step.Work? {
      WorkIsLocal(p, oracle, step.w);
      WorkEvolves(p, oracle, step.w);
      hide Next, Evolves;
    } else {
      hide WorkNext;
    }
  }

  lemma CancelledGrows(p: Pool, oracle: Oracle, step: Step)
    requires Enabled(p, step)
    ensures p.cancelled <= Next(p, oracle, step).cancelled
    ensures p.signal ==> Next(p, oracle, step).signal
  {
    if step.Work? {
      WorkIsLocal(p, oracle, step.w);
    }
    hide WorkNext;
  }

  /** The pool is closed or the context done, and the submission is not past its select: its job is never called. */
  ghost predicate TurnedAway(p: Pool, t: nat) {
    && t < |p.tickets| && (p.signal || p.tickets[t].job.ctx in p.cancelled) && p.tickets[t].calls == 0
    && !p.tickets[t].stage.Sending? && !p.tickets[t].stage.Taken?
  }

  lemma {:induction false} LateSubmissionNeverRuns(p: Pool, oracle: Oracle, steps: seq<Step>, t: nat)
    requires PoolInv(p, oracle) && TurnedAway(p, t) && Legal(p, oracle, steps)
    ensures TurnedAway(After(p, oracle, steps), t)
    decreases |steps|
  {
    hide PoolInv, Next, Enabled, TurnedAway;
    if steps != [] {
      StepKeepsInv(p, oracle, steps[0]);
      StaysTurnedAway(p, oracle, steps[0], t);
      LateSubmissionNeverRuns(Next(p, oracle, steps[0]), oracle, steps[1..], t);
    }
  }

  lemma StaysTurnedAway(p: Pool, oracle: Oracle, step: Step, t: nat)
    requires PoolInv(p, oracle) && TurnedAway(p, t) && Enabled(p, step)
    ensures TurnedAway(Next(p, oracle, step), t)
  {
    hide RunOK, AnswerOK, StepRun, StartRun, ResultOf, LiveCount;
    if step.Work? {
      assert WorkerOK(p, step.w);
    }
  }

  // ---------------------------------------------------------------------------------------------
  // Cancellation: what it leaves a job to answer.

  /**
   * The only answer left to a job once its context is done: its run, if it has got to `started`,
   * stops there, and its function is not called otherwise.
   */
  function CancelledAnswer(started: Option<RunState>): JobResult {
    match started
    case None => JobResult(Some(ContextDone), [], None)
    case Some(rs) => JobResult(Some(ContextDone), [], Some(rs.summary.(err := Some(ContextDone))))
  }

  /** The run is where it was when the context was done, or stopped there: no further system was called. */
  predicate StandsStill(rs: RunState, rs': RunState) {
    && rs'.next == rs.next && rs'.calls == rs.calls && rs'.buf == rs.buf
    && rs'.summary == if rs'.done then rs.summary.(err := Some(ContextDone)) else rs.summary
  }

  predicate TaskHalted(job: Job, started: Option<RunState>, task: Task) {
    match task
    case Received => started.None?
    case Running(rs) => started.Some? && StandsStill(started.value, rs) && rs.next < |job.group.systems|
    case Finished(res) => res == CancelledAnswer(started)
    case Closing => true
  }

  /** The context of the job is done, and its worker has it received or, if `started`, running. */
  ghost predicate Halted(p: Pool, t: nat, started: Option<RunState>) {
    && t < |p.tickets|
    && var tk := p.tickets[t];
       && tk.job.ctx in p.cancelled
       && tk.calls == (if started.Some? then 1 else 0)
       && match tk.stage
          case Taken(w) =>
            && w < |p.workers| && p.workers[w].Busy? && p.workers[w].ticket == t && p.workers[w].job == tk.job
            && TaskHalted(tk.job, started, p.workers[w].task)
            && tk.result.sent == if p.workers[w].task.Closing? then [CancelledAnswer(started)] else []
          case Answered => tk.result.sent == [CancelledAnswer(started)]
          case _ => false
  }

  lemma HaltedWork(p: Pool, oracle: Oracle, w: nat, started: Option<RunState>)
    requires Enabled(p, Work(w)) && Halted(p, p.workers[w].ticket, started)
    requires At(p, p.workers[w].ticket, Taken(w))
    ensures Halted(Next(p, oracle, Work(w)), p.workers[w].ticket, started)
  {
    var worker := p.workers[w];
    match worker.task
    case Received => hide StepRun, StartRun, ResultOf;
    case Running(rs) =>
      if !rs.done {
        StepCancelled(worker.job.group, worker.job.tick, oracle, rs);
      }
      hide StepRun, StartRun;
    case Finished(_) => hide StepRun, StartRun, ResultOf;
    case Closing => hide StepRun, StartRun, ResultOf;
  }

  lemma StepCancelled(g: WorkGroup, tick: uint64, oracle: Oracle, rs: RunState)
    requires !rs.done && rs.next < |g.systems|
    ensures StepRun(g, tick, oracle, rs, true) == rs.(summary := rs.summary.(err := Some(ContextDone)), done := true)
  {
  }

  lemma StaysHalted(p: Pool, oracle: Oracle, step: Step, t: nat, started: Option<RunState>)
    requires PoolInv(p, oracle) && Halted(p, t, started) && Enabled(p, step)
    ensures Halted(Next(p, oracle, step), t, started)
  {
    hide RunOK, AnswerOK, StepRun, StartRun, ResultOf, LiveCount, TaskHalted, CancelledAnswer;
    if step.Work? {
      assert WorkerOK(p, step.w);
      if p.workers[step.w].ticket == t {
        HaltedWork(p, oracle, step.w, started);
      } else {
        WorkIsLocal(p, oracle, step.w);
        hide WorkNext;
      }
    } else {
      hide WorkNext;
    }
  }

  lemma {:induction false} RunStaysHalted(p: Pool, oracle: Oracle, steps: seq<Step>, t: nat, started: Option<RunState>)
    requires PoolInv(p, oracle) && Legal(p, oracle, steps) && Halted(p, t, started)
    ensures Halted(After(p, oracle, steps), t, started)
    decreases |steps|
  {
    hide PoolInv, Next, Enabled, Halted;
    if steps != [] {
      StepKeepsInv(p, oracle, steps[0]);
      StaysHalted(p, oracle, steps[0], t, started);
      RunStaysHalted(Next(p, oracle, steps[0]), oracle, steps[1..], t, started);
    }
  }

  /**
   * A job cancelled midway. Once its context is done while a worker is at `rs.next` of its run, no
   * continuation calls a further system, and the handle can only be answered the context's error,
   * no commands and the summary of the run stopped at `rs.next`.
   */
  lemma CancelledMidway(p: Pool, oracle: Oracle, steps: seq<Step>, t: nat, w: nat, rs: RunState)
    requires PoolInv(p, oracle) && Legal(p, oracle, steps) && At(p, t, Taken(w)) && p.tickets[t].job.ctx in p.cancelled
    requires w < |p.workers| && p.workers[w].Busy? && p.workers[w].task == Running(rs)
    requires !rs.done && rs.next < |p.tickets[t].job.group.systems|
    ensures var p' := After(p, oracle, steps);
      var job := p.tickets[t].job;
      && t < |p'.tickets| && p'.tickets[t].calls == 1
      && (At(p', t, Taken(w)) && w < |p'.workers| && p'.workers[w].Busy? && p'.workers[w].task.Running? ==>
            p'.workers[w].task.rs.calls == CallsBelow(job.group, job.tick, oracle, rs.next))
      && forall res :: res in p'.tickets[t].result.sent ==>
           res == JobResult(Some(ContextDone), [], Some(EndSummary(job.group, true, job.tick, oracle, rs.next, true)))
  {
    assert TicketOK(p, oracle, t);
    var job := p.tickets[t].job;
    StoppedSummary(oracle, job, rs);
    assert Halted(p, t, Some(rs));
    RunStaysHalted(p, oracle, steps, t, Some(rs));
    hide PoolInv, After, Legal, RunOK, EndSummary, CallsBelow;
  }

  /** The run stopped where it stands is the run of the group stopped at that position. */
  lemma StoppedSummary(oracle: Oracle, job: Job, rs: RunState)
    requires RunOK(oracle, job, true, rs) && !rs.done && rs.next < |job.group.systems|
    ensures rs.summary.(err := Some(ContextDone)) == EndSummary(job.group, true, job.tick, oracle, rs.next, true)
    ensures rs.calls == CallsBelow(job.group, job.tick, oracle, rs.next)
  {
    var g, polls := job.group, CancelledFrom(rs.next);
    RunGroupIsExact(g, true, job.tick, oracle, [], polls, 0);
    var n := StopAt(g, job.tick, oracle, polls, 0, 0);
    StopIsFirst(g, job.tick, oracle, polls, 0, 0, rs.next);
    StepCancelled(g, job.tick, oracle, rs);
    var end := RunUntil(oracle, job, rs.next);
    assert RunFrom(g, job.tick, oracle, rs, polls, rs.next).0 == end;
    assert polls(rs.next);
    RunFromStep(g, job.tick, oracle, rs, polls, rs.next);
    assert end == rs.(summary := rs.summary.(err := Some(ContextDone)), done := true);
    hide StopAt, StepRun, RunFrom, RunGroup, RunUntil, KeptCommands, CallsBelow, ExecutedBelow, FailsAt;
    assert end.summary.err == RunError(g, job.tick, oracle, n, polls(n));
    assert n == rs.next;
  }

  /** A job that no worker has called when its context is done is never called, at whatever stage it is. */
  lemma {:induction false} NeverCalled(p: Pool, oracle: Oracle, steps: seq<Step>, t: nat)
    requires PoolInv(p, oracle) && Legal(p, oracle, steps) && t < |p.tickets|
    requires p.tickets[t].job.ctx in p.cancelled && p.tickets[t].calls == 0
    ensures var p' := After(p, oracle, steps);
      && t < |p'.tickets| && p'.tickets[t].calls == 0
      && forall res :: res in p'.tickets[t].result.sent ==>
           res == JobResult(Some(ContextDone), [], None) || (p'.signal && res == JobResult(Some(PoolClosed), [], None))
    decreases |steps|
  {
    if steps == [] {
      InvMeansDelivery(p, oracle, t);
      hide PoolInv, ResultOK;
    } else {
      hide PoolInv, Next, Enabled;
      StepKeepsInv(p, oracle, steps[0]);
      StaysUncalled(p, oracle, steps[0], t);
      NeverCalled(Next(p, oracle, steps[0]), oracle, steps[1..], t);
    }
  }

  lemma StaysUncalled(p: Pool, oracle: Oracle, step: Step, t: nat)
    requires PoolInv(p, oracle) && Enabled(p, step) && t < |p.tickets|
    requires p.tickets[t].job.ctx in p.cancelled && p.tickets[t].calls == 0
    ensures var p' := Next(p, oracle, step);
      && t < |p'.tickets| && p'.tickets[t].job == p.tickets[t].job
      && p'.tickets[t].job.ctx in p'.cancelled && p'.tickets[t].calls == 0
  {
    hide RunOK, AnswerOK, StepRun, StartRun, ResultOf, LiveCount;
    if step.Work? {
      assert WorkerOK(p, step.w) && TicketOK(p, oracle, t);
    } else {
      hide WorkNext, PoolInv;
    }
  }

  /**
   * A job whose context is done when a worker has received it: its function is never called, and
   * the handle can only be answered the context's error.
   */
  lemma CancelledBeforeStart(p: Pool, oracle: Oracle, steps: seq<Step>, t: nat, w: nat)
    requires PoolInv(p, oracle) && Legal(p, oracle, steps) && At(p, t, Taken(w)) && p.tickets[t].job.ctx in p.cancelled
    requires w < |p.workers| && p.workers[w].Busy? && p.workers[w].task == Received
    ensures var p' := After(p, oracle, steps);
      && t < |p'.tickets| && p'.tickets[t].calls == 0
      && forall res :: res in p'.tickets[t].result.sent ==> res == JobResult(Some(ContextDone), [], None)
  {
    assert TicketOK(p, oracle, t);
    assert Halted(p, t, None);
    RunStaysHalted(p, oracle, steps, t, None);
    hide PoolInv, After, Legal;
  }

  /** With an open pool and a live context, the answer is what the job computes, whatever the workers did. */
  lemma UndisturbedAnswer(p: Pool, oracle: Oracle, t: nat)
    requires PoolInv(p, oracle) && t < |p.tickets| && p.tickets[t].result.sent != []
    requires !p.signal && p.tickets[t].job.ctx !in p.cancelled
    ensures p.tickets[t].result.sent[0] == Expected(oracle, p.tickets[t].job) && p.tickets[t].calls == 1
  {
    InvMeansDelivery(p, oracle, t);
    var tk := p.tickets[t];
    assert ResultOK(oracle, tk.job, false, tk.result.sent[0]);
    var rs :| EndedRun(oracle, tk.job, false, rs) && tk.result.sent[0] == ResultOf(rs);
    UncancelledAnswer(oracle, tk.job, rs);
  }

  /** Close returns only after every worker has exited. */
  lemma CloseWaitsForWorkers(p: Pool, oracle: Oracle, c: nat, w: nat)
    requires PoolInv(p, oracle) && c < |p.closers| && p.closers[c] == Back && w < |p.workers|
    ensures p.workers[w] == Exited && p.jobsClosed
  {
    hide TicketOK, WorkerOK;
    assert CloserOK(p, c);
    LiveUpdate(p.workers, w, Exited);
  }

  // ---------------------------------------------------------------------------------------------
  // Deadlock freedom and shutdown.

  /** Every handle is answered and every Close has returned. */
  ghost predicate Settled(p: Pool) {
    && (forall t: nat :: t < |p.tickets| ==> p.tickets[t].stage.Answered?)
    && (forall c: nat :: c < |p.closers| ==> p.closers[c].Back?)
  }

  /** A busy worker is never blocked, whether or not anyone waits on the handle it works for. */
  lemma BusyWorkerMoves(p: Pool, oracle: Oracle, w: nat)
    requires PoolInv(p, oracle) && w < |p.workers| && p.workers[w].Busy?
    ensures Enabled(p, Work(w))
  {
    hide AnswerOK;
    assert WorkerOK(p, w);
    assert TicketOK(p, oracle, p.workers[w].ticket);
  }

  /** The closer running the once can always go on. */
  lemma FirstCloserMoves(p: Pool, oracle: Oracle)
    requires PoolInv(p, oracle) && p.once.InUse?
    ensures Enabled(p, CloserMoves(p.once.closer))
  {
  }

  /** Someone can move on behalf of a worker that has not exited, if the pool is closed or it is not idle. */
  lemma WorkerMoves(p: Pool, oracle: Oracle, w: nat)
    requires PoolInv(p, oracle) && w < |p.workers| && !p.workers[w].Exited?
    requires p.workers[w].Idle? ==> p.signal
    ensures exists step: Step :: step.Internal() && Enabled(p, step)
  {
    if p.workers[w].Busy? {
      BusyWorkerMoves(p, oracle, w);
      assert Work(w).Internal();
    } else if p.workers[w].Idle? {
      assert Leave(w).Internal() && Enabled(p, Leave(w));
    } else {
      assert SignOff(w).Internal() && Enabled(p, SignOff(w));
    }
  }

  lemma TicketMoves(p: Pool, oracle: Oracle, t: nat)
    requires PoolInv(p, oracle) && |p.workers| > 0 && t < |p.tickets| && !p.tickets[t].stage.Answered?
    ensures exists step: Step :: step.Internal() && Enabled(p, step)
  {
    assert TicketOK(p, oracle, t) && WorkerOK(p, 0);
    hide AnswerOK;
    match p.tickets[t].stage
    case Selecting =>
      var choice := if p.signal then SawClosed else if p.tickets[t].job.ctx in p.cancelled then SawDone else SawNothing;
      assert Enabled(p, Select(t, choice)) && Select(t, choice).Internal();
    case Sending =>
      if p.jobsClosed {
        assert Enabled(p, SendFails(t)) && SendFails(t).Internal();
      } else if p.workers[0].Idle? {
        assert Enabled(p, HandOver(t, 0)) && HandOver(t, 0).Internal();
      } else if p.workers[0].Exited? {
        FirstCloserMoves(p, oracle);
        assert CloserMoves(p.once.closer).Internal();
      } else {
        WorkerMoves(p, oracle, 0);
      }
    case Rejecting(_) => assert Enabled(p, Reject(t)) && Reject(t).Internal();
    case ClosingOwn => assert Enabled(p, CloseOwn(t)) && CloseOwn(t).Internal();
    case Taken(w) => WorkerMoves(p, oracle, w);
  }

  lemma {:induction false} SomeoneLives(workers: seq<Worker>) returns (w: nat)
    requires LiveCount(workers) > 0
    ensures w < |workers| && !workers[w].Exited?
  {
    if !workers[0].Exited? {
      w := 0;
    } else {
      w := SomeoneLives(workers[1..]);
      w := w + 1;
    }
  }

  lemma CloserCanMove(p: Pool, oracle: Oracle, c: nat)
    requires PoolInv(p, oracle) && c < |p.closers| && !p.closers[c].Back?
    ensures exists step: Step :: step.Internal() && Enabled(p, step)
  {
    hide TicketOK, WorkerOK;
    assert CloserOK(p, c);
    if p.closers[c].Entering? && p.once.InUse? {
      FirstCloserMoves(p, oracle);
      assert CloserMoves(p.once.closer).Internal();
    } else if p.closers[c].Waiting? && p.live > 0 {
      var w := SomeoneLives(p.workers);
      WorkerMoves(p, oracle, w);
    } else {
      assert Enabled(p, CloserMoves(c)) && CloserMoves(c).Internal();
    }
  }

  /**
   * Deadlock freedom: while a handle is unanswered or a Close has not returned, the pool can
   * move by itself; no Wait is ever needed.
   */
  lemma NeverStuck(p: Pool, oracle: Oracle)
    requires PoolInv(p, oracle) && |p.workers| > 0 && !Settled(p)
    ensures exists step: Step :: step.Internal() && Enabled(p, step)
  {
    hide PoolInv;
    if t: nat :| t < |p.tickets| && !p.tickets[t].stage.Answered? {
      TicketMoves(p, oracle, t);
    } else {
      var c: nat :| c < |p.closers| && !p.closers[c].Back?;
      CloserCanMove(p, oracle, c);
    }
  }

  // ---------------------------------------------------------------------------------------------
  // The measure: the pool cannot go on by itself forever.

  function TicketRank(tk: Ticket): nat {
    match tk.stage
    case Selecting => |tk.job.group.systems| + 7
    case Sending => |tk.job.group.systems| + 6
    case Rejecting(_) => 2
    case ClosingOwn => 1
    case Taken(_) => 0
    case Answered => 0
  }

  function WorkerRank(worker: Worker): nat {
    match worker
    case Exited => 0
    case Leaving => 1
    case Idle => 2
    case Busy(_, _, Closing) => 3
    case Busy(_, _, Finished(_)) => 4
    case Busy(_, job, Running(rs)) =>
      if rs.done then 5 else 6 + if rs.next <= |job.group.systems| then |job.group.systems| - rs.next else 0
    case Busy(_, job, Received) => |job.group.systems| + 7
  }

  function CloserRank(closer: Closer): nat {
    match closer
    case Entering => 4
    case ClosingSignal => 3
    case ClosingJobs => 2
    case Waiting => 1
    case Back => 0
  }

  function Ranks<T>(rank: T -> nat, s: seq<T>): seq<nat> {
    seq(|s|, i requires 0 <= i < |s| => rank(s[i]))
  }

  function Total<T>(rank: T -> nat, s: seq<T>): nat {
    Sum(Ranks(rank, s))
  }

  lemma TotalUpdate<T>(rank: T -> nat, s: seq<T>, i: nat, x: T)
    requires i < |s|
    ensures Total(rank, s[i := x]) + rank(s[i]) == Total(rank, s) + rank(x)
  {
    assert Ranks(rank, s[i := x]) == Ranks(rank, s)[i := rank(x)];
    SumUpdate(Ranks(rank, s), i, rank(x));
  }

  /** An upper bound on the steps the pool can still take by itself. */
  function Measure(p: Pool): nat {
    Total(TicketRank, p.tickets) + Total(WorkerRank, p.workers) + Total(CloserRank, p.closers)
  }

  /** One ticket and one worker changed. */
  lemma MeasureChange(p: Pool, p': Pool, t: nat, w: nat)
    requires t < |p.tickets| && w < |p.workers| && p'.closers == p.closers
    requires |p'.tickets| == |p.tickets| && p'.tickets == p.tickets[t := p'.tickets[t]]
    requires |p'.workers| == |p.workers| && p'.workers == p.workers[w := p'.workers[w]]
    ensures Measure(p') + TicketRank(p.tickets[t]) + WorkerRank(p.workers[w])
         == Measure(p) + TicketRank(p'.tickets[t]) + WorkerRank(p'.workers[w])
  {
    TotalUpdate(TicketRank, p.tickets, t, p'.tickets[t]);
    TotalUpdate(WorkerRank, p.workers, w, p'.workers[w]);
    hide Total, TicketRank, WorkerRank;
  }

  lemma SubmitDecreases(p: Pool, oracle: Oracle, step: Step)
    requires Enabled(p, step) && (step.Select? || step.SendFails? || step.Reject? || step.CloseOwn?)
    ensures Measure(Next(p, oracle, step)) < Measure(p)
  {
    var p' := Next(p, oracle, step);
    TotalUpdate(TicketRank, p.tickets, step.t, p'.tickets[step.t]);
    assert p'.tickets == p.tickets[step.t := p'.tickets[step.t]];
    hide Total;
  }

  lemma WorkDecreases(p: Pool, oracle: Oracle, w: nat)
    requires Enabled(p, Work(w))
    ensures Measure(Next(p, oracle, Work(w))) < Measure(p)
  {
    var p', t := Next(p, oracle, Work(w)), p.workers[w].ticket;
    WorkIsLocal(p, oracle, w);
    WorkLowersRanks(p, oracle, w);
    assert p'.tickets == p.tickets[t := p'.tickets[t]];
    MeasureChange(p, p', t, w);
    hide Next, Measure, WorkerRank;
  }

  /** The worker's rank goes down and the ticket's does not go up. */
  predicate Lowered(p: Pool, p': Pool, t: nat, w: nat) {
    && t < |p.tickets| == |p'.tickets| && w < |p.workers| == |p'.workers|
    && p'.tickets[t].job == p.tickets[t].job
    && (p'.tickets[t].stage == p.tickets[t].stage || p'.tickets[t].stage == Answered)
    && WorkerRank(p'.workers[w]) < WorkerRank(p.workers[w])
  }

  lemma RunningLowers(p: Pool, oracle: Oracle, w: nat)
    requires Enabled(p, Work(w)) && p.workers[w].task.Running?
    ensures Lowered(p, Next(p, oracle, Work(w)), p.workers[w].ticket, w)
  {
    var job, rs := p.workers[w].job, p.workers[w].task.rs;
    if !rs.done {
      StepBounds(job.group, job.tick, oracle, rs, job.ctx in p.cancelled);
    }
    hide StepRun, StartRun, ResultOf, Send, CloseResult, Move;
  }

  lemma WorkLowersRanks(p: Pool, oracle: Oracle, w: nat)
    requires Enabled(p, Work(w))
    ensures Lowered(p, Next(p, oracle, Work(w)), p.workers[w].ticket, w)
  {
    match p.workers[w].task
    case Received => hide StepRun, ResultOf, Send, CloseResult;
    case Running(_) =>
      RunningLowers(p, oracle, w);
      hide Lowered, Next;
    case Finished(_) => hide StepRun, StartRun, ResultOf;
    case Closing => hide StepRun, StartRun, ResultOf;
  }

  lemma StepDecreases(p: Pool, oracle: Oracle, step: Step)
    requires Enabled(p, step) && step.Internal()
    ensures Measure(Next(p, oracle, step)) < Measure(p)
  {
    hide Total, LiveCount;
    match step
    case Select(_, _) => SubmitDecreases(p, oracle, step);
    case SendFails(_) => SubmitDecreases(p, oracle, step);
    case Reject(_) => SubmitDecreases(p, oracle, step);
    case CloseOwn(_) => SubmitDecreases(p, oracle, step);
    case HandOver(t, w) => MeasureChange(p, Next(p, oracle, step), t, w);
    case Leave(w) => TotalUpdate(WorkerRank, p.workers, w, Leaving);
    case SignOff(w) => TotalUpdate(WorkerRank, p.workers, w, Exited);
    case Work(w) => WorkDecreases(p, oracle, w);
    case CloserMoves(c) => TotalUpdate(CloserRank, p.closers, c, Next(p, oracle, step).closers[c]);
  }

  /** What one more submission adds to the measure. */
  lemma SubmitCost(p: Pool, oracle: Oracle, job: Job)
    ensures Measure(Next(p, oracle, NewSubmit(job))) == Measure(p) + |job.group.systems| + 7
  {
    var tk := Ticket(job, Selecting, UNUSED, 0);
    assert Ranks(TicketRank, p.tickets + [tk]) == Ranks(TicketRank, p.tickets) + [TicketRank(tk)];
    SumAppend(Ranks(TicketRank, p.tickets), TicketRank(tk));
  }

  /** What one more Close adds to the measure. */
  lemma CloseCost(p: Pool, oracle: Oracle)
    ensures Measure(Next(p, oracle, NewClose)) == Measure(p) + 4
  {
    assert Ranks(CloserRank, p.closers + [Entering]) == Ranks(CloserRank, p.closers) + [CloserRank(Entering)];
    SumAppend(Ranks(CloserRank, p.closers), CloserRank(Entering));
  }

  /** Receiving a result costs the pool nothing. */
  lemma ReceiveCost(p: Pool, oracle: Oracle, t: nat)
    requires Enabled(p, Receive(t))
    ensures Measure(Next(p, oracle, Receive(t))) == Measure(p)
  {
    TotalUpdate(TicketRank, p.tickets, t, Next(p, oracle, Receive(t)).tickets[t]);
    hide Total;
  }

  /** The steps of the pool's own that a caller's arrival can make necessary. */
  function ArrivalCost(step: Step): nat {
    match step
    case NewSubmit(job) => |job.group.systems| + 7
    case NewClose => 4
    case _ => 0
  }

  lemma StepCost(p: Pool, oracle: Oracle, step: Step)
    requires Enabled(p, step)
    ensures Measure(Next(p, oracle, step)) + (if step.Internal() then 1 else 0) <= Measure(p) + ArrivalCost(step)
  {
    if step.Internal() {
      StepDecreases(p, oracle, step);
    } else {
      match step {
        case NewSubmit(job) => SubmitCost(p, oracle, job);
        case NewClose => CloseCost(p, oracle);
        case Receive(t) => ReceiveCost(p, oracle, t);
        case Cancel(_) => hide Total;
      }
    }
    hide Next, Measure;
  }

  function OwnSteps(steps: seq<Step>): nat {
    if steps == [] then 0 else (if steps[0].Internal() then 1 else 0) + OwnSteps(steps[1..])
  }

  function ArrivalCosts(steps: seq<Step>): nat {
    if steps == [] then 0 else ArrivalCost(steps[0]) + ArrivalCosts(steps[1..])
  }

  /**
   * On every run, with callers submitting, closing, cancelling and waiting at any time, the
   * pool's own steps are bounded by the measure and what the arrivals add to it; and where no step
   * of its own is left every handle is answered and every Close has returned.
   */
  lemma {:induction false} RunsAreBounded(p: Pool, oracle: Oracle, steps: seq<Step>)
    requires PoolInv(p, oracle) && |p.workers| > 0 && Legal(p, oracle, steps)
    ensures OwnSteps(steps) + Measure(After(p, oracle, steps)) <= Measure(p) + ArrivalCosts(steps)
    ensures Settled(After(p, oracle, steps))
      || exists step: Step :: step.Internal() && Enabled(After(p, oracle, steps), step)
    decreases |steps|
  {
    hide PoolInv, Next, Enabled, Measure, Settled, ArrivalCost;
    if steps == [] {
      if !Settled(p) {
        NeverStuck(p, oracle);
      }
    } else {
      StepKeepsInv(p, oracle, steps[0]);
      StepCost(p, oracle, steps[0]);
      SameWorkers(p, oracle, steps[0]);
      RunsAreBounded(Next(p, oracle, steps[0]), oracle, steps[1..]);
    }
  }

  lemma SameWorkers(p: Pool, oracle: Oracle, step: Step)
    requires Enabled(p, step)
    ensures |Next(p, oracle, step).workers| == |p.workers|
  {
    if step.Work? {
      WorkIsLocal(p, oracle, step.w);
    }
    hide WorkNext;
  }
}
