/**
 * A tick with worker goroutines: the driver thread and the pool as one transition system. Whatever
 * the schedule, a tick that returns is a tick in the sense of `TickGiven`.
 */
module ConcurrentTick {
  import opened Prelude
  import opened Intervals
  import opened Commands
  import opened WorkGroups
  import opened TickSpec
  import WP = WorkerPool

  /** Where the driver of a tick stands. */
  datatype Driver =
    | Looping(ph: Phase1)
    | InSync(ph: Phase1, rs: RunState, checks: nat)
    | Submitting(ph: Phase1, t: nat)
    | Collecting(ph: Phase1, st: Phase2)
    | Returned(ph: Phase1, out: Outcome)

  /** What a tick is given: its start, its context and the systems. */
  datatype Setup = Setup(s: Start, ctx: WP.ContextID, oracle: Oracle)

  /** The driver, its handles, what it has observed, and the pool. */
  datatype Machine = Machine(driver: Driver,
                             handles: seq<nat>,
                             seen: seq<bool>,
                             received: seq<JobResult>,
                             pool: WP.Pool)

  datatype Step = Drive | PoolStep(step: WP.Step)

  function Enter(pool: WP.Pool): Machine {
    Machine(Looping(Begin(0)), [], [], [], pool)
  }

  /** The job the driver submits for an async group. */
  function JobFor(c: Setup, g: WorkGroup): WP.Job {
    WP.Job(c.ctx, g, c.s.tick)
  }

  predicate Done(c: Setup, m: Machine) {
    c.ctx in m.pool.cancelled
  }

  /** A handle whose result can be received now. */
  predicate Ready(m: Machine, k: nat) {
    && k < |m.handles| && m.handles[k] < |m.pool.tickets|
    && WP.Enabled(m.pool, WP.Receive(m.handles[k]))
  }

  predicate CanDrive(c: Setup, m: Machine) {
    match m.driver
    case Looping(ph) => ph.next <= |c.s.groups|
    case InSync(ph, rs, _) => ph.next < |c.s.groups| && rs.next <= |c.s.groups[ph.next].systems|
    case Submitting(ph, t) => ph.next < |c.s.groups| && t < |m.pool.tickets| && m.pool.tickets[t].Returned()
    case Collecting(ph, st) => st.exit.Some? || st.next == |ph.handles| || (st.next < |ph.handles| && Ready(m, st.next))
    case Returned(_, _) => false
  }

  /** Handles are received from by the driver alone. */
  predicate Enabled(c: Setup, m: Machine, step: Step) {
    match step
    case Drive => CanDrive(c, m)
    case PoolStep(ps) => WP.Enabled(m.pool, ps) && (ps.Receive? ==> !Owned(m, ps.t))
  }

  predicate Owned(m: Machine, t: nat) {
    t in m.handles || (m.driver.Submitting? && m.driver.t == t)
  }

  ghost function Next(c: Setup, m: Machine, step: Step): Machine
    requires Enabled(c, m, step)
  {
    match step
    case Drive => DriveNext(c, m)
    case PoolStep(ps) => m.(pool := WP.Next(m.pool, c.oracle, ps))
  }

  /** Back to the loop, or out of the tick if the turn ended it. */
  function AfterTurn(c: Setup, ph: Phase1): Driver {
    if ph.exit.Some? then Returned(ph, Stopped(c.s, ph.exit.value, c.s.world, [], ph.published)) else Looping(ph)
  }

  ghost function DriveNext(c: Setup, m: Machine): Machine
    requires CanDrive(c, m)
  {
    match m.driver
    case Looping(ph) => LoopNext(c, m, ph)
    case InSync(ph, rs, checks) => SyncNext(c, m, ph, rs, checks)
    case Submitting(ph, t) =>
      m.(driver := Looping(Dispatched(c, ph)), handles := m.handles + [t])
    case Collecting(ph, st) => CollectNext(c, m, ph, st)
  }

  function Dispatched(c: Setup, ph: Phase1): Phase1
    requires ph.next < |c.s.groups|
  {
    ph.(next := ph.next + 1, handles := ph.handles + [c.s.groups[ph.next]])
  }

  /** The head of the group loop: check the context, then skip, dispatch or run. */
  function LoopNext(c: Setup, m: Machine, ph: Phase1): Machine
    requires ph.next <= |c.s.groups|
  {
    if ph.next == |c.s.groups| then
      m.(driver := Collecting(ph, Phase2(0, c.s.world, [], ph.executed, ph.published, None)))
    else
      var g, m', ph' := c.s.groups[ph.next], m.(seen := m.seen + [Done(c, m)]), ph.(checks := ph.checks + 1);
      if Done(c, m) then m'.(driver := AfterTurn(c, ph'.(exit := Some(ContextDone))))
      else if !ShouldRun(c.s.tick, g.interval) then m'.(driver := Looping(ph'.(next := ph.next + 1)))
      else if g.mode.Async? then
        m'.(driver := Submitting(ph', |m.pool.tickets|), pool := WP.Next(m.pool, c.oracle, WP.NewSubmit(JobFor(c, g))))
      else m'.(driver := InSync(ph, StartRun(g, false, c.s.tick, ph.buf), ph.checks + 1))
  }

  /** One system of a synchronized group, or the end of its turn. */
  function SyncNext(c: Setup, m: Machine, ph: Phase1, rs: RunState, checks: nat): Machine
    requires ph.next < |c.s.groups| && rs.next <= |c.s.groups[ph.next].systems|
  {
    var g := c.s.groups[ph.next];
    if rs.done then m.(driver := AfterTurn(c, AfterSync(g, ph, rs, checks)))
    else if rs.next == |g.systems| then m.(driver := InSync(ph, rs.(done := true), checks))
    else
      m.(driver := InSync(ph, StepRun(g, c.s.tick, c.oracle, rs, Done(c, m)), checks + 1),
         seen := m.seen + [Done(c, m)])
  }

  /** Receive and apply the next result, or apply the shared buffer and return. */
  ghost function CollectNext(c: Setup, m: Machine, ph: Phase1, st: Phase2): Machine
    requires st.exit.Some? || st.next == |ph.handles| || (st.next < |ph.handles| && Ready(m, st.next))
  {
    if st.exit.Some? || st.next == |ph.handles| then m.(driver := Returned(ph, Commit(c.s, ph.buf, st)))
    else
      var t := m.handles[st.next];
      var answer := m.pool.tickets[t].result.sent[m.pool.tickets[t].result.taken];
      m.(driver := Collecting(ph, Collect(ph.handles[st.next], answer, st)),
         received := m.received + [answer],
         pool := WP.Next(m.pool, c.oracle, WP.Receive(t)))
  }

  // ---------------------------------------------------------------------------------------------
  // What the rest of a tick comes to, given what its checks and handles will answer.

  /** The driver's own bookkeeping is in order. */
  ghost predicate Shape(c: Setup, d: Driver) {
    && |d.ph.handles| <= |c.s.groups|
    && match d
       case Looping(ph) => ph.next <= |c.s.groups| && ph.exit.None? && |ph.handles| <= ph.next
       case InSync(ph, rs, _) =>
         && ph.next < |c.s.groups| && ph.exit.None? && |ph.handles| <= ph.next
         && rs.next <= |c.s.groups[ph.next].systems|
       case Submitting(ph, _) => ph.next < |c.s.groups| && ph.exit.None? && |ph.handles| <= ph.next
       case Collecting(ph, st) => ph.exit.None? && st.next <= |ph.handles|
       case Returned(ph, _) => true
  }

  /** How the first phase will end. */
  function Foreseen(c: Setup, d: Driver, polls: Polls): Phase1
    requires Shape(c, d)
  {
    match d
    case Looping(ph) => Turns(c.s, c.oracle, false, ph, polls)
    case InSync(ph, rs, checks) =>
      var g := c.s.groups[ph.next];
      var (rs', checks') := RunFrom(g, c.s.tick, c.oracle, rs, polls, checks);
      Turns(c.s, c.oracle, false, AfterSync(g, ph, rs', checks'), polls)
    case Submitting(ph, _) => Turns(c.s, c.oracle, false, Dispatched(c, ph), polls)
    case Collecting(ph, _) => ph
    case Returned(ph, _) => ph
  }

  lemma ForeseenBounded(c: Setup, d: Driver, polls: Polls)
    requires Shape(c, d)
    ensures |Foreseen(c, d, polls).handles| <= |c.s.groups|
  {
    hide RunFrom;
    match d
    case Looping(ph) => HandlesBounded(c.s, c.oracle, false, ph, polls);
    case InSync(ph, rs, checks) =>
      var g := c.s.groups[ph.next];
      var (rs', checks') := RunFrom(g, c.s.tick, c.oracle, rs, polls, checks);
      HandlesBounded(c.s, c.oracle, false, AfterSync(g, ph, rs', checks'), polls);
    case Submitting(ph, _) => HandlesBounded(c.s, c.oracle, false, Dispatched(c, ph), polls);
    case Collecting(_, _) =>
    case Returned(_, _) =>
  }

  /** How the tick will end. */
  ghost function Predict(c: Setup, d: Driver, polls: Polls, answers: seq<JobResult>): Outcome
    requires Shape(c, d) && |c.s.groups| <= |answers|
  {
    ForeseenBounded(c, d, polls);
    match d
    case Collecting(ph, st) => Commit(c.s, ph.buf, CollectAll(ph.handles, answers, st))
    case Returned(_, out) => out
    case _ => AfterGroups(c.s, Foreseen(c, d, polls), answers)
  }

  /** The number of checks the driver has made. */
  function Checks(d: Driver): nat {
    if d.InSync? then d.checks else d.ph.checks
  }

  /** `polls` and `answers` agree with what the driver has observed so far. */
  ghost predicate Agree(m: Machine, polls: Polls, answers: seq<JobResult>) {
    && (forall i :: 0 <= i < |m.seen| ==> polls(i) == m.seen[i])
    && |m.received| <= |answers|
    && (forall k :: 0 <= k < |m.received| ==> answers[k] == m.received[k])
  }

  /** The driver's observations are as many as its bookkeeping says. */
  ghost predicate Recorded(m: Machine) {
    && |m.seen| == Checks(m.driver)
    && (m.driver.Collecting? ==>
          |m.received| == m.driver.st.next + if m.driver.st.exit.Some? then 1 else 0)
    && (!m.driver.Collecting? && !m.driver.Returned? ==> m.received == [])
  }

  /** A driver step that only adds to what `polls` and `answers` must agree with. */
  ghost predicate Foretold(c: Setup, d: Driver, d': Driver, polls: Polls, answers: seq<JobResult>)
    requires |c.s.groups| <= |answers| && Shape(c, d)
  {
    && Shape(c, d')
    && Foreseen(c, d', polls) == Foreseen(c, d, polls)
    && Predict(c, d', polls, answers) == Predict(c, d, polls, answers)
  }

  lemma EndOfTurn(c: Setup, ph: Phase1, polls: Polls, answers: seq<JobResult>)
    requires |c.s.groups| <= |answers| && |ph.handles| <= |c.s.groups|
    requires if ph.exit.Some? then ph.next <= |c.s.groups| else |ph.handles| <= ph.next <= |c.s.groups|
    ensures var d := AfterTurn(c, ph);
      && Shape(c, d) && Foreseen(c, d, polls) == Turns(c.s, c.oracle, false, ph, polls)
      && |Foreseen(c, d, polls).handles| <= |c.s.groups|
      && Predict(c, d, polls, answers) == AfterGroups(c.s, Foreseen(c, d, polls), answers)
  {
    hide Turn, Commit, CollectAll;
    ForeseenBounded(c, AfterTurn(c, ph), polls);
  }

  lemma LoopForetold(c: Setup, m: Machine, polls: Polls, answers: seq<JobResult>)
    requires m.driver.Looping? && Shape(c, m.driver) && CanDrive(c, m) && Recorded(m)
    requires |c.s.groups| <= |answers| && Agree(DriveNext(c, m), polls, answers)
    ensures var m' := DriveNext(c, m);
      Recorded(m') && Agree(m, polls, answers) && Foretold(c, m.driver, m'.driver, polls, answers)
  {
    hide RunFrom, ShouldRun, Commit, CollectAll, WP.Next, WP.Enabled;
    var ph, m' := m.driver.ph, DriveNext(c, m);
    ForeseenBounded(c, m.driver, polls);
    if ph.next < |c.s.groups| {
      assert polls(ph.checks) == Done(c, m) by {
        assert m'.seen[|m.seen|] == Done(c, m);
      }
      if Done(c, m) {
        EndOfTurn(c, Turn(c.s, c.oracle, false, ph, polls), polls, answers);
      } else {
        ForeseenBounded(c, m'.driver, polls);
      }
    }
  }

  lemma SyncForetold(c: Setup, m: Machine, polls: Polls, answers: seq<JobResult>)
    requires m.driver.InSync? && Shape(c, m.driver) && CanDrive(c, m) && Recorded(m)
    requires |c.s.groups| <= |answers| && Agree(DriveNext(c, m), polls, answers)
    ensures var m' := DriveNext(c, m);
      Recorded(m') && Agree(m, polls, answers) && Foretold(c, m.driver, m'.driver, polls, answers)
  {
    hide StepRun, ShouldRun, Commit, CollectAll, Turns, WP.Next, WP.Enabled;
    var ph, rs, m' := m.driver.ph, m.driver.rs, DriveNext(c, m);
    var g := c.s.groups[ph.next];
    ForeseenBounded(c, m.driver, polls);
    if rs.done {
      EndOfTurn(c, AfterSync(g, ph, rs, m.driver.checks), polls, answers);
    } else if rs.next < |g.systems| {
      assert polls(m.driver.checks) == Done(c, m) by {
        assert m'.seen[|m.seen|] == Done(c, m);
      }
      WP.StepBounds(g, c.s.tick, c.oracle, rs, Done(c, m));
      ForeseenBounded(c, m'.driver, polls);
    }
  }

  lemma CollectForetold(c: Setup, m: Machine, polls: Polls, answers: seq<JobResult>)
    requires m.driver.Collecting? && Shape(c, m.driver) && CanDrive(c, m) && Recorded(m)
    requires |c.s.groups| <= |answers| && Agree(DriveNext(c, m), polls, answers)
    ensures var m' := DriveNext(c, m);
      Recorded(m') && Agree(m, polls, answers) && Foretold(c, m.driver, m'.driver, polls, answers)
  {
    hide Collect, Commit, WP.Next, WP.Enabled;
    var ph, st, m' := m.driver.ph, m.driver.st, DriveNext(c, m);
    if st.exit.None? && st.next < |ph.handles| {
      var answer := m'.received[st.next];
      assert answers[st.next] == answer;
      CollectMoves(ph.handles[st.next], answer, st);
    }
  }

  lemma CollectMoves(g: WorkGroup, answer: JobResult, st: Phase2)
    requires st.exit.None?
    ensures var st' := Collect(g, answer, st);
      st'.next == if st'.exit.None? then st.next + 1 else st.next
  {
    hide ApplyAll;
  }

  /** No step of the driver changes how the tick will end, given what it observes. */
  lemma DriveForetold(c: Setup, m: Machine, polls: Polls, answers: seq<JobResult>)
    requires Shape(c, m.driver) && CanDrive(c, m) && Recorded(m)
    requires |c.s.groups| <= |answers| && Agree(DriveNext(c, m), polls, answers)
    ensures var m' := DriveNext(c, m);
      Recorded(m') && Agree(m, polls, answers) && Foretold(c, m.driver, m'.driver, polls, answers)
  {
    match m.driver
    case Looping(_) => LoopForetold(c, m, polls, answers);
    case InSync(_, _, _) => SyncForetold(c, m, polls, answers);
    case Submitting(_, _) =>
      hide Turns, Commit;
      ForeseenBounded(c, DriveNext(c, m).driver, polls);
    case Collecting(_, _) => CollectForetold(c, m, polls, answers);
  }

  // ---------------------------------------------------------------------------------------------
  // The invariant of the whole system.

  /** Handle `k` is the ticket of the `k`-th dispatched group; what was received is what was sent. */
  ghost predicate HandleOK(c: Setup, m: Machine, k: nat)
    requires k < |m.handles| == |m.driver.ph.handles|
  {
    && m.handles[k] < |m.pool.tickets|
    && var tk := m.pool.tickets[m.handles[k]];
       && tk.Returned() && tk.job == JobFor(c, m.driver.ph.handles[k])
       && if k < |m.received| then tk.result.sent != [] && tk.result.sent[0] == m.received[k]
          else tk.result.taken == 0
  }

  ghost predicate SubmissionOK(c: Setup, m: Machine)
    requires Shape(c, m.driver)
  {
    m.driver.Submitting? ==>
      && m.driver.t < |m.pool.tickets| && m.driver.t !in m.handles
      && m.pool.tickets[m.driver.t].job == JobFor(c, c.s.groups[m.driver.ph.next])
      && m.pool.tickets[m.driver.t].result.taken == 0
  }

  ghost predicate MachineInv(c: Setup, m: Machine) {
    && WP.PoolInv(m.pool, c.oracle)
    && Shape(c, m.driver) && Recorded(m)
    && |m.handles| == |m.driver.ph.handles| && NoDup(m.handles) && |m.received| <= |m.handles|
    && (forall k: nat :: k < |m.handles| ==> HandleOK(c, m, k))
    && SubmissionOK(c, m)
    && (true in m.seen ==> c.ctx in m.pool.cancelled)
  }

  lemma EnterInv(c: Setup, pool: WP.Pool)
    requires WP.PoolInv(pool, c.oracle)
    ensures MachineInv(c, Enter(pool))
  {
    hide WP.PoolInv;
  }

  lemma PoolStepKeepsInv(c: Setup, m: Machine, ps: WP.Step)
    requires MachineInv(c, m) && Enabled(c, m, PoolStep(ps))
    ensures MachineInv(c, Next(c, m, PoolStep(ps)))
  {
    var m' := Next(c, m, PoolStep(ps));
    WP.StepKeepsInv(m.pool, c.oracle, ps);
    hide WP.PoolInv, WP.Next, WP.Enabled;
    forall k: nat | k < |m.handles|
      ensures HandleOK(c, m', k)
    {
      assert HandleOK(c, m, k);
      WP.TicketEvolves(m.pool, c.oracle, ps, m.handles[k]);
    }
    if m.driver.Submitting? {
      WP.TicketEvolves(m.pool, c.oracle, ps, m.driver.t);
    }
    WP.CancelledGrows(m.pool, c.oracle, ps);
  }

  lemma LoopKeepsInv(c: Setup, m: Machine)
    requires MachineInv(c, m) && m.driver.Looping? && CanDrive(c, m)
    requires Shape(c, DriveNext(c, m).driver) && Recorded(DriveNext(c, m))
    ensures MachineInv(c, DriveNext(c, m))
  {
    hide WP.PoolInv, ShouldRun;
    var ph, m' := m.driver.ph, DriveNext(c, m);
    if m'.driver.Submitting? {
      WP.StepKeepsInv(m.pool, c.oracle, WP.NewSubmit(JobFor(c, c.s.groups[ph.next])));
    }
    forall k: nat | k < |m'.handles|
      ensures HandleOK(c, m', k)
    {
      assert HandleOK(c, m, k);
    }
    forall k: nat | k < |m.handles|
      ensures m.handles[k] < |m.pool.tickets|
    {
      assert HandleOK(c, m, k);
    }
  }

  lemma SyncKeepsInv(c: Setup, m: Machine)
    requires MachineInv(c, m) && m.driver.InSync? && CanDrive(c, m)
    requires Shape(c, DriveNext(c, m).driver) && Recorded(DriveNext(c, m))
    ensures MachineInv(c, DriveNext(c, m))
  {
    hide WP.PoolInv, StepRun;
    var m' := DriveNext(c, m);
    forall k: nat | k < |m'.handles|
      ensures HandleOK(c, m', k)
    {
      assert HandleOK(c, m, k);
    }
  }

  lemma SubmitKeepsInv(c: Setup, m: Machine)
    requires MachineInv(c, m) && m.driver.Submitting? && CanDrive(c, m)
    ensures MachineInv(c, DriveNext(c, m))
  {
    hide WP.PoolInv;
    var m' := DriveNext(c, m);
    forall k: nat | k < |m'.handles|
      ensures HandleOK(c, m', k)
    {
      if k < |m.handles| {
        assert HandleOK(c, m, k);
      }
    }
  }

  lemma CollectKeepsInv(c: Setup, m: Machine)
    requires MachineInv(c, m) && m.driver.Collecting? && CanDrive(c, m)
    requires Shape(c, DriveNext(c, m).driver) && Recorded(DriveNext(c, m))
    ensures MachineInv(c, DriveNext(c, m))
  {
    hide WP.PoolInv, Collect, Commit;
    var ph, st, m' := m.driver.ph, m.driver.st, DriveNext(c, m);
    if st.exit.None? && st.next < |ph.handles| {
      WP.StepKeepsInv(m.pool, c.oracle, WP.Receive(m.handles[st.next]));
      assert HandleOK(c, m, st.next);
    }
    forall k: nat | k < |m'.handles|
      ensures HandleOK(c, m', k)
    {
      assert HandleOK(c, m, k);
    }
  }

  // ---------------------------------------------------------------------------------------------
  // Every schedule.

  /** One step of any schedule keeps the invariant and the prediction. */
  lemma StepForetold(c: Setup, m: Machine, step: Step, polls: Polls, answers: seq<JobResult>)
    requires MachineInv(c, m) && Enabled(c, m, step)
    requires |c.s.groups| <= |answers| && Agree(Next(c, m, step), polls, answers)
    ensures var m' := Next(c, m, step);
      MachineInv(c, m') && Agree(m, polls, answers) && Foretold(c, m.driver, m'.driver, polls, answers)
  {
    match step
    case PoolStep(ps) =>
      PoolStepKeepsInv(c, m, ps);
      hide WP.PoolInv, WP.Next, WP.Enabled, Shape, Foreseen, Predict, HandleOK, SubmissionOK;
    case Drive =>
      hide WP.PoolInv, WP.Next, WP.Enabled, Foreseen, Predict;
      DriveForetold(c, m, polls, answers);
      match m.driver {
        case Looping(_) => LoopKeepsInv(c, m);
        case InSync(_, _, _) => SyncKeepsInv(c, m);
        case Submitting(_, _) => SubmitKeepsInv(c, m);
        case Collecting(_, _) => CollectKeepsInv(c, m);
      }
  }

  ghost predicate Legal(c: Setup, m: Machine, steps: seq<Step>)
    decreases |steps|
  {
    steps == [] || (Enabled(c, m, steps[0]) && Legal(c, Next(c, m, steps[0]), steps[1..]))
  }

  ghost function After(c: Setup, m: Machine, steps: seq<Step>): Machine
    requires Legal(c, m, steps)
    decreases |steps|
  {
    if steps == [] then m else After(c, Next(c, m, steps[0]), steps[1..])
  }

  lemma {:induction false} RunForetold(c: Setup, m: Machine, steps: seq<Step>, polls: Polls, answers: seq<JobResult>)
    requires MachineInv(c, m) && Legal(c, m, steps)
    requires |c.s.groups| <= |answers| && Agree(After(c, m, steps), polls, answers)
    ensures var m' := After(c, m, steps);
      MachineInv(c, m') && Agree(m, polls, answers) && Foretold(c, m.driver, m'.driver, polls, answers)
    decreases |steps|
  {
    hide WP.PoolInv, Next, Enabled, HandleOK, SubmissionOK, Shape, Foreseen, Predict, Recorded, Agree;
    if steps != [] {
      var m1 := Next(c, m, steps[0]);
      KeepsInv(c, m, steps[0]);
      RunForetold(c, m1, steps[1..], polls, answers);
      StepForetold(c, m, steps[0], polls, answers);
    }
  }

  /** The invariant alone, with the step's own observations for what is foretold. */
  lemma KeepsInv(c: Setup, m: Machine, step: Step)
    requires MachineInv(c, m) && Enabled(c, m, step)
    ensures MachineInv(c, Next(c, m, step))
  {
    var m' := Next(c, m, step);
    hide MachineInv, Next, Enabled;
    StepForetold(c, m, step, Observed(m'.seen), PadTo(m'.received, |c.s.groups|));
  }

  /** The answers of the checks made, and no cancellation after them. */
  function Observed(seen: seq<bool>): Polls {
    (i: nat) => i < |seen| && seen[i]
  }

  function PadTo(received: seq<JobResult>, n: nat): seq<JobResult> {
    received + seq(n, _ => JobResult(None, [], None))
  }

  /** The handles a driver has are answered as the pool promises. */
  lemma ReceivedAnswers(c: Setup, m: Machine, k: nat)
    requires MachineInv(c, m) && k < |m.received|
    ensures exists calls: nat ::
      WP.AnswerOK(c.oracle, JobFor(c, m.driver.ph.handles[k]), calls, Done(c, m), m.pool.signal, m.received[k])
    ensures !Done(c, m) && !m.pool.signal ==>
      m.received[k] == ExpectedResult(m.driver.ph.handles[k], c.s.tick, c.oracle)
  {
    assert HandleOK(c, m, k);
    var t := m.handles[k];
    WP.InvMeansDelivery(m.pool, c.oracle, t);
    if !Done(c, m) && !m.pool.signal {
      WP.UndisturbedAnswer(m.pool, c.oracle, t);
    }
    hide WP.PoolInv, WP.AnswerOK;
  }

  /** The ticket of a handle once it can only be answered as cancelled. */
  ghost predicate HandleHalted(m: Machine, k: nat, started: Option<RunState>) {
    k < |m.handles| && WP.Halted(m.pool, m.handles[k], started)
  }

  lemma StaysHalted(c: Setup, m: Machine, step: Step, k: nat, started: Option<RunState>)
    requires MachineInv(c, m) && Enabled(c, m, step) && HandleHalted(m, k, started)
    ensures HandleHalted(Next(c, m, step), k, started)
  {
    hide WP.PoolInv, WP.Next, WP.Halted, Shape, ShouldRun, StepRun, Commit, Collect, AfterSync, HandleOK;
    match step
    case PoolStep(ps) => WP.StaysHalted(m.pool, c.oracle, ps, m.handles[k], started);
    case Drive =>
      match m.driver {
        case Looping(ph) =>
          if ph.next < |c.s.groups| {
            WP.StaysHalted(m.pool, c.oracle, WP.NewSubmit(JobFor(c, c.s.groups[ph.next])), m.handles[k], started);
          }
        case Collecting(ph, st) =>
          if st.exit.None? && st.next < |ph.handles| {
            WP.StaysHalted(m.pool, c.oracle, WP.Receive(m.handles[st.next]), m.handles[k], started);
          }
        case _ =>
      }
  }

  lemma {:induction false} ScheduleStaysHalted(c: Setup, m: Machine, steps: seq<Step>, k: nat, started: Option<RunState>)
    requires MachineInv(c, m) && Legal(c, m, steps) && HandleHalted(m, k, started)
    ensures MachineInv(c, After(c, m, steps)) && HandleHalted(After(c, m, steps), k, started)
    decreases |steps|
  {
    hide MachineInv, Next, Enabled, HandleHalted;
    if steps != [] {
      KeepsInv(c, m, steps[0]);
      StaysHalted(c, m, steps[0], k, started);
      ScheduleStaysHalted(c, Next(c, m, steps[0]), steps[1..], k, started);
    }
  }

  /**
   * A job of the tick cancelled midway. If the context is done while a worker is at `rs.next` of
   * the run of handle `k`, then on no schedule does the driver receive anything else from it than the
   * context's error, no commands and the summary of the run stopped there.
   */
  lemma CancelledHandle(c: Setup, m: Machine, steps: seq<Step>, k: nat, w: nat, rs: RunState)
    requires MachineInv(c, m) && Legal(c, m, steps) && Done(c, m) && k < |m.handles|
    requires WP.At(m.pool, m.handles[k], WP.Taken(w)) && w < |m.pool.workers|
    requires m.pool.workers[w].Busy? && m.pool.workers[w].task == WP.Running(rs)
    requires !rs.done && rs.next < |m.driver.ph.handles[k].systems|
    ensures var g, received := m.driver.ph.handles[k], After(c, m, steps).received;
      k < |received| ==>
        received[k] == JobResult(Some(ContextDone), [], Some(EndSummary(g, true, c.s.tick, c.oracle, rs.next, true)))
  {
    assert HandleOK(c, m, k);
    HaltsMidway(c, m, k, w, rs);
    ScheduleStaysHalted(c, m, steps, k, Some(rs));
    var m' := After(c, m, steps);
    hide WP.PoolInv, After, Legal, EndSummary, Shape, Recorded;
    if k < |m'.received| {
      assert HandleOK(c, m', k);
      assert m'.received[k] in m'.pool.tickets[m'.handles[k]].result.sent;
    }
  }

  lemma HaltsMidway(c: Setup, m: Machine, k: nat, w: nat, rs: RunState)
    requires MachineInv(c, m) && Done(c, m) && k < |m.handles|
    requires WP.At(m.pool, m.handles[k], WP.Taken(w)) && w < |m.pool.workers|
    requires m.pool.workers[w].Busy? && m.pool.workers[w].task == WP.Running(rs)
    requires !rs.done && rs.next < |m.driver.ph.handles[k].systems|
    ensures HandleHalted(m, k, Some(rs))
    ensures rs.summary.(err := Some(ContextDone))
         == EndSummary(m.driver.ph.handles[k], true, c.s.tick, c.oracle, rs.next, true)
  {
    hide EndSummary, Shape, Recorded, WP.RunOK;
    assert HandleOK(c, m, k);
    assert WP.TicketOK(m.pool, c.oracle, m.handles[k]);
    WP.StoppedSummary(c.oracle, JobFor(c, m.driver.ph.handles[k]), rs);
  }

  /**
   * Every schedule of the driver, the workers and their environment that ends the tick, started
   * in any state of the pool, ends it as `TickGiven` says for the checks and results observed.
   */
  lemma EveryScheduleIsATick(c: Setup, pool: WP.Pool, steps: seq<Step>, polls: Polls, answers: seq<JobResult>)
    requires WP.PoolInv(pool, c.oracle) && Legal(c, Enter(pool), steps)
    requires After(c, Enter(pool), steps).driver.Returned?
    requires |c.s.groups| <= |answers| && Agree(After(c, Enter(pool), steps), polls, answers)
    ensures var end := After(c, Enter(pool), steps).driver;
      && end.ph == Turns(c.s, c.oracle, false, Begin(0), polls)
      && |end.ph.handles| <= |c.s.groups|
      && end.out == TickGiven(c.s, c.oracle, polls, 0, answers)
      && end.out == AfterGroups(c.s, end.ph, answers)
  {
    EnterInv(c, pool);
    RunForetold(c, Enter(pool), steps, polls, answers);
    hide WP.PoolInv, Legal, After, Turns, AfterGroups, MachineInv;
  }

  /**
   * The prefix law on every schedule, with cancellation and Close racing the tick: `answers` are
   * the results received, and anything for the handles that were given up.
   */
  lemma PrefixLawOnEverySchedule(c: Setup, pool: WP.Pool, steps: seq<Step>, answers: seq<JobResult>)
    requires WP.PoolInv(pool, c.oracle) && Legal(c, Enter(pool), steps)
    requires After(c, Enter(pool), steps).driver.Returned?
    requires |c.s.groups| <= |answers|
    requires Agree(After(c, Enter(pool), steps), Observed(After(c, Enter(pool), steps).seen), answers)
    ensures var end := After(c, Enter(pool), steps).driver;
      |end.ph.handles| <= |answers| && PrefixLaw(c.s, end.ph, answers, end.out)
  {
    var m := After(c, Enter(pool), steps);
    EveryScheduleIsATick(c, pool, steps, Observed(m.seen), answers);
    TickPrefixLaw(c.s, m.driver.ph, answers);
    hide WP.PoolInv, Legal, After, PrefixLaw, AfterGroups, TickGiven, Agree;
  }

  /** The results received, followed by what the other jobs compute. */
  function Completed(c: Setup, handles: seq<WorkGroup>): seq<JobResult> {
    PadTo(seq(|handles|, k requires 0 <= k < |handles| => ExpectedResult(handles[k], c.s.tick, c.oracle)), |c.s.groups|)
  }

  lemma NothingDisturbed(c: Setup, m: Machine)
    requires MachineInv(c, m) && !Done(c, m) && !m.pool.signal
    ensures Agree(m, NEVER, Completed(c, m.driver.ph.handles))
  {
    assert true !in m.seen;
    forall k: nat | k < |m.received|
      ensures Completed(c, m.driver.ph.handles)[k] == m.received[k]
    {
      ReceivedAnswers(c, m, k);
    }
    hide WP.PoolInv, HandleOK, ExpectedResult;
  }

  /**
   * Determinism: while the context is live and the pool open, every schedule that ends the tick
   * ends it with the world, error, tick index, last-run marks and summaries of the tick that runs
   * without workers.
   */
  lemma ScheduleDoesNotMatter(c: Setup, pool: WP.Pool, steps: seq<Step>, polls: Polls, checks: nat)
    requires WP.PoolInv(pool, c.oracle) && Legal(c, Enter(pool), steps)
    requires After(c, Enter(pool), steps).driver.Returned?
    requires !Done(c, After(c, Enter(pool), steps)) && !After(c, Enter(pool), steps).pool.signal
    requires Uncancelled(polls, checks)
    ensures After(c, Enter(pool), steps).driver.out == TickInline(c.s, c.oracle, polls, checks)
  {
    var m := After(c, Enter(pool), steps);
    EndInv(c, pool, steps);
    NothingDisturbed(c, m);
    var answers := Completed(c, m.driver.ph.handles);
    EveryScheduleIsATick(c, pool, steps, NEVER, answers);
    WorkersDoNotMatter(c.s, c.oracle, polls, checks, NEVER, answers);
    hide WP.PoolInv, Legal, After, MachineInv, TickGiven, TickInline, Turns;
  }

  lemma EndInv(c: Setup, pool: WP.Pool, steps: seq<Step>)
    requires WP.PoolInv(pool, c.oracle) && Legal(c, Enter(pool), steps)
    ensures MachineInv(c, After(c, Enter(pool), steps))
  {
    EnterInv(c, pool);
    var m := After(c, Enter(pool), steps);
    hide WP.PoolInv, Legal, After, MachineInv;
    RunForetold(c, Enter(pool), steps, Observed(m.seen), PadTo(m.received, |c.s.groups|));
  }

  /**
   * Successive ticks on one pool, each on a schedule of its own, with the outcomes they end in;
   * a tick that fails is the last.
   */
  ghost predicate Scheduled(c: Setup, pool: WP.Pool, schedules: seq<seq<Step>>, outs: seq<Outcome>)
    decreases |schedules|
  {
    |schedules| == |outs| &&
    (schedules == [] ||
      (Legal(c, Enter(pool), schedules[0]) &&
       var m := After(c, Enter(pool), schedules[0]);
       && m.driver.Returned? && m.driver.out == outs[0]
       && !Done(c, m) && !m.pool.signal
       && (outs[0].err.Some? ==> |outs| == 1)
       && (outs[0].err.None? ==> Scheduled(c.(s := Following(c.s, outs[0])), m.pool, schedules[1..], outs[1..]))))
  }

  /** A run of ticks has the same outcomes on every schedule: those of the run without workers. */
  lemma {:induction false} RunIsDeterministic(c: Setup, pool: WP.Pool, schedules: seq<seq<Step>>, outs: seq<Outcome>,
                                              waits: Waits, i: nat, checks: nat, n: nat)
    requires WP.PoolInv(pool, c.oracle) && Scheduled(c, pool, schedules, outs)
    requires |outs| == n || (0 < |outs| < n && outs[|outs| - 1].err.Some?)
    ensures outs == Ticks(c.s, c.oracle, true, waits, i, NEVER, checks, n)
    decreases |schedules|
  {
    hide WP.PoolInv, Legal, After, MachineInv, TickInline, ChecksAfter, Ticks, Following;
    FirstOutcome(c.s, c.oracle, waits, i, checks, n, outs);
    if schedules != [] {
      var m := After(c, Enter(pool), schedules[0]);
      ScheduleDoesNotMatter(c, pool, schedules[0], NEVER, checks);
      EndPool(c, pool, schedules[0]);
      if outs[0].err.None? {
        RunIsDeterministic(c.(s := Following(c.s, outs[0])), m.pool, schedules[1..], outs[1..], waits, i + 1,
                           ChecksAfter(c.s, c.oracle, true, NEVER, checks), n - 1);
      }
    }
  }

  /** How a list of outcomes is recognised as that of successive ticks. */
  lemma FirstOutcome(s: Start, oracle: Oracle, waits: Waits, i: nat, checks: nat, n: nat, outs: seq<Outcome>)
    ensures n == 0 && outs == [] ==> outs == Ticks(s, oracle, true, waits, i, NEVER, checks, n)
    ensures n > 0 && outs != [] && outs[0] == TickInline(s, oracle, NEVER, checks) ==>
      (outs[0].err.Some? && |outs| == 1 ==> outs == Ticks(s, oracle, true, waits, i, NEVER, checks, n))
      && (outs[0].err.None?
          && outs[1..] == Ticks(Following(s, outs[0]), oracle, true, waits, i + 1, NEVER,
                                ChecksAfter(s, oracle, true, NEVER, checks), n - 1)
          ==> outs == Ticks(s, oracle, true, waits, i, NEVER, checks, n))
  {
    hide TickInline, ChecksAfter, Following;
    if outs != [] {
      assert outs == [outs[0]] + outs[1..];
    }
  }

  /** Whatever a tick leaves behind in the pool, the next one can start from it. */
  lemma EndPool(c: Setup, pool: WP.Pool, steps: seq<Step>)
    requires WP.PoolInv(pool, c.oracle) && Legal(c, Enter(pool), steps)
    ensures WP.PoolInv(After(c, Enter(pool), steps).pool, c.oracle)
  {
    EndInv(c, pool, steps);
    hide WP.PoolInv, Legal, After;
  }

  // ---------------------------------------------------------------------------------------------
  // Every tick returns.

  /** A step of the tick itself: nobody else submits, closes or cancels. */
  predicate Own(step: Step) {
    step.Drive? || step.step.Internal()
  }

  /** No schedule deadlocks: until the tick has returned, the driver or the pool can move. */
  lemma TickNeverStuck(c: Setup, m: Machine)
    requires MachineInv(c, m) && |m.pool.workers| > 0 && !m.driver.Returned?
    ensures exists step: Step :: Own(step) && Enabled(c, m, step)
  {
    hide WP.PoolInv, WP.Enabled;
    if CanDrive(c, m) {
      assert Own(Drive) && Enabled(c, m, Drive);
    } else {
      var t := AwaitedTicket(c, m);
      WP.TicketMoves(m.pool, c.oracle, t);
      var ps: WP.Step :| ps.Internal() && WP.Enabled(m.pool, ps);
      assert Own(PoolStep(ps)) && Enabled(c, m, PoolStep(ps));
    }
  }

  /** A driver that cannot move waits for a ticket that is not answered. */
  lemma AwaitedTicket(c: Setup, m: Machine) returns (t: nat)
    requires MachineInv(c, m) && !m.driver.Returned? && !CanDrive(c, m)
    ensures t < |m.pool.tickets| && !m.pool.tickets[t].stage.Answered?
  {
    match m.driver
    case Submitting(_, ticket) => t := ticket;
    case Collecting(_, st) =>
      assert HandleOK(c, m, st.next);
      t := m.handles[st.next];
      WP.InvMeansDelivery(m.pool, c.oracle, t);
      hide WP.PoolInv, WP.AnswerOK;
  }

  /** An upper bound on the steps of one group's turn, with its job's steps in the pool. */
  function GroupRank(g: WorkGroup): nat {
    2 * |g.systems| + 12
  }

  function TurnsRank(groups: seq<WorkGroup>, next: nat): nat
    requires next <= |groups|
    decreases |groups| - next
  {
    if next == |groups| then 0 else GroupRank(groups[next]) + TurnsRank(groups, next + 1)
  }

  function DriverRank(c: Setup, d: Driver): nat
    requires Shape(c, d)
  {
    var groups := c.s.groups;
    match d
    case Looping(ph) => TurnsRank(groups, ph.next) + |groups| + 4
    case InSync(ph, rs, _) =>
      TurnsRank(groups, ph.next + 1) + |groups| + 5 + if rs.done then 0 else |groups[ph.next].systems| - rs.next + 1
    case Submitting(ph, _) => TurnsRank(groups, ph.next + 1) + |groups| + 5
    case Collecting(ph, st) => if st.exit.Some? then 1 else |ph.handles| - st.next + 2
    case Returned(_, _) => 0
  }

  function Measure(c: Setup, m: Machine): nat
    requires Shape(c, m.driver)
  {
    DriverRank(c, m.driver) + WP.Measure(m.pool)
  }

  lemma LoopDecreases(c: Setup, m: Machine)
    requires Shape(c, m.driver) && m.driver.Looping? && CanDrive(c, m) && Shape(c, DriveNext(c, m).driver)
    ensures Measure(c, DriveNext(c, m)) < Measure(c, m)
  {
    var ph := m.driver.ph;
    if ph.next < |c.s.groups| {
      WP.SubmitCost(m.pool, c.oracle, JobFor(c, c.s.groups[ph.next]));
      assert TurnsRank(c.s.groups, ph.next) == GroupRank(c.s.groups[ph.next]) + TurnsRank(c.s.groups, ph.next + 1);
    }
    hide WP.Measure, WP.Next, ShouldRun, TurnsRank, Stopped;
  }

  lemma SyncDecreases(c: Setup, m: Machine)
    requires Shape(c, m.driver) && m.driver.InSync? && CanDrive(c, m) && Shape(c, DriveNext(c, m).driver)
    ensures Measure(c, DriveNext(c, m)) < Measure(c, m)
  {
    var ph, rs := m.driver.ph, m.driver.rs;
    if !rs.done {
      WP.StepBounds(c.s.groups[ph.next], c.s.tick, c.oracle, rs, Done(c, m));
    }
    hide WP.Measure, WP.Next, StepRun;
  }

  lemma CollectDecreases(c: Setup, m: Machine)
    requires Shape(c, m.driver) && m.driver.Collecting? && CanDrive(c, m) && Shape(c, DriveNext(c, m).driver)
    ensures Measure(c, DriveNext(c, m)) < Measure(c, m)
  {
    var ph, st := m.driver.ph, m.driver.st;
    if st.exit.None? && st.next < |ph.handles| {
      WP.ReceiveCost(m.pool, c.oracle, m.handles[st.next]);
      CollectMoves(ph.handles[st.next], DriveNext(c, m).received[|m.received|], st);
    }
    hide WP.Measure, WP.Next, WP.Enabled, Collect, Commit;
  }

  lemma DriveDecreases(c: Setup, m: Machine)
    requires Shape(c, m.driver) && CanDrive(c, m) && Shape(c, DriveNext(c, m).driver)
    ensures Measure(c, DriveNext(c, m)) < Measure(c, m)
  {
    match m.driver
    case Looping(_) => LoopDecreases(c, m);
    case InSync(_, _, _) => SyncDecreases(c, m);
    case Submitting(_, _) => hide WP.Measure;
    case Collecting(_, _) => CollectDecreases(c, m);
  }

  function OwnSteps(steps: seq<Step>): nat {
    if steps == [] then 0 else (if Own(steps[0]) then 1 else 0) + OwnSteps(steps[1..])
  }

  /** What a step of somebody else can add to the measure. */
  function ArrivalCost(step: Step): nat {
    if step.PoolStep? then WP.ArrivalCost(step.step) else 0
  }

  function ArrivalCosts(steps: seq<Step>): nat {
    if steps == [] then 0 else ArrivalCost(steps[0]) + ArrivalCosts(steps[1..])
  }

  /**
   * Every tick returns: on every schedule, with others submitting, closing and cancelling at any
   * time, the steps of the driver and the workers are bounded by the measure and what the
   * arrivals add to it, and while the tick has not returned one is enabled.
   */
  lemma {:induction false} TickReturns(c: Setup, m: Machine, steps: seq<Step>)
    requires MachineInv(c, m) && |m.pool.workers| > 0 && Legal(c, m, steps)
    ensures Shape(c, After(c, m, steps).driver)
    ensures OwnSteps(steps) + Measure(c, After(c, m, steps)) <= Measure(c, m) + ArrivalCosts(steps)
    ensures After(c, m, steps).driver.Returned?
      || exists step: Step :: Own(step) && Enabled(c, After(c, m, steps), step)
    decreases |steps|
  {
    assert Shape(c, m.driver);
    hide MachineInv, WP.PoolInv, Next, Enabled, Measure, Shape, ArrivalCost, Own;
    if steps == [] {
      if !m.driver.Returned? {
        TickNeverStuck(c, m);
      }
    } else {
      KeepsInv(c, m, steps[0]);
      StepCost(c, m, steps[0]);
      TickReturns(c, Next(c, m, steps[0]), steps[1..]);
    }
  }

  lemma StepCost(c: Setup, m: Machine, step: Step)
    requires MachineInv(c, m) && Enabled(c, m, step) && MachineInv(c, Next(c, m, step))
    ensures Measure(c, Next(c, m, step)) + (if Own(step) then 1 else 0) <= Measure(c, m) + ArrivalCost(step)
    ensures |Next(c, m, step).pool.workers| == |m.pool.workers|
  {
    match step
    case Drive =>
      DriveDecreases(c, m);
      DriveKeepsWorkers(c, m);
      hide WP.PoolInv, HandleOK, DriveNext, Measure;
    case PoolStep(ps) =>
      WP.StepCost(m.pool, c.oracle, ps);
      WP.SameWorkers(m.pool, c.oracle, ps);
      hide WP.PoolInv, WP.Next, WP.Enabled, WP.Measure, WP.ArrivalCost, HandleOK;
  }

  lemma DriveKeepsWorkers(c: Setup, m: Machine)
    requires CanDrive(c, m)
    ensures |DriveNext(c, m).pool.workers| == |m.pool.workers|
  {
    hide Collect, Commit, StepRun, ShouldRun;
  }
}
