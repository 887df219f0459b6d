/**
 * Work groups and the meaning of running one: which systems run, which commands stay in the
 * buffer, and what the summary says.
 */
module WorkGroups {
  import opened Prelude
  import opened Intervals
  import opened Commands
  import CommandBuffer

  type WorkGroupID = string

  datatype Mode = Synchronized | Async

  datatype Policy = Abort | Continue | Retry

  datatype ResourceAccess = ResourceAccess(name: string, write: bool)

  datatype Descriptor = Descriptor(name: string,
                                   componentReads: seq<ComponentType>,
                                   componentWrites: seq<ComponentType>,
                                   resources: seq<ResourceAccess>,
                                   runEvery: TickInterval,
                                   asyncAllowed: bool)

  /** A system; the key tells apart systems with equal descriptors. */
  datatype System = System(key: nat, desc: Descriptor)

  datatype Access = Access(componentReads: set<ComponentType>,
                           componentWrites: set<ComponentType>,
                           resourceReads: set<string>,
                           resourceWrites: set<string>)

  datatype WorkGroup = WorkGroup(id: WorkGroupID,
                                 mode: Mode,
                                 systems: seq<System>,
                                 interval: TickInterval,
                                 policy: Policy,
                                 access: Access)

  /** What one call of a system does: the commands it defers, and the result it returns. */
  datatype RunResult = RunResult(pushed: seq<Command>, skipped: bool, err: Option<string>)

  /** The behaviour of every system, by tick and attempt. */
  type Oracle = (System, uint64, nat) -> RunResult

  datatype TickError =
    | ContextDone
    | PoolClosed
    | SystemFailed(system: string, cause: string)
    | ApplyFailed(error: WorldError)

  datatype Summary = Summary(id: WorkGroupID,
                             mode: Mode,
                             async: bool,
                             tick: uint64,
                             access: Access,
                             total: nat,
                             executed: nat,
                             skipped: nat,
                             err: Option<TickError>)

  function NewSummary(g: WorkGroup, async: bool, tick: uint64): Summary {
    Summary(g.id, g.mode, async, tick, g.access, 0, 0, 0, None)
  }

  // ---------------------------------------------------------------------------------------------
  // One system.

  /** What becomes of one system of a group on one tick. */
  datatype Verdict =
    | NotDue
    | Kept(commands: seq<Command>, skipped: bool, attempts: nat)
    | Failed(cause: string, attempts: nat)

  /** Only the Retry policy gives a failed system a second and last attempt. */
  function Judge(policy: Policy, sys: System, tick: uint64, oracle: Oracle): Verdict {
    if !ShouldRun(tick, sys.desc.runEvery) then NotDue
    else
      var first := oracle(sys, tick, 0);
      if first.err.None? then Kept(CommandBuffer.NonNil(first.pushed), first.skipped, 1)
      else if !policy.Retry? then Failed(first.err.value, 1)
      else
        var second := oracle(sys, tick, 1);
        if second.err.None? then Kept(CommandBuffer.NonNil(second.pushed), second.skipped, 2)
        else Failed(second.err.value, 2)
  }

  /** How often a due system is called: once more if the policy is Retry and the first attempt fails. */
  function Attempts(policy: Policy, sys: System, tick: uint64, oracle: Oracle): nat {
    if policy.Retry? && oracle(sys, tick, 0).err.Some? then 2 else 1
  }

  /** What the last attempt of a due system answers. */
  function LastAttempt(policy: Policy, sys: System, tick: uint64, oracle: Oracle): RunResult {
    oracle(sys, tick, Attempts(policy, sys, tick, oracle) - 1)
  }

  /**
   * A due system is judged by its last attempt alone: its commands are kept if that attempt has
   * no error, and nothing of an earlier attempt is.
   */
  lemma JudgeIsExact(policy: Policy, sys: System, tick: uint64, oracle: Oracle)
    ensures var v := Judge(policy, sys, tick, oracle);
      && (v.NotDue? <==> !ShouldRun(tick, sys.desc.runEvery))
      && (!v.NotDue? ==>
            var attempts := if policy == Retry && oracle(sys, tick, 0).err.Some? then 2 else 1;
            var last := oracle(sys, tick, attempts - 1);
            v == if last.err.None? then Kept(CommandBuffer.NonNil(last.pushed), last.skipped, attempts)
                 else Failed(last.err.value, attempts))
  {
  }

  // ---------------------------------------------------------------------------------------------
  // A run of a group, one system at a time.

  /** A call of a system: its position in the group and the attempt. */
  type Call = (nat, nat)

  function CallsAt(position: nat, attempts: nat): seq<Call> {
    seq(attempts, a => (position, a))
  }

  /** How far a run has got: the next system, the buffer, the summary and the calls made. */
  datatype RunState = RunState(next: nat, buf: seq<Command>, summary: Summary, calls: seq<Call>, done: bool)

  function StartRun(g: WorkGroup, async: bool, tick: uint64, buf: seq<Command>): RunState {
    RunState(0, buf, NewSummary(g, async, tick), [], false)
  }

  /** The outcomes of successive cancellation checks: true once the context is done. */
  type Polls = nat -> bool

  /** The loop body of a run; `cancelled` is the answer of the check at its head. */
  function StepRun(g: WorkGroup, tick: uint64, oracle: Oracle, rs: RunState, cancelled: bool): RunState
    requires !rs.done && rs.next <= |g.systems|
  {
    var s := rs.summary;
    if rs.next == |g.systems| then rs.(done := true)
    else if cancelled then rs.(summary := s.(err := Some(ContextDone)), done := true)
    else
      var sys := g.systems[rs.next];
      match Judge(g.policy, sys, tick, oracle)
      case NotDue =>
        rs.(next := rs.next + 1, summary := s.(total := s.total + 1, skipped := s.skipped + 1))
      case Kept(commands, skipped, attempts) =>
        RunState(rs.next + 1, rs.buf + commands,
                 if skipped then s.(total := s.total + 1, skipped := s.skipped + 1)
                 else s.(total := s.total + 1, executed := s.executed + 1),
                 rs.calls + CallsAt(rs.next, attempts), false)
      case Failed(cause, attempts) =>
        RunState(rs.next, rs.buf,
                 s.(total := s.total + 1, err := Some(SystemFailed(sys.desc.name, cause))),
                 rs.calls + CallsAt(rs.next, attempts), true)
  }

  /** The rest of a run, and the number of cancellation checks made by its end. */
  function RunFrom(g: WorkGroup, tick: uint64, oracle: Oracle, rs: RunState, polls: Polls, p: nat): (RunState, nat)
    requires rs.next <= |g.systems|
    decreases |g.systems| - rs.next, !rs.done
  {
    if rs.done then (rs, p)
    else if rs.next == |g.systems| then (rs.(done := true), p)
    else RunFrom(g, tick, oracle, StepRun(g, tick, oracle, rs, polls(p)), polls, p + 1)
  }

  function RunGroup(g: WorkGroup, async: bool, tick: uint64, oracle: Oracle, buf: seq<Command>,
                    polls: Polls, p: nat): (RunState, nat)
  {
    RunFrom(g, tick, oracle, StartRun(g, async, tick, buf), polls, p)
  }

  /** No check from position `p` on finds the context done. */
  ghost predicate Uncancelled(polls: Polls, p: nat) {
    forall i: nat :: i >= p ==> !polls(i)
  }

  const NEVER: Polls := _ => false

  /** An uncancelled run does not depend on where its checks stand in the sequence of checks. */
  lemma {:induction false} UncancelledRunsAgree(g: WorkGroup, tick: uint64, oracle: Oracle, rs: RunState,
                                                polls: Polls, p: nat, polls': Polls, p': nat)
    requires rs.next <= |g.systems| && Uncancelled(polls, p) && Uncancelled(polls', p')
    ensures RunFrom(g, tick, oracle, rs, polls, p).0 == RunFrom(g, tick, oracle, rs, polls', p').0
    decreases |g.systems| - rs.next, !rs.done
  {
    if !rs.done && rs.next < |g.systems| {
      UncancelledRunsAgree(g, tick, oracle, StepRun(g, tick, oracle, rs, false), polls, p + 1, polls', p' + 1);
    }
  }

  // ---------------------------------------------------------------------------------------------
  // Rollback exactness: the run in closed form.

  predicate DueAt(g: WorkGroup, tick: uint64, i: nat)
    requires i < |g.systems|
  {
    ShouldRun(tick, g.systems[i].desc.runEvery)
  }

  function AttemptsAt(g: WorkGroup, tick: uint64, oracle: Oracle, i: nat): nat
    requires i < |g.systems|
  {
    Attempts(g.policy, g.systems[i], tick, oracle)
  }

  function LastAt(g: WorkGroup, tick: uint64, oracle: Oracle, i: nat): RunResult
    requires i < |g.systems|
  {
    LastAttempt(g.policy, g.systems[i], tick, oracle)
  }

  /** The system is due and its last attempt fails. */
  predicate FailsAt(g: WorkGroup, tick: uint64, oracle: Oracle, i: nat)
    requires i < |g.systems|
  {
    DueAt(g, tick, i) && LastAt(g, tick, oracle, i).err.Some?
  }

  /** The first position, from `i` on, at which the run is cancelled or a system fails for good. */
  function StopAt(g: WorkGroup, tick: uint64, oracle: Oracle, polls: Polls, p: nat, i: nat): (n: nat)
    requires i <= |g.systems|
    ensures i <= n <= |g.systems|
    decreases |g.systems| - i
  {
    if i == |g.systems| || polls(p + i) || FailsAt(g, tick, oracle, i) then i
    else StopAt(g, tick, oracle, polls, p, i + 1)
  }

  /** Nothing stops the run before the stopping position, and something does at it. */
  lemma {:induction false} StopIsFirst(g: WorkGroup, tick: uint64, oracle: Oracle, polls: Polls, p: nat, i: nat, k: nat)
    requires i <= |g.systems|
    ensures var n := StopAt(g, tick, oracle, polls, p, i);
      && (i <= k < n ==> !polls(p + k) && !FailsAt(g, tick, oracle, k))
      && (n < |g.systems| ==> polls(p + n) || FailsAt(g, tick, oracle, n))
    decreases |g.systems| - i
  {
    hide FailsAt;
    if !(i == |g.systems| || polls(p + i) || FailsAt(g, tick, oracle, i)) {
      StopIsFirst(g, tick, oracle, polls, p, i + 1, k);
    }
  }

  /** The commands of the systems below `n` that were due and succeeded, by their last attempt. */
  function KeptCommands(g: WorkGroup, tick: uint64, oracle: Oracle, n: nat): seq<Command>
    requires n <= |g.systems|
  {
    if n == 0 then []
    else
      KeptCommands(g, tick, oracle, n - 1) +
      if DueAt(g, tick, n - 1) && LastAt(g, tick, oracle, n - 1).err.None? then
        CommandBuffer.NonNil(LastAt(g, tick, oracle, n - 1).pushed)
      else []
  }

  function CallsBelow(g: WorkGroup, tick: uint64, oracle: Oracle, n: nat): seq<Call>
    requires n <= |g.systems|
  {
    if n == 0 then []
    else
      CallsBelow(g, tick, oracle, n - 1) +
      if DueAt(g, tick, n - 1) then CallsAt(n - 1, AttemptsAt(g, tick, oracle, n - 1)) else []
  }

  /** The system was due, succeeded and did not report itself skipped. */
  predicate ExecutesAt(g: WorkGroup, tick: uint64, oracle: Oracle, i: nat)
    requires i < |g.systems|
  {
    DueAt(g, tick, i) && LastAt(g, tick, oracle, i).err.None? && !LastAt(g, tick, oracle, i).skipped
  }

  function ExecutedBelow(g: WorkGroup, tick: uint64, oracle: Oracle, n: nat): (c: nat)
    requires n <= |g.systems|
    ensures c <= n
  {
    if n == 0 then 0
    else ExecutedBelow(g, tick, oracle, n - 1) + if ExecutesAt(g, tick, oracle, n - 1) then 1 else 0
  }

  /** A run that has passed every system below `rs.next`. */
  ghost predicate OnTrack(g: WorkGroup, async: bool, tick: uint64, oracle: Oracle, buf: seq<Command>, rs: RunState) {
    && rs.next <= |g.systems| && !rs.done
    && rs.buf == buf + KeptCommands(g, tick, oracle, rs.next)
    && rs.calls == CallsBelow(g, tick, oracle, rs.next)
    && var e := ExecutedBelow(g, tick, oracle, rs.next);
       rs.summary == Summary(g.id, g.mode, async, tick, g.access, rs.next, e, rs.next - e, None)
  }

  /** A run that has ended at position `n`, by success, cancellation or failure. */
  ghost predicate EndedAt(g: WorkGroup, async: bool, tick: uint64, oracle: Oracle, buf: seq<Command>,
                          n: nat, cancelled: bool, rs: RunState)
    requires n <= |g.systems|
  {
    var failed := n < |g.systems| && !cancelled;
    && rs.done
    && rs.buf == buf + KeptCommands(g, tick, oracle, n)
    && (failed ==> FailsAt(g, tick, oracle, n))
    && rs.calls == CallsBelow(g, tick, oracle, n) + (if failed then CallsAt(n, AttemptsAt(g, tick, oracle, n)) else [])
    && rs.summary == EndSummary(g, async, tick, oracle, n, cancelled)
  }

  /** The summary of a run that ended at position `n`; the system that failed there counts in the total alone. */
  function EndSummary(g: WorkGroup, async: bool, tick: uint64, oracle: Oracle, n: nat, cancelled: bool): Summary
    requires n <= |g.systems|
  {
    var e := ExecutedBelow(g, tick, oracle, n);
    Summary(g.id, g.mode, async, tick, g.access, if n < |g.systems| && !cancelled then n + 1 else n, e, n - e,
            RunError(g, tick, oracle, n, cancelled))
  }

  /** The error of a run that ended at position `n`: the context's, that of the last attempt there, or none. */
  function RunError(g: WorkGroup, tick: uint64, oracle: Oracle, n: nat, cancelled: bool): Option<TickError>
    requires n <= |g.systems|
  {
    if n == |g.systems| then None
    else if cancelled then Some(ContextDone)
    else
      var cause := LastAt(g, tick, oracle, n).err;
      Some(SystemFailed(g.systems[n].desc.name, if cause.Some? then cause.value else ""))
  }

  /** One more system, in each of the closed forms. */
  lemma OneMoreSystem(g: WorkGroup, tick: uint64, oracle: Oracle, i: nat)
    requires i < |g.systems|
    ensures var due, last := DueAt(g, tick, i), LastAt(g, tick, oracle, i);
      && KeptCommands(g, tick, oracle, i + 1) == KeptCommands(g, tick, oracle, i)
           + (if due && last.err.None? then CommandBuffer.NonNil(last.pushed) else [])
      && CallsBelow(g, tick, oracle, i + 1) == CallsBelow(g, tick, oracle, i)
           + (if due then CallsAt(i, AttemptsAt(g, tick, oracle, i)) else [])
      && ExecutedBelow(g, tick, oracle, i + 1) == ExecutedBelow(g, tick, oracle, i)
           + (if due && last.err.None? && !last.skipped then 1 else 0)
  {
    hide DueAt, LastAt, AttemptsAt, CallsAt;
  }

  /** One step of a run that is not cancelled, by the last attempt of its system. */
  lemma StepForm(g: WorkGroup, tick: uint64, oracle: Oracle, rs: RunState)
    requires !rs.done && rs.next < |g.systems|
    ensures var i, s := rs.next, rs.summary;
      var last, calls := LastAt(g, tick, oracle, i), rs.calls + CallsAt(i, AttemptsAt(g, tick, oracle, i));
      StepRun(g, tick, oracle, rs, false) ==
        if !DueAt(g, tick, i) then rs.(next := i + 1, summary := s.(total := s.total + 1, skipped := s.skipped + 1))
        else if last.err.None? then
          RunState(i + 1, rs.buf + CommandBuffer.NonNil(last.pushed),
                   if last.skipped then s.(total := s.total + 1, skipped := s.skipped + 1)
                   else s.(total := s.total + 1, executed := s.executed + 1), calls, false)
        else
          RunState(i, rs.buf, s.(total := s.total + 1,
                                 err := Some(SystemFailed(g.systems[i].desc.name, last.err.value))), calls, true)
  {
    JudgeIsExact(g.policy, g.systems[rs.next], tick, oracle);
    hide Judge, ShouldRun, CallsAt;
  }

  lemma StepKeepsTrack(g: WorkGroup, async: bool, tick: uint64, oracle: Oracle, buf: seq<Command>,
                       rs: RunState, cancelled: bool)
    requires OnTrack(g, async, tick, oracle, buf, rs) && rs.next < |g.systems|
    ensures var rs' := StepRun(g, tick, oracle, rs, cancelled);
      if cancelled || FailsAt(g, tick, oracle, rs.next) then
        EndedAt(g, async, tick, oracle, buf, rs.next, cancelled, rs')
      else OnTrack(g, async, tick, oracle, buf, rs') && rs'.next == rs.next + 1
  {
    if cancelled {
      hide Judge, KeptCommands, CallsBelow, ExecutedBelow, FailsAt;
    } else {
      if FailsAt(g, tick, oracle, rs.next) {
        FailureEnds(g, async, tick, oracle, buf, rs);
      } else {
        SuccessKeepsTrack(g, async, tick, oracle, buf, rs);
      }
      hide *;
    }
  }

  lemma FailureEnds(g: WorkGroup, async: bool, tick: uint64, oracle: Oracle, buf: seq<Command>, rs: RunState)
    requires OnTrack(g, async, tick, oracle, buf, rs) && rs.next < |g.systems| && FailsAt(g, tick, oracle, rs.next)
    ensures EndedAt(g, async, tick, oracle, buf, rs.next, false, StepRun(g, tick, oracle, rs, false))
  {
    StepForm(g, tick, oracle, rs);
    hide StepRun, DueAt, LastAt, AttemptsAt, CallsAt, KeptCommands, CallsBelow, ExecutedBelow;
  }

  lemma SuccessKeepsTrack(g: WorkGroup, async: bool, tick: uint64, oracle: Oracle, buf: seq<Command>, rs: RunState)
    requires OnTrack(g, async, tick, oracle, buf, rs) && rs.next < |g.systems| && !FailsAt(g, tick, oracle, rs.next)
    ensures var rs' := StepRun(g, tick, oracle, rs, false);
      OnTrack(g, async, tick, oracle, buf, rs') && rs'.next == rs.next + 1
  {
    if DueAt(g, tick, rs.next) {
      KeptStays(g, async, tick, oracle, buf, rs);
      hide *;
    } else {
      StepForm(g, tick, oracle, rs);
      OneMoreSystem(g, tick, oracle, rs.next);
      hide StepRun, DueAt, LastAt, AttemptsAt, CallsAt, KeptCommands, CallsBelow, ExecutedBelow, CommandBuffer.NonNil;
    }
  }

  lemma KeptStays(g: WorkGroup, async: bool, tick: uint64, oracle: Oracle, buf: seq<Command>, rs: RunState)
    requires OnTrack(g, async, tick, oracle, buf, rs) && rs.next < |g.systems| && DueAt(g, tick, rs.next)
    requires LastAt(g, tick, oracle, rs.next).err.None?
    ensures var rs' := StepRun(g, tick, oracle, rs, false);
      OnTrack(g, async, tick, oracle, buf, rs') && rs'.next == rs.next + 1
  {
    StepForm(g, tick, oracle, rs);
    OneMoreSystem(g, tick, oracle, rs.next);
    hide StepRun, DueAt, LastAt, AttemptsAt, CallsAt, KeptCommands, CallsBelow, ExecutedBelow, CommandBuffer.NonNil;
  }

  lemma TrackEnds(g: WorkGroup, async: bool, tick: uint64, oracle: Oracle, buf: seq<Command>,
                  rs: RunState, polls: Polls, p: nat, cancelled: bool)
    requires OnTrack(g, async, tick, oracle, buf, rs) && rs.next == |g.systems|
    ensures StopAt(g, tick, oracle, polls, p, rs.next) == rs.next
    ensures EndedAt(g, async, tick, oracle, buf, rs.next, cancelled, RunFrom(g, tick, oracle, rs, polls, p + rs.next).0)
    ensures RunFrom(g, tick, oracle, rs, polls, p + rs.next).1 == p + rs.next
  {
  }

  lemma {:induction false} RunFromEnds(g: WorkGroup, async: bool, tick: uint64, oracle: Oracle, buf: seq<Command>,
                                       rs: RunState, polls: Polls, p: nat)
    requires rs.next <= |g.systems| && !rs.done
    requires OnTrack(g, async, tick, oracle, buf, rs)
    ensures var n := StopAt(g, tick, oracle, polls, p, rs.next);
      EndedAt(g, async, tick, oracle, buf, n, polls(p + n), RunFrom(g, tick, oracle, rs, polls, p + rs.next).0)
      && RunFrom(g, tick, oracle, rs, polls, p + rs.next).1 == p + if n < |g.systems| then n + 1 else n
    decreases |g.systems| - rs.next
  {
    hide *;
    if rs.next == |g.systems| {
      TrackEnds(g, async, tick, oracle, buf, rs, polls, p, polls(p + rs.next));
    } else {
      StepKeepsTrack(g, async, tick, oracle, buf, rs, polls(p + rs.next));
      VerdictDecides(g, tick, oracle, rs, polls, p);
      var rs' := StepRun(g, tick, oracle, rs, polls(p + rs.next));
      if !rs'.done {
        RunFromEnds(g, async, tick, oracle, buf, rs', polls, p);
      }
    }
  }

  lemma StepStops(g: WorkGroup, tick: uint64, oracle: Oracle, rs: RunState, cancelled: bool)
    requires !rs.done && rs.next < |g.systems|
    ensures var rs' := StepRun(g, tick, oracle, rs, cancelled);
      rs'.done == (cancelled || FailsAt(g, tick, oracle, rs.next)) && rs'.next <= |g.systems|
  {
    if !cancelled {
      StepForm(g, tick, oracle, rs);
      hide StepRun;
    }
  }

  /** A step ends the run exactly where `StopAt` stops. */
  lemma VerdictDecides(g: WorkGroup, tick: uint64, oracle: Oracle, rs: RunState, polls: Polls, p: nat)
    requires !rs.done && rs.next < |g.systems|
    ensures var rs' := StepRun(g, tick, oracle, rs, polls(p + rs.next));
      var stop := polls(p + rs.next) || FailsAt(g, tick, oracle, rs.next);
      && rs'.done == stop
      && StopAt(g, tick, oracle, polls, p, rs.next)
           == (if stop then rs.next else StopAt(g, tick, oracle, polls, p, rs.next + 1))
      && RunFrom(g, tick, oracle, rs, polls, p + rs.next)
           == (if stop then (rs', p + rs.next + 1) else RunFrom(g, tick, oracle, rs', polls, p + rs.next + 1))
  {
    hide *;
    StepStops(g, tick, oracle, rs, polls(p + rs.next));
    RunFromStep(g, tick, oracle, rs, polls, p + rs.next);
    StopAtStep(g, tick, oracle, polls, p, rs.next);
  }

  lemma RunFromStep(g: WorkGroup, tick: uint64, oracle: Oracle, rs: RunState, polls: Polls, q: nat)
    requires !rs.done && rs.next < |g.systems| && StepRun(g, tick, oracle, rs, polls(q)).next <= |g.systems|
    ensures var rs' := StepRun(g, tick, oracle, rs, polls(q));
      RunFrom(g, tick, oracle, rs, polls, q)
        == if rs'.done then (rs', q + 1) else RunFrom(g, tick, oracle, rs', polls, q + 1)
  {
    hide StepRun;
  }

  lemma StopAtStep(g: WorkGroup, tick: uint64, oracle: Oracle, polls: Polls, p: nat, i: nat)
    requires i < |g.systems|
    ensures StopAt(g, tick, oracle, polls, p, i)
      == if polls(p + i) || FailsAt(g, tick, oracle, i) then i else StopAt(g, tick, oracle, polls, p, i + 1)
  {
    hide FailsAt;
  }

  /**
   * Rollback exactness. The buffer ends as its initial contents followed by the last-attempt
   * commands of precisely the due systems that succeeded before the run stopped; failed attempts
   * leave nothing. The summary, the calls made and the number of checks follow from the stopping position.
   */
  lemma RunGroupIsExact(g: WorkGroup, async: bool, tick: uint64, oracle: Oracle, buf: seq<Command>, polls: Polls, p: nat)
    ensures var n := StopAt(g, tick, oracle, polls, p, 0);
      var (rs, checks) := RunGroup(g, async, tick, oracle, buf, polls, p);
      && EndedAt(g, async, tick, oracle, buf, n, polls(p + n), rs)
      && checks == p + if n < |g.systems| then n + 1 else n
    ensures var s := RunGroup(g, async, tick, oracle, buf, polls, p).0.summary;
      && s.total == s.executed + s.skipped + (if s.err.Some? && s.err.value.SystemFailed? then 1 else 0)
      && (s.err == None ==> s.total == |g.systems|)
  {
    RunFromEnds(g, async, tick, oracle, buf, StartRun(g, async, tick, buf), polls, p);
    hide RunFrom, StopAt, FailsAt, LastAt, KeptCommands, CallsBelow, ExecutedBelow;
  }

  /** Every system is called at most twice, and twice only under Retry, the second time as attempt 1. */
  lemma {:induction false} AttemptsAreBounded(g: WorkGroup, tick: uint64, oracle: Oracle, n: nat, c: Call)
    requires n <= |g.systems| && c in CallsBelow(g, tick, oracle, n)
    ensures c.0 < n && c.1 <= 1 && (c.1 == 1 ==> g.policy.Retry?)
  {
    if c in CallsBelow(g, tick, oracle, n - 1) {
      AttemptsAreBounded(g, tick, oracle, n - 1, c);
    }
  }
}
