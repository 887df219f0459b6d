/**
 * Running a work group: the loop over its systems, with snapshot, retry and rollback of the
 * command buffer, checking the context before each system.
 */
module GroupRunner {
  import opened Prelude
  import opened Intervals
  import opened Commands
  import opened WorkGroups
  import opened CommandBuffer

  /** A context: every check from number `doneAt` on finds it done. */
  class Context {
    const doneAt: Option<nat>
    var checks: nat

    constructor (doneAt: Option<nat>)
      ensures this.doneAt == doneAt && checks == 0
    {
      this.doneAt := doneAt;
      checks := 0;
    }

    ghost function Polls(): Polls {
      i => doneAt.Some? && i >= doneAt.value
    }

    method Err() returns (done: bool)
      modifies this
      ensures done == Polls()(old(checks)) && checks == old(checks) + 1
    {
      done := doneAt.Some? && checks >= doneAt.value;
      checks := checks + 1;
    }
  }

  // ---------------------------------------------------------------------------------------------
  // Running one group.

  /** One call of a system, which defers its commands into the buffer. */
  method CallSystem(sys: System, tick: uint64, attempt: nat, oracle: Oracle, buf: Buffer) returns (result: RunResult)
    requires buf.Valid()
    modifies buf, buf.commands.backing
    ensures result == oracle(sys, tick, attempt)
    ensures buf.Valid() && buf.View() == old(buf.View()) + NonNil(result.pushed)
    ensures buf.commands.backing == old(buf.commands.backing) || fresh(buf.commands.backing)
  {
    result := oracle(sys, tick, attempt);
    NonNilNone();
    hide NonNil;
    var i := 0;
    while i < |result.pushed|
      invariant 0 <= i <= |result.pushed|
      invariant buf.Valid() && buf.View() == old(buf.View()) + NonNil(result.pushed[..i])
      invariant buf.commands.backing == old(buf.commands.backing) || fresh(buf.commands.backing)
    {
      buf.Push(result.pushed[i]);
      NonNilStep(result.pushed, i);
      i := i + 1;
    }
    assert result.pushed[..i] == result.pushed;
  }

  lemma NonNilNone()
    ensures NonNil([]) == []
  {
  }

  lemma NonNilStep(commands: seq<Command>, i: nat)
    requires i < |commands|
    ensures NonNil(commands[..i + 1]) == NonNil(commands[..i]) + NonNil([commands[i]])
  {
    assert commands[..i + 1][..i] == commands[..i];
    assert [commands[i]][..0] == [];
    assert NonNil([]) == [];
  }

  /** The due system's attempts, with the buffer rolled back after each failed one. */
  method RunSystem(policy: Policy, sys: System, tick: uint64, oracle: Oracle, buf: Buffer)
    returns (result: RunResult, ghost attempts: nat)
    requires buf.Valid() && ShouldRun(tick, sys.desc.runEvery)
    modifies buf, buf.commands.backing
    ensures buf.Valid()
    ensures buf.commands.backing == old(buf.commands.backing) || fresh(buf.commands.backing)
    ensures attempts == if policy == Retry && oracle(sys, tick, 0).err.Some? then 2 else 1
    ensures result == oracle(sys, tick, attempts - 1)
    ensures buf.View() == old(buf.View()) + if result.err.None? then NonNil(result.pushed) else []
  {
    hide NonNil;
    var snapshot := buf.Snapshot();
    result := CallSystem(sys, tick, 0, oracle, buf);
    attempts := 1;
    if result.err.Some? && policy == Retry {
      buf.Restore(snapshot);
      result := CallSystem(sys, tick, 1, oracle, buf);
      attempts := 2;
    }
    if result.err.Some? {
      buf.Restore(snapshot);
    }
  }

  /** The loop body of a run after its cancellation check. */
  method RunNext(group: WorkGroup, i: nat, tick: uint64, oracle: Oracle, buf: Buffer, sofar: Summary,
                 ghost rs: RunState)
    returns (summary: Summary, failed: bool, ghost calls: seq<Call>)
    requires buf.Valid() && !rs.done && rs.next == i < |group.systems|
    requires buf.View() == rs.buf && sofar == rs.summary
    modifies buf, buf.commands.backing
    ensures buf.Valid()
    ensures buf.commands.backing == old(buf.commands.backing) || fresh(buf.commands.backing)
    ensures var rs' := StepRun(group, tick, oracle, rs, false);
      buf.View() == rs'.buf && summary == rs'.summary && failed == rs'.done && rs'.calls == rs.calls + calls
  {
    var sys := group.systems[i];
    JudgeIsExact(group.policy, sys, tick, oracle);
    hide NonNil, Judge, ShouldRun;
    summary := sofar.(total := sofar.total + 1);
    failed, calls := false, [];
    if !ShouldRun(tick, sys.desc.runEvery) {
      summary := summary.(skipped := summary.skipped + 1);
      return;
    }
    var result, attempts := RunSystem(group.policy, sys, tick, oracle, buf);
    calls := CallsAt(i, attempts);
    if result.err.Some? {
      summary := summary.(err := Some(SystemFailed(sys.desc.name, result.err.value)));
      failed := true;
    } else if result.skipped {
      summary := summary.(skipped := summary.skipped + 1);
    } else {
      summary := summary.(executed := summary.executed + 1);
    }
  }

  /** Runs the systems of a group in order until one fails for good or the context is done. */
  method RunWorkGroup(ctx: Context, group: WorkGroup, tick: uint64, oracle: Oracle, buf: Buffer, async: bool)
    returns (summary: Summary, ghost rs: RunState)
    requires buf.Valid()
    modifies ctx, buf, buf.commands.backing
    ensures buf.Valid()
    ensures buf.commands.backing == old(buf.commands.backing) || fresh(buf.commands.backing)
    ensures (rs, ctx.checks) == RunGroup(group, async, tick, oracle, old(buf.View()), ctx.Polls(), old(ctx.checks))
    ensures rs.done && summary == rs.summary && buf.View() == rs.buf
  {
    hide StepRun, Judge;
    summary := NewSummary(group, async, tick);
    rs := StartRun(group, async, tick, buf.View());
    ghost var polls := ctx.Polls();
    ghost var goal := RunFrom(group, tick, oracle, rs, polls, ctx.checks);
    var i := 0;
    while i < |group.systems|
      invariant 0 <= i <= |group.systems| && rs.next == i && !rs.done
      invariant buf.Valid() && buf.View() == rs.buf && summary == rs.summary
      invariant buf.commands.backing == old(buf.commands.backing) || fresh(buf.commands.backing)
      invariant RunFrom(group, tick, oracle, rs, polls, ctx.checks) == goal
    {
      StepFacts(group, tick, oracle, rs);
      var done := ctx.Err();
      if done {
        summary := summary.(err := Some(ContextDone));
        rs := StepRun(group, tick, oracle, rs, true);
        return;
      }
      var failed: bool;
      ghost var calls;
      summary, failed, calls := RunNext(group, i, tick, oracle, buf, summary, rs);
      rs := StepRun(group, tick, oracle, rs, false);
      if failed {
        return;
      }
      i := i + 1;
    }
    rs := rs.(done := true);
  }

  lemma StepFacts(group: WorkGroup, tick: uint64, oracle: Oracle, rs: RunState)
    requires !rs.done && rs.next < |group.systems|
    ensures StepRun(group, tick, oracle, rs, true) == rs.(summary := rs.summary.(err := Some(ContextDone)), done := true)
    ensures var rs' := StepRun(group, tick, oracle, rs, false);
      !rs'.done ==> rs'.next == rs.next + 1
  {
  }
}
