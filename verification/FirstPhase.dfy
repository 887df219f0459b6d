/**
 * The first phase of a tick in closed form, over the groups, the cancellation checks and the
 * positions at which runs stop: where it ends, with which error, and what it has gathered by
 * then. With it, exactly when a tick returns nil.
 */
module FirstPhase {
  import opened Prelude
  import opened Intervals
  import opened Commands
  import opened WorkGroups
  import opened TickSpec

  /** What a first phase depends on; `checks` cancellation checks precede it. */
  datatype Setting = Setting(s: Start, oracle: Oracle, inline: bool, polls: Polls, checks: nat)

  /** Group `k` is due, and runs as part of the first phase. */
  predicate RunsAt(c: Setting, k: nat)
    requires k < |c.s.groups|
  {
    var g := c.s.groups[k];
    ShouldRun(c.s.tick, g.interval) && (g.mode == Synchronized || c.inline)
  }

  /**
   * The position of the check at the head of group `k`'s turn, if no earlier turn ends the tick:
   * every turn makes one check at its head and one before each system that its run gets to.
   */
  function HeadAt(c: Setting, k: nat): nat
    requires k <= |c.s.groups|
    decreases k, 0
  {
    if k == 0 then c.checks
    else HeadAt(c, k - 1) + 1 + if RunsAt(c, k - 1) then ChecksAt(c, k - 1) else 0
  }

  /** Where group `k`'s run stops, if it runs. */
  function StopsAt(c: Setting, k: nat): (n: nat)
    requires k < |c.s.groups|
    ensures n <= |c.s.groups[k].systems|
    decreases k, 1
  {
    StopAt(c.s.groups[k], c.s.tick, c.oracle, c.polls, HeadAt(c, k) + 1, 0)
  }

  /** The checks made by group `k`'s run. */
  function ChecksAt(c: Setting, k: nat): nat
    requires k < |c.s.groups|
    decreases k, 2
  {
    if StopsAt(c, k) < |c.s.groups[k].systems| then StopsAt(c, k) + 1 else StopsAt(c, k)
  }

  /** The check at which group `k`'s run stops finds the context done. */
  predicate CancelledAt(c: Setting, k: nat)
    requires k < |c.s.groups|
  {
    c.polls(HeadAt(c, k) + 1 + StopsAt(c, k))
  }

  /**
   * The turn of group `k` ends the tick: the check at its head finds the context done, or the
   * group is due, synchronized and does not tolerate errors, and its run stops before its last system.
   */
  predicate EndsTick(c: Setting, k: nat)
    requires k < |c.s.groups|
  {
    var g := c.s.groups[k];
    || c.polls(HeadAt(c, k))
    || (g.mode == Synchronized && g.policy != Continue && ShouldRun(c.s.tick, g.interval)
        && StopsAt(c, k) < |g.systems|)
  }

  predicate NoneEnds(c: Setting, n: nat)
    requires n <= |c.s.groups|
  {
    forall k :: 0 <= k < n ==> !EndsTick(c, k)
  }

  /** The error of group `k`'s run. */
  function ErrorOf(c: Setting, k: nat): Option<TickError>
    requires k < |c.s.groups|
  {
    RunError(c.s.groups[k], c.s.tick, c.oracle, StopsAt(c, k), CancelledAt(c, k))
  }

  /** The commands that group `k`'s run leaves in its buffer. */
  function LeftBy(c: Setting, k: nat): seq<Command>
    requires k < |c.s.groups|
  {
    KeptCommands(c.s.groups[k], c.s.tick, c.oracle, StopsAt(c, k))
  }

  /** The summary of group `k`'s run. */
  function SummaryOf(c: Setting, k: nat): Summary
    requires k < |c.s.groups|
  {
    EndSummary(c.s.groups[k], c.s.groups[k].mode.Async?, c.s.tick, c.oracle, StopsAt(c, k), CancelledAt(c, k))
  }

  // ---------------------------------------------------------------------------------------------
  // What the first `n` turns gather.

  predicate SyncAt(c: Setting, k: nat)
    requires k < |c.s.groups|
  {
    c.s.groups[k].mode == Synchronized && ShouldRun(c.s.tick, c.s.groups[k].interval)
  }

  predicate AsyncAt(c: Setting, k: nat)
    requires k < |c.s.groups|
  {
    c.s.groups[k].mode == Async && ShouldRun(c.s.tick, c.s.groups[k].interval)
  }

  /** The commands the due synchronized groups leave, up to where each of them stops. */
  function SharedCommands(c: Setting, n: nat): seq<Command>
    requires n <= |c.s.groups|
  {
    if n == 0 then [] else SharedCommands(c, n - 1) + if SyncAt(c, n - 1) then LeftBy(c, n - 1) else []
  }

  /** The due synchronized groups that get past their last system. */
  function Succeeded(c: Setting, n: nat): seq<WorkGroupID>
    requires n <= |c.s.groups|
  {
    if n == 0 then []
    else
      Succeeded(c, n - 1) +
      if SyncAt(c, n - 1) && StopsAt(c, n - 1) == |c.s.groups[n - 1].systems| then [c.s.groups[n - 1].id] else []
  }

  function SyncSummaries(c: Setting, n: nat): seq<Summary>
    requires n <= |c.s.groups|
  {
    if n == 0 then [] else SyncSummaries(c, n - 1) + if SyncAt(c, n - 1) then [SummaryOf(c, n - 1)] else []
  }

  /** The due async groups. */
  function Dispatched(c: Setting, n: nat): (gs: seq<WorkGroup>)
    requires n <= |c.s.groups|
    ensures |gs| <= n
  {
    if n == 0 then [] else Dispatched(c, n - 1) + if AsyncAt(c, n - 1) then [c.s.groups[n - 1]] else []
  }

  /** What an async group run in place answers: its commands only if it gets past its last system. */
  function AnswerOf(c: Setting, k: nat): JobResult
    requires k < |c.s.groups|
  {
    JobResult(ErrorOf(c, k), if StopsAt(c, k) < |c.s.groups[k].systems| then [] else LeftBy(c, k), Some(SummaryOf(c, k)))
  }

  function InlineAnswers(c: Setting, n: nat): (answers: seq<JobResult>)
    requires n <= |c.s.groups|
    ensures |answers| == |Dispatched(c, n)|
  {
    if n == 0 then [] else InlineAnswers(c, n - 1) + if AsyncAt(c, n - 1) then [AnswerOf(c, n - 1)] else []
  }

  /** The first phase after `n` turns of which none ended the tick. */
  function Passed(c: Setting, n: nat): (ph: Phase1)
    requires n <= |c.s.groups|
    ensures ph.next == n && ph.exit.None?
  {
    Phase1(n, SharedCommands(c, n), Dispatched(c, n), if c.inline then InlineAnswers(c, n) else [],
           Succeeded(c, n), SyncSummaries(c, n), HeadAt(c, n), None)
  }

  /**
   * The first phase ended by the turn of group `k`: with the context's error if the check at the
   * head of the turn fails, and otherwise with the error of the group's run, whose summary is published.
   */
  predicate EndedBy(c: Setting, k: nat, ph: Phase1)
    requires k < |c.s.groups|
  {
    var head := c.polls(HeadAt(c, k));
    && ph.next == k
    && ph.exit == (if head then Some(ContextDone) else ErrorOf(c, k))
    && ph.published == SyncSummaries(c, k) + (if head then [] else [SummaryOf(c, k)])
    && ph.buf == SharedCommands(c, k) + (if head then [] else LeftBy(c, k))
    && ph.executed == Succeeded(c, k)
    && ph.handles == Dispatched(c, k)
    && ph.checks == HeadAt(c, k) + 1 + if head then 0 else ChecksAt(c, k)
  }

  // ---------------------------------------------------------------------------------------------
  // The loop over the groups computes it.

  lemma OneMoreTurn(c: Setting, k: nat)
    requires k < |c.s.groups|
    ensures SharedCommands(c, k + 1) == SharedCommands(c, k) + if SyncAt(c, k) then LeftBy(c, k) else []
    ensures Succeeded(c, k + 1) == Succeeded(c, k) +
      if SyncAt(c, k) && StopsAt(c, k) == |c.s.groups[k].systems| then [c.s.groups[k].id] else []
    ensures SyncSummaries(c, k + 1) == SyncSummaries(c, k) + if SyncAt(c, k) then [SummaryOf(c, k)] else []
    ensures Dispatched(c, k + 1) == Dispatched(c, k) + if AsyncAt(c, k) then [c.s.groups[k]] else []
    ensures InlineAnswers(c, k + 1) == InlineAnswers(c, k) + if AsyncAt(c, k) then [AnswerOf(c, k)] else []
    ensures HeadAt(c, k + 1) == HeadAt(c, k) + 1 + if RunsAt(c, k) then ChecksAt(c, k) else 0
  {
    hide SyncAt, AsyncAt, LeftBy, StopsAt, SummaryOf, AnswerOf, ChecksAt, RunsAt;
  }

  /** What a run leaves, as an equation. */
  lemma RunLeaves(g: WorkGroup, async: bool, tick: uint64, oracle: Oracle, buf: seq<Command>, polls: Polls, p: nat, n: nat)
    requires n == StopAt(g, tick, oracle, polls, p, 0)
    ensures var run := RunGroup(g, async, tick, oracle, buf, polls, p);
      && run.0.buf == buf + KeptCommands(g, tick, oracle, n)
      && run.0.summary == EndSummary(g, async, tick, oracle, n, polls(p + n))
      && run.1 == p + if n < |g.systems| then n + 1 else n
  {
    RunGroupIsExact(g, async, tick, oracle, buf, polls, p);
    hide RunGroup, StopAt, KeptCommands, CallsBelow, FailsAt, LastAt, CallsAt, AttemptsAt, EndSummary;
  }

  /** The run of group `k` in its turn, by where it stops. */
  lemma RunInTurn(c: Setting, k: nat, buf: seq<Command>)
    requires k < |c.s.groups|
    ensures var g := c.s.groups[k];
      var run := RunGroup(g, g.mode.Async?, c.s.tick, c.oracle, buf, c.polls, HeadAt(c, k) + 1);
      run.0.buf == buf + LeftBy(c, k) && run.0.summary == SummaryOf(c, k) && run.1 == HeadAt(c, k) + 1 + ChecksAt(c, k)
  {
    hide RunGroup, HeadAt, StopAt, KeptCommands, EndSummary, FailsAt;
    var g := c.s.groups[k];
    RunLeaves(g, g.mode.Async?, c.s.tick, c.oracle, buf, c.polls, HeadAt(c, k) + 1, StopsAt(c, k));
  }

  lemma SummaryError(c: Setting, k: nat)
    requires k < |c.s.groups|
    ensures SummaryOf(c, k).err == ErrorOf(c, k)
    ensures ErrorOf(c, k).Some? <==> StopsAt(c, k) < |c.s.groups[k].systems|
  {
    hide StopsAt, CancelledAt, ExecutedBelow, LastAt;
  }

  /** The turn of a due synchronized group whose head check passes. */
  lemma SyncTurn(c: Setting, k: nat)
    requires k < |c.s.groups| && !c.polls(HeadAt(c, k)) && SyncAt(c, k)
    ensures var ph := Turn(c.s, c.oracle, c.inline, Passed(c, k), c.polls);
      if EndsTick(c, k) then ph.exit.Some? && ph.next == k && EndedBy(c, k, ph) else ph == Passed(c, k + 1)
  {
    hide RunGroup, HeadAt, StopsAt, LeftBy, SummaryOf, ErrorOf, CancelledAt, ShouldRun, SharedCommands, Succeeded,
         SyncSummaries, Dispatched, InlineAnswers, ChecksAt;
    SyncTurnForm(c, k);
    if EndsTick(c, k) {
      SummaryError(c, k);
      hide AfterSync;
    } else {
      PassedSync(c, k);
      assert Succeeded(c, k) + [] == Succeeded(c, k);
      hide AfterSync, Turn, EndedBy;
    }
  }

  /** A synchronized group's turn by the outcome of its run. */
  lemma SyncTurnForm(c: Setting, k: nat)
    requires k < |c.s.groups| && !c.polls(HeadAt(c, k)) && SyncAt(c, k)
    ensures var g, st := c.s.groups[k], Passed(c, k);
      Turn(c.s, c.oracle, c.inline, st, c.polls) ==
        var st' := st.(buf := SharedCommands(c, k) + LeftBy(c, k),
                       published := SyncSummaries(c, k) + [SummaryOf(c, k)],
                       checks := HeadAt(c, k) + 1 + ChecksAt(c, k));
        if StopsAt(c, k) == |g.systems| then st'.(next := k + 1, executed := Succeeded(c, k) + [g.id])
        else if g.policy == Continue then st'.(next := k + 1)
        else st'.(exit := ErrorOf(c, k))
  {
    hide RunGroup, HeadAt, StopsAt, LeftBy, SummaryOf, ErrorOf, CancelledAt, ShouldRun, SharedCommands, Succeeded,
         SyncSummaries, Dispatched, InlineAnswers, ChecksAt;
    RunInTurn(c, k, SharedCommands(c, k));
    SummaryError(c, k);
  }

  lemma PassedSync(c: Setting, k: nat)
    requires k < |c.s.groups| && SyncAt(c, k)
    ensures Passed(c, k + 1) == Passed(c, k).(
      next := k + 1,
      buf := SharedCommands(c, k) + LeftBy(c, k),
      published := SyncSummaries(c, k) + [SummaryOf(c, k)],
      checks := HeadAt(c, k) + 1 + ChecksAt(c, k),
      executed := Succeeded(c, k) + if StopsAt(c, k) == |c.s.groups[k].systems| then [c.s.groups[k].id] else [])
  {
    OneMoreTurn(c, k);
    hide RunGroup, HeadAt, StopsAt, LeftBy, SummaryOf, ErrorOf, CancelledAt, ShouldRun, SharedCommands, Succeeded,
         SyncSummaries, Dispatched, InlineAnswers, ChecksAt;
  }

  /** The turn of a due async group whose head check passes. */
  lemma AsyncTurn(c: Setting, k: nat)
    requires k < |c.s.groups| && !c.polls(HeadAt(c, k)) && AsyncAt(c, k)
    ensures Turn(c.s, c.oracle, c.inline, Passed(c, k), c.polls) == Passed(c, k + 1)
  {
    if c.inline {
      InlineTurn(c, k);
      hide *;
    } else {
      OneMoreTurn(c, k);
      hide RunGroup, HeadAt, StopsAt, LeftBy, SummaryOf, ErrorOf, CancelledAt, ShouldRun, SharedCommands, Succeeded,
           SyncSummaries, Dispatched, InlineAnswers, ChecksAt, AnswerOf;
    }
  }

  lemma InlineTurn(c: Setting, k: nat)
    requires k < |c.s.groups| && !c.polls(HeadAt(c, k)) && AsyncAt(c, k) && c.inline
    ensures Turn(c.s, c.oracle, c.inline, Passed(c, k), c.polls) == Passed(c, k + 1)
  {
    hide RunGroup, HeadAt, StopsAt, LeftBy, SummaryOf, ErrorOf, CancelledAt, ShouldRun, SharedCommands, Succeeded,
         SyncSummaries, Dispatched, InlineAnswers, ChecksAt;
    InlineAnswer(c, k);
    OneMoreTurn(c, k);
    hide AnswerOf, ResultOf;
  }

  lemma InlineAnswer(c: Setting, k: nat)
    requires k < |c.s.groups| && AsyncAt(c, k)
    ensures var run := RunGroup(c.s.groups[k], true, c.s.tick, c.oracle, [], c.polls, HeadAt(c, k) + 1);
      ResultOf(run.0) == AnswerOf(c, k) && run.1 == HeadAt(c, k) + 1 + ChecksAt(c, k)
  {
    hide RunGroup, HeadAt, StopsAt, LeftBy, SummaryOf, ErrorOf, CancelledAt, ShouldRun, SharedCommands, Succeeded,
         SyncSummaries, Dispatched, InlineAnswers, ChecksAt;
    RunInTurn(c, k, []);
    SummaryError(c, k);
    assert [] + LeftBy(c, k) == LeftBy(c, k);
  }

  lemma TurnFollows(c: Setting, k: nat)
    requires k < |c.s.groups|
    ensures var ph := Turn(c.s, c.oracle, c.inline, Passed(c, k), c.polls);
      if EndsTick(c, k) then ph.exit.Some? && ph.next == k && EndedBy(c, k, ph) else ph == Passed(c, k + 1)
  {
    if !c.polls(HeadAt(c, k)) && SyncAt(c, k) {
      SyncTurn(c, k);
      hide *;
    } else if !c.polls(HeadAt(c, k)) && AsyncAt(c, k) {
      AsyncTurn(c, k);
      hide Turn, Passed, HeadAt;
    } else {
      OneMoreTurn(c, k);
      hide RunGroup, HeadAt, StopsAt, LeftBy, SummaryOf, ErrorOf, CancelledAt, ShouldRun, SharedCommands, Succeeded,
           SyncSummaries, Dispatched, InlineAnswers, ChecksAt;
    }
  }

  /**
   * The first phase ends at the first turn that ends the tick, with that turn's error, and gets
   * past every group if there is none. What it has gathered by then is given in closed form.
   */
  lemma {:induction false} FirstPhaseIsExact(c: Setting, k: nat)
    requires k <= |c.s.groups| && NoneEnds(c, k)
    ensures var ph := Turns(c.s, c.oracle, c.inline, Passed(c, k), c.polls);
      && (ph.exit.None? <==> NoneEnds(c, |c.s.groups|))
      && (ph.exit.None? ==> ph == Passed(c, |c.s.groups|))
      && (ph.exit.Some? ==>
            ph.next < |c.s.groups| && NoneEnds(c, ph.next) && EndsTick(c, ph.next) && EndedBy(c, ph.next, ph))
    decreases |c.s.groups| - k
  {
    hide Turn, EndsTick, EndedBy, Passed, HeadAt;
    if k < |c.s.groups| {
      TurnFollows(c, k);
      if !EndsTick(c, k) {
        FirstPhaseIsExact(c, k + 1);
      }
    }
  }

  // ---------------------------------------------------------------------------------------------
  // The whole tick.

  /** The tick as a whole: `answers` are those of the job handles, if groups are not run in place. */
  ghost function Whole(c: Setting, answers: seq<JobResult>): Outcome
    requires |c.s.groups| <= |answers|
  {
    TickOn(c.s, c.oracle, c.inline, c.polls, c.checks, answers)
  }

  /** What the due async groups answer. */
  function Answered(c: Setting, answers: seq<JobResult>): (r: seq<JobResult>)
    requires |c.s.groups| <= |answers|
    ensures |Dispatched(c, |c.s.groups|)| <= |r|
  {
    if c.inline then InlineAnswers(c, |c.s.groups|) else answers
  }

  /**
   * Exactly when a tick returns nil: no turn ends it, no due async group fails under a policy
   * other than Continue, and the commands of the async groups that succeeded, in dispatch order,
   * and then of the synchronized groups all apply.
   */
  lemma TickSucceedsIff(c: Setting, answers: seq<JobResult>)
    requires |c.s.groups| <= |answers|
    ensures Whole(c, answers).err.None? <==>
      var n := |c.s.groups|;
      var handles, replies := Dispatched(c, n), Answered(c, answers);
      && (forall k :: 0 <= k < n ==> !EndsTick(c, k))
      && (forall k :: 0 <= k < |handles| && replies[k].err.Some? ==> handles[k].policy == Continue)
      && ApplyAll(c.s.world, Granted(replies, |handles|) + SharedCommands(c, n)).err.None?
  {
    hide EndsTick, ApplyAll, SharedCommands, Dispatched, InlineAnswers, Granted, AfterGroups, Whole, SyncSummaries,
         Succeeded, HeadAt, ErrorOf, SummaryOf;
    WholeIsExact(c, answers);
    if NoneEnds(c, |c.s.groups|) {
      CommitsIff(c.s, Passed(c, |c.s.groups|), Answered(c, answers));
    }
  }

  /** A tick ended by the turn of group `k`: nothing is applied, and only the summaries are left. */
  ghost predicate StoppedAt(c: Setting, k: nat, out: Outcome)
    requires k < |c.s.groups|
  {
    var head := c.polls(HeadAt(c, k));
    && out.err.Some? && out.err == (if head then Some(ContextDone) else ErrorOf(c, k))
    && out.world == c.s.world && out.applied == [] && out.tickIndex == c.s.tick && out.lastRun == c.s.lastRun
    && out.published == SyncSummaries(c, k) + if head then [] else [SummaryOf(c, k)]
  }

  /**
   * The prefix law over the closed form: the commands applied are a prefix of those the async
   * groups and then the synchronized groups leave, and the tick either commits all of them, or
   * stops at the first async group that aborts or at the first failing command, or is ended by
   * the first turn that ends it, with nothing applied.
   */
  lemma TickIsExact(c: Setting, answers: seq<JobResult>)
    requires |c.s.groups| <= |answers|
    ensures NoneEnds(c, |c.s.groups|) ==>
      PrefixLaw(c.s, Passed(c, |c.s.groups|), Answered(c, answers), Whole(c, answers))
    ensures !NoneEnds(c, |c.s.groups|) ==>
      exists k: nat :: k < |c.s.groups| && NoneEnds(c, k) && EndsTick(c, k) && StoppedAt(c, k, Whole(c, answers))
  {
    WholeIsExact(c, answers);
    PassedAnswers(c);
    hide *;
    if NoneEnds(c, |c.s.groups|) {
      TickPrefixLaw(c.s, Passed(c, |c.s.groups|), Answered(c, answers));
    }
  }

  /** The tick goes on from the closed form of the first phase, or ends with the error of the turn that ends it. */
  lemma WholeIsExact(c: Setting, answers: seq<JobResult>)
    requires |c.s.groups| <= |answers|
    ensures NoneEnds(c, |c.s.groups|) ==>
      Whole(c, answers) == AfterGroups(c.s, Passed(c, |c.s.groups|), Answered(c, answers))
    ensures !NoneEnds(c, |c.s.groups|) ==>
      exists k: nat :: k < |c.s.groups| && NoneEnds(c, k) && EndsTick(c, k) && StoppedAt(c, k, Whole(c, answers))
  {
    hide EndsTick, EndedBy, AfterGroups, Turns, Passed, NoneEnds, StoppedAt, HeadAt, InlineAnswers, Dispatched;
    PassedNothing(c);
    FirstPhaseIsExact(c, 0);
    HandlesBounded(c.s, c.oracle, c.inline, Begin(c.checks), c.polls);
    var ph := Turns(c.s, c.oracle, c.inline, Begin(c.checks), c.polls);
    if ph.exit.Some? {
      EndedHasStopped(c, ph.next, ph, if c.inline then ph.answers else answers);
    } else {
      PassedAnswers(c);
    }
  }

  lemma PassedNothing(c: Setting)
    ensures Passed(c, 0) == Begin(c.checks) && NoneEnds(c, 0)
  {
  }

  lemma PassedAnswers(c: Setting)
    ensures Passed(c, |c.s.groups|).handles == Dispatched(c, |c.s.groups|)
    ensures c.inline ==> Passed(c, |c.s.groups|).answers == InlineAnswers(c, |c.s.groups|)
  {
  }

  lemma EndedHasStopped(c: Setting, k: nat, ph: Phase1, answers: seq<JobResult>)
    requires k < |c.s.groups| && EndedBy(c, k, ph) && ph.exit.Some? && |ph.handles| <= |answers|
    ensures StoppedAt(c, k, AfterGroups(c.s, ph, answers))
  {
    hide HeadAt, ErrorOf, SyncSummaries, SummaryOf, SharedCommands, Succeeded, Dispatched, ChecksAt, CollectAll, Commit;
  }
}
