/**
 * The meaning of one tick, given what the cancellation checks and the job handles answer. Every
 * way of running a tick, with or without worker goroutines, is an instance of `TickGiven`.
 */
module TickSpec {
  import opened Prelude
  import opened Intervals
  import opened Commands
  import opened WorkGroups

  datatype JobResult = JobResult(err: Option<TickError>, commands: seq<Command>, summary: Option<Summary>)

  /** What a job hands back once its run has ended: a failed run gives up its commands. */
  function ResultOf(rs: RunState): JobResult {
    JobResult(rs.summary.err, if rs.summary.err.Some? then [] else rs.buf, Some(rs.summary))
  }

  /** The result of a job whose context is never done. */
  function ExpectedResult(g: WorkGroup, tick: uint64, oracle: Oracle): JobResult {
    ResultOf(RunGroup(g, true, tick, oracle, [], NEVER, 0).0)
  }

  /** The scheduler state a tick starts from. */
  datatype Start = Start(groups: seq<WorkGroup>,
                         tick: uint64,
                         world: WorldState,
                         lastRun: map<WorkGroupID, uint64>)

  // ---------------------------------------------------------------------------------------------
  // First phase: run the synchronized groups, dispatch the async ones.

  /**
   * The groups passed, the shared buffer, the handles of the async groups, the results of those
   * run in place, the ids of the groups that succeeded, the summaries published and the number
   * of cancellation checks made.
   */
  datatype Phase1 = Phase1(next: nat,
                           buf: seq<Command>,
                           handles: seq<WorkGroup>,
                           answers: seq<JobResult>,
                           executed: seq<WorkGroupID>,
                           published: seq<Summary>,
                           checks: nat,
                           exit: Option<TickError>)

  /** The first phase before any group's turn, when `checks` cancellation checks have been made. */
  function Begin(checks: nat): Phase1 {
    Phase1(0, [], [], [], [], [], checks, None)
  }

  /** The end of a synchronized group's turn. */
  function AfterSync(g: WorkGroup, st: Phase1, rs: RunState, checks: nat): Phase1 {
    var st' := st.(buf := rs.buf, published := st.published + [rs.summary], checks := checks);
    if rs.summary.err.None? then st'.(next := st.next + 1, executed := st.executed + [g.id])
    else if g.policy.Continue? then st'.(next := st.next + 1)
    else st'.(exit := rs.summary.err)
  }

  /** The turn of one group; without workers an async group runs in place. */
  function Turn(s: Start, oracle: Oracle, inline: bool, st: Phase1, polls: Polls): Phase1
    requires st.next < |s.groups|
  {
    var g := s.groups[st.next];
    if polls(st.checks) then st.(exit := Some(ContextDone), checks := st.checks + 1)
    else if !ShouldRun(s.tick, g.interval) then st.(next := st.next + 1, checks := st.checks + 1)
    else if g.mode.Async? then
      if inline then
        var (rs, p) := RunGroup(g, true, s.tick, oracle, [], polls, st.checks + 1);
        st.(next := st.next + 1, handles := st.handles + [g], answers := st.answers + [ResultOf(rs)], checks := p)
      else st.(next := st.next + 1, handles := st.handles + [g], checks := st.checks + 1)
    else
      var (rs, p) := RunGroup(g, false, s.tick, oracle, st.buf, polls, st.checks + 1);
      AfterSync(g, st, rs, p)
  }

  function Turns(s: Start, oracle: Oracle, inline: bool, st: Phase1, polls: Polls): Phase1
    requires st.next <= |s.groups|
    decreases |s.groups| - st.next, st.exit.None?
  {
    if st.exit.Some? || st.next == |s.groups| then st
    else Turns(s, oracle, inline, Turn(s, oracle, inline, st, polls), polls)
  }

  // ---------------------------------------------------------------------------------------------
  // Second phase: collect the async results in dispatch order.

  datatype Phase2 = Phase2(next: nat,
                           world: WorldState,
                           applied: seq<Command>,
                           executed: seq<WorkGroupID>,
                           published: seq<Summary>,
                           exit: Option<TickError>)

  ghost function Collect(g: WorkGroup, answer: JobResult, st: Phase2): Phase2 {
    var st' := if answer.summary.Some? then st.(published := st.published + [answer.summary.value]) else st;
    if answer.err.Some? then
      if g.policy.Continue? then st'.(next := st.next + 1) else st'.(exit := answer.err)
    else
      var out := ApplyAll(st.world, answer.commands);
      var st'' := st'.(world := out.world, applied := st.applied + answer.commands[..Done(out, answer.commands)]);
      if out.err.Some? then st''.(exit := Some(ApplyFailed(out.err.value)))
      else st''.(next := st.next + 1, executed := st.executed + [g.id])
  }

  /** How many commands of the list took effect. */
  ghost function Done(out: Applied, commands: seq<Command>): nat {
    if out.done <= |commands| then out.done else |commands|
  }

  ghost function CollectAll(handles: seq<WorkGroup>, answers: seq<JobResult>, st: Phase2): Phase2
    requires st.next <= |handles| <= |answers|
    decreases |handles| - st.next, st.exit.None?
  {
    if st.exit.Some? || st.next == |handles| then st
    else CollectAll(handles, answers, Collect(handles[st.next], answers[st.next], st))
  }

  // ---------------------------------------------------------------------------------------------
  // Third phase: apply the shared buffer and commit.

  datatype Outcome = Outcome(err: Option<TickError>,
                             world: WorldState,
                             applied: seq<Command>,
                             published: seq<Summary>,
                             tickIndex: uint64,
                             lastRun: map<WorkGroupID, uint64>)

  function MarkRun(lastRun: map<WorkGroupID, uint64>, executed: seq<WorkGroupID>, tick: uint64): map<WorkGroupID, uint64> {
    map id | id in lastRun :: if id in executed then tick else lastRun[id]
  }

  function Stopped(s: Start, err: TickError, world: WorldState, applied: seq<Command>, published: seq<Summary>): Outcome {
    Outcome(Some(err), world, applied, published, s.tick, s.lastRun)
  }

  ghost function Commit(s: Start, buf: seq<Command>, st: Phase2): Outcome {
    if st.exit.Some? then Stopped(s, st.exit.value, st.world, st.applied, st.published)
    else
      var out := ApplyAll(st.world, buf);
      var applied := st.applied + buf[..Done(out, buf)];
      if out.err.Some? then Stopped(s, ApplyFailed(out.err.value), out.world, applied, st.published)
      else
        Outcome(None, out.world, applied, st.published, (s.tick + 1) % TWO_64, MarkRun(s.lastRun, st.executed, s.tick))
  }

  ghost function AfterGroups(s: Start, ph: Phase1, answers: seq<JobResult>): Outcome
    requires |ph.handles| <= |answers|
  {
    if ph.exit.Some? then Stopped(s, ph.exit.value, s.world, [], ph.published)
    else
      Commit(s, ph.buf, CollectAll(ph.handles, answers, Phase2(0, s.world, [], ph.executed, ph.published, None)))
  }

  lemma {:induction false} HandlesBounded(s: Start, oracle: Oracle, inline: bool, st: Phase1, polls: Polls)
    requires st.next <= |s.groups| && |st.handles| <= st.next
    ensures |Turns(s, oracle, inline, st, polls).handles| <= |s.groups|
    ensures inline && |st.answers| == |st.handles| ==>
      |Turns(s, oracle, inline, st, polls).answers| == |Turns(s, oracle, inline, st, polls).handles|
    decreases |s.groups| - st.next, st.exit.None?
  {
    hide RunGroup, ResultOf;
    if st.exit.None? && st.next < |s.groups| {
      HandlesBounded(s, oracle, inline, Turn(s, oracle, inline, st, polls), polls);
    }
  }

  /** A tick with workers, given what the driver's checks and the handles answer. */
  ghost function TickGiven(s: Start, oracle: Oracle, polls: Polls, checks: nat, answers: seq<JobResult>): Outcome
    requires |s.groups| <= |answers|
  {
    HandlesBounded(s, oracle, false, Begin(checks), polls);
    AfterGroups(s, Turns(s, oracle, false, Begin(checks), polls), answers)
  }

  /** A tick without workers: async groups run in place and every check is on one sequence. */
  ghost function TickInline(s: Start, oracle: Oracle, polls: Polls, checks: nat): Outcome {
    HandlesBounded(s, oracle, true, Begin(checks), polls);
    var ph := Turns(s, oracle, true, Begin(checks), polls);
    AfterGroups(s, ph, ph.answers)
  }

  /** A tick without workers or, unless `inline`, with workers whose handles answer `answers`. */
  ghost function TickOn(s: Start, oracle: Oracle, inline: bool, polls: Polls, checks: nat, answers: seq<JobResult>): Outcome
    requires |s.groups| <= |answers|
  {
    if inline then TickInline(s, oracle, polls, checks) else TickGiven(s, oracle, polls, checks, answers)
  }

  /** What waiting on a handle answers, by the number of the tick and of the handle. */
  type Waits = (nat, nat) -> JobResult

  function AnswersOf(waits: Waits, i: nat, n: nat): seq<JobResult> {
    seq(n, k requires 0 <= k < n => waits(i, k))
  }

  /** Tick number `i` of a scheduler with workers or, if `inline`, without. */
  ghost function TickWith(s: Start, oracle: Oracle, inline: bool, waits: Waits, i: nat, polls: Polls, checks: nat): Outcome {
    TickOn(s, oracle, inline, polls, checks, AnswersOf(waits, i, |s.groups|))
  }

  /** The number of checks made by the driver by the end of a tick. */
  function ChecksAfter(s: Start, oracle: Oracle, inline: bool, polls: Polls, checks: nat): nat {
    Turns(s, oracle, inline, Begin(checks), polls).checks
  }

  /** Where the tick after this one starts. */
  ghost function Following(s: Start, out: Outcome): Start {
    Start(s.groups, out.tickIndex, out.world, out.lastRun)
  }

  /** Successive ticks from number `i` on, up to and including the first that fails. */
  ghost function Ticks(s: Start, oracle: Oracle, inline: bool, waits: Waits, i: nat, polls: Polls, checks: nat,
                       steps: nat): (outs: seq<Outcome>)
    ensures |outs| <= steps && (steps > 0 ==> |outs| > 0)
    ensures forall k :: 0 <= k < |outs| - 1 ==> outs[k].err.None?
    ensures |outs| < steps ==> |outs| > 0 && outs[|outs| - 1].err.Some?
    decreases steps
  {
    if steps == 0 then []
    else
      var out := TickWith(s, oracle, inline, waits, i, polls, checks);
      if out.err.Some? then [out]
      else
        [out] + Ticks(Following(s, out), oracle, inline, waits, i + 1, polls,
                      ChecksAfter(s, oracle, inline, polls, checks), steps - 1)
  }

  // ---------------------------------------------------------------------------------------------
  // The prefix law.

  /** The commands of the first `n` async groups that succeeded, in dispatch order. */
  function Granted(answers: seq<JobResult>, n: nat): seq<Command>
    requires n <= |answers|
  {
    if n == 0 then []
    else Granted(answers, n - 1) + if answers[n - 1].err.None? then answers[n - 1].commands else []
  }

  function GrantedIds(handles: seq<WorkGroup>, answers: seq<JobResult>, n: nat): seq<WorkGroupID>
    requires n <= |handles| <= |answers|
  {
    if n == 0 then []
    else GrantedIds(handles, answers, n - 1) + if answers[n - 1].err.None? then [handles[n - 1].id] else []
  }

  function Reported(answers: seq<JobResult>, n: nat): seq<Summary>
    requires n <= |answers|
  {
    if n == 0 then []
    else Reported(answers, n - 1) + if answers[n - 1].summary.Some? then [answers[n - 1].summary.value] else []
  }

  /** Everything the tick means to apply. */
  function Intended(ph: Phase1, answers: seq<JobResult>): seq<Command>
    requires |ph.handles| <= |answers|
  {
    Granted(answers, |ph.handles|) + ph.buf
  }

  /** None of the first `n` async groups failed, but for those whose policy tolerates it. */
  predicate NoneAborts(ph: Phase1, answers: seq<JobResult>, n: nat)
    requires n <= |ph.handles| <= |answers|
  {
    forall k :: 0 <= k < n && answers[k].err.Some? ==> ph.handles[k].policy == Continue
  }

  /** `applied` took effect, from `before` to `after`, without an error. */
  ghost predicate TookEffect(before: WorldState, applied: seq<Command>, after: WorldState) {
    ApplyAll(before, applied) == Applied(after, |applied|, None)
  }

  /** The collection has got to `st.next` without leaving early. */
  ghost predicate Collected(s: Start, ph: Phase1, answers: seq<JobResult>, st: Phase2)
    requires |ph.handles| <= |answers|
  {
    && st.next <= |ph.handles|
    && st.exit.None?
    && st.applied == Granted(answers, st.next)
    && st.executed == ph.executed + GrantedIds(ph.handles, answers, st.next)
    && st.published == ph.published + Reported(answers, st.next)
    && TookEffect(s.world, st.applied, st.world)
    && NoneAborts(ph, answers, st.next)
  }

  /** `err` is an apply error raised by the command of `intended` right after `applied`. */
  ghost predicate FailedAt(world: WorldState, applied: seq<Command>, intended: seq<Command>, err: TickError) {
    && applied < intended
    && ApplyOne(world, intended[|applied|]).1.Some?
    && err == ApplyFailed(ApplyOne(world, intended[|applied|]).1.value)
  }

  /** The collection left early: async group `st.next` aborted, or one of its commands failed. */
  ghost predicate LeftEarly(s: Start, ph: Phase1, answers: seq<JobResult>, st: Phase2)
    requires |ph.handles| <= |answers|
  {
    && st.next < |ph.handles|
    && st.exit.Some?
    && st.published == ph.published + Reported(answers, st.next + 1)
    && TookEffect(s.world, st.applied, st.world)
    && NoneAborts(ph, answers, st.next)
    && if answers[st.next].err.Some? then
         && ph.handles[st.next].policy != Continue
         && st.applied == Granted(answers, st.next) && st.exit == answers[st.next].err
       else
         FailedAt(st.world, st.applied, Granted(answers, st.next + 1), st.exit.value)
  }

  /** Applying a list on top of an effective prefix extends it up to the first failing command. */
  lemma Extend(w0: WorldState, applied: seq<Command>, w: WorldState, commands: seq<Command>)
    requires TookEffect(w0, applied, w)
    ensures var out := ApplyAll(w, commands);
      var applied' := applied + commands[..Done(out, commands)];
      && TookEffect(w0, applied', out.world)
      && (out.err.None? ==> applied' == applied + commands)
      && (out.err.Some? ==> FailedAt(out.world, applied', applied + commands, ApplyFailed(out.err.value)))
  {
    FoldAppliesPrefix(w, commands);
    var out := ApplyAll(w, commands);
    ApplyConcat(w0, applied, commands[..out.done]);
    if out.err.Some? {
      assert (applied + commands)[|applied| + out.done] == commands[out.done];
      assert applied + commands == (applied + commands[..out.done]) + commands[out.done..];
    } else {
      assert commands[..out.done] == commands;
    }
  }

  /** One more group, in each of the lists gathered from the answers. */
  lemma OneMore(handles: seq<WorkGroup>, answers: seq<JobResult>, n: nat)
    requires n < |handles| <= |answers|
    ensures var a := answers[n];
      && Reported(answers, n + 1) == Reported(answers, n) + (if a.summary.Some? then [a.summary.value] else [])
      && Granted(answers, n + 1) == Granted(answers, n) + (if a.err.None? then a.commands else [])
      && GrantedIds(handles, answers, n + 1)
           == GrantedIds(handles, answers, n) + (if a.err.None? then [handles[n].id] else [])
  {
  }

  lemma CollectStep(s: Start, ph: Phase1, answers: seq<JobResult>, st: Phase2)
    requires |ph.handles| <= |answers| && st.next < |ph.handles| && Collected(s, ph, answers, st)
    ensures var st' := Collect(ph.handles[st.next], answers[st.next], st);
      if st'.exit.None? then st'.next == st.next + 1 && Collected(s, ph, answers, st')
      else st'.next == st.next && LeftEarly(s, ph, answers, st')
  {
    var a := answers[st.next];
    OneMore(ph.handles, answers, st.next);
    if a.err.None? {
      Extend(s.world, st.applied, st.world, a.commands);
    }
    hide ApplyAll, ApplyOne, TookEffect, FailedAt, Granted, GrantedIds, Reported, Done;
  }

  lemma {:induction false} CollectionIsExact(s: Start, ph: Phase1, answers: seq<JobResult>, st: Phase2)
    requires st.next <= |ph.handles| <= |answers| && st.exit.None? && Collected(s, ph, answers, st)
    ensures var end := CollectAll(ph.handles, answers, st);
      if end.exit.None? then end.next == |ph.handles| && Collected(s, ph, answers, end)
      else end.next < |ph.handles| && LeftEarly(s, ph, answers, end)
    decreases |ph.handles| - st.next
  {
    hide Collected, LeftEarly, Collect;
    if st.next < |ph.handles| {
      CollectStep(s, ph, answers, st);
      var st' := Collect(ph.handles[st.next], answers[st.next], st);
      if st'.exit.None? {
        CollectionIsExact(s, ph, answers, st');
      }
    }
  }

  /** If a command fails right after an effective prefix, the whole list fails. */
  lemma FailingPrefix(w: WorldState, applied: seq<Command>, w': WorldState, all: seq<Command>, err: TickError)
    requires TookEffect(w, applied, w') && FailedAt(w', applied, all, err)
    ensures ApplyAll(w, all).err.Some?
  {
    ApplyConcat(w, applied, all[|applied|..]);
    assert all == applied + all[|applied|..];
  }

  lemma GrantedPrefix(answers: seq<JobResult>, m: nat, n: nat)
    requires m <= n <= |answers|
    ensures Granted(answers, m) <= Granted(answers, n)
  {
    if m < n {
      GrantedPrefix(answers, m, n - 1);
    }
  }

  lemma LongerList(world: WorldState, applied: seq<Command>, shorter: seq<Command>, longer: seq<Command>, err: TickError)
    requires FailedAt(world, applied, shorter, err) && shorter <= longer
    ensures FailedAt(world, applied, longer, err)
  {
  }

  /** A tick that commits: everything intended took effect, and exactly the successful groups are marked. */
  ghost predicate Committed(s: Start, ph: Phase1, answers: seq<JobResult>, out: Outcome)
    requires |ph.handles| <= |answers|
  {
    && out.err == None
    && out.applied == Intended(ph, answers)
    && out.published == ph.published + Reported(answers, |ph.handles|)
    && out.tickIndex == (s.tick + 1) % TWO_64
    && out.lastRun.Keys == s.lastRun.Keys
    && var executed := ph.executed + GrantedIds(ph.handles, answers, |ph.handles|);
       forall id :: id in s.lastRun ==> out.lastRun[id] == if id in executed then s.tick else s.lastRun[id]
  }

  /** A tick stopped by async group `k`: exactly the earlier async groups' commands took effect. */
  ghost predicate StoppedByGroup(ph: Phase1, answers: seq<JobResult>, k: nat, out: Outcome)
    requires |ph.handles| <= |answers|
  {
    && k < |ph.handles| && answers[k].err.Some? && ph.handles[k].policy != Continue
    && NoneAborts(ph, answers, k)
    && out.err == answers[k].err
    && out.applied == Granted(answers, k)
    && out.published == ph.published + Reported(answers, k + 1)
  }

  /**
   * The prefix law. The commands applied are a prefix of the intended ones and the world is what
   * they make of it: none if the first phase stopped the tick, those of the earlier async groups
   * if one aborts, those before the failing command if a command fails, and all of them
   * otherwise. Only then do the tick index and the last-run marks change.
   */
  ghost predicate PrefixLaw(s: Start, ph: Phase1, answers: seq<JobResult>, out: Outcome)
    requires |ph.handles| <= |answers|
  {
    && TookEffect(s.world, out.applied, out.world)
    && out.applied <= Intended(ph, answers)
    && (out.err.None? ==> Committed(s, ph, answers, out))
    && (out.err.Some? ==> out.tickIndex == s.tick && out.lastRun == s.lastRun)
    && (ph.exit.Some? ==> out.err == ph.exit && out.applied == [] && out.published == ph.published)
    && (ph.exit.None? && out.err.Some? ==>
          || (exists k :: StoppedByGroup(ph, answers, k, out))
          || FailedAt(out.world, out.applied, Intended(ph, answers), out.err.value))
  }

  /** The prefix law holds on every path out of a tick. */
  lemma TickPrefixLaw(s: Start, ph: Phase1, answers: seq<JobResult>)
    requires |ph.handles| <= |answers|
    ensures PrefixLaw(s, ph, answers, AfterGroups(s, ph, answers))
  {
    if ph.exit.None? {
      var begin := Phase2(0, s.world, [], ph.executed, ph.published, None);
      CollectionIsExact(s, ph, answers, begin);
      var end := CollectAll(ph.handles, answers, begin);
      hide CollectAll, ApplyAll, ApplyOne;
      if end.exit.None? {
        CommitIsExact(s, ph, answers, end);
      } else {
        EarlyExitIsExact(s, ph, answers, end);
      }
    }
  }

  lemma CommitIsExact(s: Start, ph: Phase1, answers: seq<JobResult>, end: Phase2)
    requires |ph.handles| <= |answers| && end.next == |ph.handles| && Collected(s, ph, answers, end)
    ensures var out := Commit(s, ph.buf, end);
      && TookEffect(s.world, out.applied, out.world)
      && out.applied <= Intended(ph, answers)
      && (out.err.None? ==> Committed(s, ph, answers, out))
      && (out.err.Some? ==>
            && out.tickIndex == s.tick && out.lastRun == s.lastRun
            && FailedAt(out.world, out.applied, Intended(ph, answers), out.err.value))
  {
    Extend(s.world, end.applied, end.world, ph.buf);
    hide ApplyAll, ApplyOne, TookEffect;
  }

  lemma EarlyExitIsExact(s: Start, ph: Phase1, answers: seq<JobResult>, end: Phase2)
    requires |ph.handles| <= |answers| && end.next < |ph.handles| && LeftEarly(s, ph, answers, end)
    ensures var out := Commit(s, ph.buf, end);
      && TookEffect(s.world, out.applied, out.world)
      && out.applied <= Intended(ph, answers)
      && out.err.Some? && out.tickIndex == s.tick && out.lastRun == s.lastRun
      && (StoppedByGroup(ph, answers, end.next, out)
          || FailedAt(out.world, out.applied, Intended(ph, answers), out.err.value))
  {
    var k := end.next;
    GrantedPrefix(answers, k, |ph.handles|);
    GrantedPrefix(answers, k + 1, |ph.handles|);
    if answers[k].err.None? {
      LongerList(end.world, end.applied, Granted(answers, k + 1), Intended(ph, answers), end.exit.value);
    }
    hide ApplyAll, ApplyOne, TookEffect, CollectAll, Granted, Reported;
  }

  /**
   * Exactly when a tick returns nil: the first phase ends, no async group aborts, and the
   * intended commands all apply.
   */
  lemma CommitsIff(s: Start, ph: Phase1, answers: seq<JobResult>)
    requires |ph.handles| <= |answers|
    ensures AfterGroups(s, ph, answers).err.None? <==>
      && ph.exit.None?
      && NoneAborts(ph, answers, |ph.handles|)
      && ApplyAll(s.world, Intended(ph, answers)).err.None?
  {
    var out := AfterGroups(s, ph, answers);
    TickPrefixLaw(s, ph, answers);
    if out.err.None? {
      NoAbortOnSuccess(s, ph, answers);
    } else if ph.exit.None? {
      if FailedAt(out.world, out.applied, Intended(ph, answers), out.err.value) {
        FailingPrefix(s.world, out.applied, out.world, Intended(ph, answers), out.err.value);
      }
    }
  }

  lemma NoAbortOnSuccess(s: Start, ph: Phase1, answers: seq<JobResult>)
    requires |ph.handles| <= |answers| && AfterGroups(s, ph, answers).err.None?
    ensures ph.exit.None? && NoneAborts(ph, answers, |ph.handles|)
  {
    CollectionIsExact(s, ph, answers, Phase2(0, s.world, [], ph.executed, ph.published, None));
    hide CollectAll, ApplyAll, ApplyOne;
  }

  // ---------------------------------------------------------------------------------------------
  // Runs of ticks.

  /** Where tick number `k` of a run with the outcomes `outs` starts. */
  function StartOf(s: Start, outs: seq<Outcome>, k: nat): Start
    requires k <= |outs|
  {
    if k == 0 then s else Start(s.groups, (s.tick + k) % TWO_64, outs[k - 1].world, outs[k - 1].lastRun)
  }

  /** `outs` are the outcomes of successive ticks, whose checks start at the positions `cs`. */
  ghost predicate Chained(s: Start, oracle: Oracle, inline: bool, waits: Waits, i: nat, polls: Polls,
                          outs: seq<Outcome>, cs: seq<nat>)
    requires |cs| == |outs|
  {
    && (forall k :: 0 <= k < |outs| ==> outs[k] == TickWith(StartOf(s, outs, k), oracle, inline, waits, i + k, polls, cs[k]))
    && (forall k :: 0 <= k < |outs| - 1 ==> cs[k + 1] == ChecksAfter(StartOf(s, outs, k), oracle, inline, polls, cs[k]))
  }

  /**
   * A run of ticks, without recursion: tick number `k` has the index `s.tick + k` modulo 2^64,
   * starts from the world and the marks that the one before it left, and makes its checks after those
   * of the ticks before it.
   */
  lemma {:induction false} RunIsChained(s: Start, oracle: Oracle, inline: bool, waits: Waits, i: nat, polls: Polls,
                                        checks: nat, steps: nat) returns (cs: seq<nat>)
    ensures var outs := Ticks(s, oracle, inline, waits, i, polls, checks, steps);
      && |cs| == |outs| && (cs != [] ==> cs[0] == checks)
      && Chained(s, oracle, inline, waits, i, polls, outs, cs)
    decreases steps
  {
    hide TickWith, ChecksAfter, Chained, StartOf, Following;
    ChainBegins(s, oracle, inline, waits, i, polls, checks);
    cs := [];
    if steps > 0 {
      var out := TickWith(s, oracle, inline, waits, i, polls, checks);
      var checks' := ChecksAfter(s, oracle, inline, polls, checks);
      cs := [checks];
      if out.err.None? {
        AdvancesByOne(s, oracle, inline, waits, i, polls, checks);
        var cs' := RunIsChained(Following(s, out), oracle, inline, waits, i + 1, polls, checks', steps - 1);
        var outs' := Ticks(Following(s, out), oracle, inline, waits, i + 1, polls, checks', steps - 1);
        ChainGrows(s, oracle, inline, waits, i, polls, out, outs', checks, cs');
        cs := cs + cs';
      }
    }
  }

  lemma ChainBegins(s: Start, oracle: Oracle, inline: bool, waits: Waits, i: nat, polls: Polls, checks: nat)
    ensures Chained(s, oracle, inline, waits, i, polls, [], [])
    ensures Chained(s, oracle, inline, waits, i, polls, [TickWith(s, oracle, inline, waits, i, polls, checks)], [checks])
  {
    hide TickWith, ChecksAfter;
  }

  /** A tick that succeeds advances the index by one. */
  lemma AdvancesByOne(s: Start, oracle: Oracle, inline: bool, waits: Waits, i: nat, polls: Polls, checks: nat)
    requires TickWith(s, oracle, inline, waits, i, polls, checks).err.None?
    ensures TickWith(s, oracle, inline, waits, i, polls, checks).tickIndex == (s.tick + 1) % TWO_64
  {
    hide ApplyAll, CollectAll, Turns;
  }

  lemma ChainGrows(s: Start, oracle: Oracle, inline: bool, waits: Waits, i: nat, polls: Polls,
                   out: Outcome, outs: seq<Outcome>, checks: nat, cs: seq<nat>)
    requires out == TickWith(s, oracle, inline, waits, i, polls, checks) && out.tickIndex == (s.tick + 1) % TWO_64
    requires |cs| == |outs| && (cs != [] ==> cs[0] == ChecksAfter(s, oracle, inline, polls, checks))
    requires Chained(Following(s, out), oracle, inline, waits, i + 1, polls, outs, cs)
    ensures Chained(s, oracle, inline, waits, i, polls, [out] + outs, [checks] + cs)
  {
    hide TickWith, ChecksAfter;
    var outs', cs' := [out] + outs, [checks] + cs;
    forall k | 0 <= k < |outs|
      ensures StartOf(s, outs', k + 1) == StartOf(Following(s, out), outs, k)
    {
      if k > 0 {
        NextIndex(s.tick, k);
      }
    }
    forall k | 0 <= k < |outs'|
      ensures outs'[k] == TickWith(StartOf(s, outs', k), oracle, inline, waits, i + k, polls, cs'[k])
      ensures k < |outs'| - 1 ==> cs'[k + 1] == ChecksAfter(StartOf(s, outs', k), oracle, inline, polls, cs'[k])
    {
      if k > 0 {
        assert StartOf(s, outs', (k - 1) + 1) == StartOf(Following(s, out), outs, k - 1);
      }
    }
  }

  lemma NextIndex(tick: nat, k: nat)
    ensures ((tick + 1) % TWO_64 + k) % TWO_64 == (tick + (k + 1)) % TWO_64
  {
  }

  /**
   * A group that fails under Continue does not end the tick, but what becomes of its commands
   * depends on its mode: a synchronized group keeps those of the systems before the failure, an
   * async group gives up all of its commands.
   */
  lemma ContinueKeepsOnlySync(g: WorkGroup, tick: uint64, oracle: Oracle, st: Phase1, polls: Polls, p: nat)
    requires g.policy.Continue? && st.exit.None? && StopAt(g, tick, oracle, polls, p, 0) < |g.systems|
    ensures var n := StopAt(g, tick, oracle, polls, p, 0);
      var (rs, checks) := RunGroup(g, false, tick, oracle, st.buf, polls, p);
      var st' := AfterSync(g, st, rs, checks);
      && st'.exit.None? && st'.executed == st.executed
      && st'.buf == st.buf + KeptCommands(g, tick, oracle, n)
      && (polls(p + n) || FailsAt(g, tick, oracle, n))
    ensures var answer := ResultOf(RunGroup(g, true, tick, oracle, [], polls, p).0);
      answer.err.Some? && answer.commands == []
  {
    RunGroupIsExact(g, false, tick, oracle, st.buf, polls, p);
    RunGroupIsExact(g, true, tick, oracle, [], polls, p);
    hide RunGroup, StopAt, FailsAt, KeptCommands, ExecutedBelow, CallsBelow;
  }

  // ---------------------------------------------------------------------------------------------
  // Workers or not: an uncancelled tick is the same.

  /** The two first phases have passed the same groups with the same effect. */
  ghost predicate InStep(tick: uint64, oracle: Oracle, a: Phase1, b: Phase1) {
    && a.next == b.next && a.buf == b.buf && a.handles == b.handles
    && a.executed == b.executed && a.published == b.published && a.exit == b.exit
    && |a.answers| == |a.handles|
    && forall k :: 0 <= k < |a.handles| ==> a.answers[k] == ExpectedResult(a.handles[k], tick, oracle)
  }

  lemma TurnInStep(s: Start, oracle: Oracle, a: Phase1, pa: Polls, b: Phase1, pb: Polls)
    requires InStep(s.tick, oracle, a, b) && a.next < |s.groups| && a.exit.None?
    requires Uncancelled(pa, a.checks) && Uncancelled(pb, b.checks)
    ensures InStep(s.tick, oracle, Turn(s, oracle, true, a, pa), Turn(s, oracle, false, b, pb))
  {
    GroupRunsAgree(s.groups[a.next], s.tick, oracle, a, pa, b, pb);
    assert !pa(a.checks) && !pb(b.checks);
    hide RunGroup, ResultOf, ExpectedResult, Uncancelled;
  }

  lemma GroupRunsAgree(g: WorkGroup, tick: uint64, oracle: Oracle, a: Phase1, pa: Polls, b: Phase1, pb: Polls)
    requires a.buf == b.buf && Uncancelled(pa, a.checks) && Uncancelled(pb, b.checks)
    ensures RunGroup(g, false, tick, oracle, a.buf, pa, a.checks + 1).0
         == RunGroup(g, false, tick, oracle, b.buf, pb, b.checks + 1).0
    ensures ResultOf(RunGroup(g, true, tick, oracle, [], pa, a.checks + 1).0) == ExpectedResult(g, tick, oracle)
  {
    UncancelledRunsAgree(g, tick, oracle, StartRun(g, false, tick, a.buf), pa, a.checks + 1, pb, b.checks + 1);
    UncancelledRunsAgree(g, tick, oracle, StartRun(g, true, tick, []), pa, a.checks + 1, NEVER, 0);
    hide RunFrom, ResultOf, StartRun;
  }

  /** Checks are only ever added. */
  lemma {:induction false} RunFromChecks(g: WorkGroup, tick: uint64, oracle: Oracle, rs: RunState, polls: Polls, p: nat)
    requires rs.next <= |g.systems|
    ensures RunFrom(g, tick, oracle, rs, polls, p).1 >= p
    decreases |g.systems| - rs.next, !rs.done
  {
    if !rs.done && rs.next < |g.systems| {
      RunFromChecks(g, tick, oracle, StepRun(g, tick, oracle, rs, polls(p)), polls, p + 1);
    }
  }

  lemma TurnAddsChecks(s: Start, oracle: Oracle, inline: bool, st: Phase1, polls: Polls)
    requires st.next < |s.groups|
    ensures Turn(s, oracle, inline, st, polls).checks >= st.checks
  {
    var g := s.groups[st.next];
    RunFromChecks(g, s.tick, oracle, StartRun(g, true, s.tick, []), polls, st.checks + 1);
    RunFromChecks(g, s.tick, oracle, StartRun(g, false, s.tick, st.buf), polls, st.checks + 1);
    hide RunFrom, StartRun;
  }

  lemma {:induction false} TurnsInStep(s: Start, oracle: Oracle, a: Phase1, pa: Polls, b: Phase1, pb: Polls)
    requires InStep(s.tick, oracle, a, b) && a.next <= |s.groups|
    requires Uncancelled(pa, a.checks) && Uncancelled(pb, b.checks)
    ensures InStep(s.tick, oracle, Turns(s, oracle, true, a, pa), Turns(s, oracle, false, b, pb))
    decreases |s.groups| - a.next, a.exit.None?
  {
    if a.exit.None? && a.next < |s.groups| {
      TurnInStep(s, oracle, a, pa, b, pb);
      TurnAddsChecks(s, oracle, true, a, pa);
      TurnAddsChecks(s, oracle, false, b, pb);
      TurnAdvances(s, oracle, true, a, pa);
      hide Turn;
      TurnsInStep(s, oracle, Turn(s, oracle, true, a, pa), pa, Turn(s, oracle, false, b, pb), pb);
    }
  }

  lemma TurnAdvances(s: Start, oracle: Oracle, inline: bool, st: Phase1, polls: Polls)
    requires st.next < |s.groups| && st.exit.None?
    ensures var st' := Turn(s, oracle, inline, st, polls);
      if st'.exit.None? then st'.next == st.next + 1 else st'.next == st.next
  {
    hide RunGroup, ResultOf;
  }

  /** Answers beyond the handles do not matter. */
  lemma {:induction false} CollectSameAnswers(handles: seq<WorkGroup>, a: seq<JobResult>, b: seq<JobResult>, st: Phase2)
    requires st.next <= |handles| <= |a| && |handles| <= |b|
    requires forall k :: 0 <= k < |handles| ==> a[k] == b[k]
    ensures CollectAll(handles, a, st) == CollectAll(handles, b, st)
    decreases |handles| - st.next, st.exit.None?
  {
    hide ApplyAll;
    if st.exit.None? && st.next < |handles| {
      CollectSameAnswers(handles, a, b, Collect(handles[st.next], a[st.next], st));
    }
  }

  /**
   * With a context that is never done, a tick whose handles all answer what their jobs compute
   * is the tick without workers.
   */
  lemma WorkersDoNotMatter(s: Start, oracle: Oracle, pa: Polls, checks: nat, pb: Polls, answers: seq<JobResult>)
    requires |s.groups| <= |answers| && Uncancelled(pa, checks) && Uncancelled(pb, 0)
    requires var handles := Turns(s, oracle, false, Begin(0), pb).handles;
      |handles| <= |s.groups| && forall k :: 0 <= k < |handles| ==> answers[k] == ExpectedResult(handles[k], s.tick, oracle)
    ensures TickGiven(s, oracle, pb, 0, answers) == TickInline(s, oracle, pa, checks)
  {
    TurnsInStep(s, oracle, Begin(checks), pa, Begin(0), pb);
    var a, b := Turns(s, oracle, true, Begin(checks), pa), Turns(s, oracle, false, Begin(0), pb);
    if a.exit.None? {
      CollectSameAnswers(a.handles, a.answers, answers, Phase2(0, s.world, [], a.executed, a.published, None));
    }
  }
}
