/**
 * The order in which registered groups take their turns, and why it does not matter for groups
 * that do not conflict.
 */
module Ordering {
  import opened Prelude
  import opened Intervals
  import opened Commands
  import opened WorkGroups
  import opened Admission
  import opened TickSpec

  /** The ids of `order` that are registered, repeats included. */
  function Registered(order: seq<WorkGroupID>, known: set<WorkGroupID>): seq<WorkGroupID> {
    if order == [] then []
    else
      var last := order[|order| - 1];
      Registered(order[..|order| - 1], known) + if last in known then [last] else []
  }

  /** The ids of `registration` that `order` does not name. */
  function Remaining(registration: seq<WorkGroupID>, order: seq<WorkGroupID>): seq<WorkGroupID> {
    if registration == [] then []
    else
      var last := registration[|registration| - 1];
      Remaining(registration[..|registration| - 1], order) + if last in order then [] else [last]
  }

  lemma RegisteredStep(order: seq<WorkGroupID>, known: set<WorkGroupID>, i: nat)
    requires i < |order|
    ensures Registered(order[..i + 1], known)
         == Registered(order[..i], known) + (if order[i] in known then [order[i]] else [])
    ensures forall x :: x in order[..i + 1] <==> x in order[..i] || x == order[i]
  {
    assert order[..i + 1][..i] == order[..i];
  }

  lemma RemainingStep(registration: seq<WorkGroupID>, order: seq<WorkGroupID>, i: nat)
    requires i < |registration|
    ensures Remaining(registration[..i + 1], order)
         == Remaining(registration[..i], order) + (if registration[i] in order then [] else [registration[i]])
    ensures forall x :: x in registration[..i + 1] <==> x in registration[..i] || x == registration[i]
    ensures NoDup(registration) ==> registration[i] !in registration[..i]
  {
    assert registration[..i + 1][..i] == registration[..i];
  }

  /** The turn order: the configured ids that are registered, then the others as registered. */
  function TurnOrder(order: seq<WorkGroupID>, registration: seq<WorkGroupID>): seq<WorkGroupID> {
    Registered(order, Elements(registration)) + Remaining(registration, order)
  }

  // ---------------------------------------------------------------------------------------------
  // The turn order by positions.

  function Among(ids: seq<WorkGroupID>): WorkGroupID -> bool {
    id => id in ids
  }

  function NotAmong(ids: seq<WorkGroupID>): WorkGroupID -> bool {
    id => id !in ids
  }

  /**
   * The configured ids come first: the turns are those of `order` that are registered, each as
   * often as `order` names it and in its order, and then, in registration order, the registered
   * ids that `order` does not name.
   */
  ghost predicate ConfiguredFirst(turns: seq<WorkGroupID>, order: seq<WorkGroupID>, registration: seq<WorkGroupID>) {
    exists n: nat ::
      && n <= |turns|
      && Filtered(turns[..n], order, Among(registration))
      && Filtered(turns[n..], registration, NotAmong(order))
  }

  lemma {:induction false} RegisteredIsFiltered(order: seq<WorkGroupID>, registration: seq<WorkGroupID>)
    ensures Filtered(Registered(order, Elements(registration)), order, Among(registration))
  {
    var keep := Among(registration);
    if order == [] {
      NothingFiltered(keep);
    } else {
      var n := |order| - 1;
      RegisteredIsFiltered(order[..n], registration);
      FilteredStep(Registered(order[..n], Elements(registration)), order[..n], keep, order[n]);
      hide Filtered;
      assert order == order[..n] + [order[n]];
    }
  }

  lemma {:induction false} RemainingIsFiltered(registration: seq<WorkGroupID>, order: seq<WorkGroupID>)
    ensures Filtered(Remaining(registration, order), registration, NotAmong(order))
  {
    var keep := NotAmong(order);
    if registration == [] {
      NothingFiltered(keep);
    } else {
      var n := |registration| - 1;
      RemainingIsFiltered(registration[..n], order);
      FilteredStep(Remaining(registration[..n], order), registration[..n], keep, registration[n]);
      hide Filtered;
      assert registration == registration[..n] + [registration[n]];
    }
  }

  /** The turn order, by the positions of the ids in the configured and in the registration order. */
  lemma TurnOrderIsExact(order: seq<WorkGroupID>, registration: seq<WorkGroupID>)
    ensures ConfiguredFirst(TurnOrder(order, registration), order, registration)
  {
    RegisteredIsFiltered(order, registration);
    RemainingIsFiltered(registration, order);
    var first, rest := Registered(order, Elements(registration)), Remaining(registration, order);
    assert (first + rest)[..|first|] == first && (first + rest)[|first|..] == rest;
    hide Filtered, Registered, Remaining;
  }

  /** No group that the configured order names has its turn after one that it does not name. */
  lemma NoneBeforeConfigured(turns: seq<WorkGroupID>, order: seq<WorkGroupID>, registration: seq<WorkGroupID>,
                             i: nat, j: nat)
    requires ConfiguredFirst(turns, order, registration) && i < j < |turns| && turns[j] in order
    ensures turns[i] in order
  {
    var n: nat :| && n <= |turns|
                  && Filtered(turns[..n], order, Among(registration))
                  && Filtered(turns[n..], registration, NotAmong(order));
    if i < n {
      FilteredElements(turns[..n], order, Among(registration), turns[..n][i]);
    } else {
      FilteredElements(turns[n..], registration, NotAmong(order), turns[n..][j - n]);
    }
    hide Filtered;
  }

  // ---------------------------------------------------------------------------------------------
  // How often each group has a turn.

  lemma {:induction false} RegisteredCount(order: seq<WorkGroupID>, known: set<WorkGroupID>, id: WorkGroupID)
    ensures multiset(Registered(order, known))[id] == if id in known then multiset(order)[id] else 0
  {
    if order != [] {
      var n := |order| - 1;
      RegisteredCount(order[..n], known, id);
      assert order == order[..n] + [order[n]];
    }
  }

  lemma {:induction false} RemainingCount(registration: seq<WorkGroupID>, order: seq<WorkGroupID>, id: WorkGroupID)
    ensures multiset(Remaining(registration, order))[id] == if id in order then 0 else multiset(registration)[id]
  {
    if registration != [] {
      var n := |registration| - 1;
      RemainingCount(registration[..n], order, id);
      assert registration == registration[..n] + [registration[n]];
    }
  }

  lemma {:induction false} NoDupCount<T>(s: seq<T>, x: T)
    requires NoDup(s)
    ensures multiset(s)[x] == if x in s then 1 else 0
  {
    if s != [] {
      var n := |s| - 1;
      NoDupCount(s[..n], x);
      assert s == s[..n] + [s[n]];
      assert s[n] !in s[..n];
    }
  }

  /**
   * How often each group takes a turn in one tick: once, or as often as the configured order
   * names it if that is more; a group that is not registered never does.
   */
  lemma TurnsPerGroup(order: seq<WorkGroupID>, registration: seq<WorkGroupID>, id: WorkGroupID)
    requires NoDup(registration)
    ensures multiset(TurnOrder(order, registration))[id] ==
      if id !in registration then 0 else if id in order then multiset(order)[id] else 1
  {
    RegisteredCount(order, Elements(registration), id);
    RemainingCount(registration, order, id);
    NoDupCount(registration, id);
  }

  /** Without repeats in the configured order the turn order is a permutation of all groups. */
  lemma TurnOrderIsPermutation(order: seq<WorkGroupID>, registration: seq<WorkGroupID>)
    requires NoDup(registration) && NoDup(order)
    ensures multiset(TurnOrder(order, registration)) == multiset(registration)
  {
    forall id ensures multiset(TurnOrder(order, registration))[id] == multiset(registration)[id] {
      TurnsPerGroup(order, registration, id);
      NoDupCount(registration, id);
      NoDupCount(order, id);
    }
  }

  // ---------------------------------------------------------------------------------------------
  // The turn order of conflict-free groups does not matter.

  /** The commands a group that never fails contributes on a tick. */
  function Contribution(g: WorkGroup, tick: uint64, oracle: Oracle): seq<Command> {
    if ShouldRun(tick, g.interval) then KeptCommands(g, tick, oracle, |g.systems|) else []
  }

  predicate NeverFails(g: WorkGroup, tick: uint64, oracle: Oracle) {
    forall i :: 0 <= i < |g.systems| ==> !FailsAt(g, tick, oracle, i)
  }

  function Contributions(gs: seq<WorkGroup>, tick: uint64, oracle: Oracle): (c: seq<seq<Command>>)
    ensures |c| == |gs|
  {
    seq(|gs|, i requires 0 <= i < |gs| => Contribution(gs[i], tick, oracle))
  }

  function WriteSets(gs: seq<WorkGroup>): seq<set<ComponentType>> {
    seq(|gs|, i requires 0 <= i < |gs| => gs[i].access.componentWrites)
  }

  predicate InRange(order: seq<nat>, n: nat) {
    forall k :: 0 <= k < |order| ==> order[k] < n
  }

  function Pick(gs: seq<WorkGroup>, order: seq<nat>): seq<WorkGroup>
    requires InRange(order, |gs|)
  {
    seq(|order|, k requires 0 <= k < |order| => gs[order[k]])
  }

  /**
   * Groups that succeed and keep their deferred adds and removes within their declared writes,
   * which admission keeps disjoint; an async group declares none.
   */
  ghost predicate WellBehaved(w: WorldState, gs: seq<WorkGroup>, tick: uint64, oracle: Oracle) {
    && (forall i :: 0 <= i < |gs| ==> NeverFails(gs[i], tick, oracle))
    && (forall i :: 0 <= i < |gs| && gs[i].mode.Async? ==> gs[i].access.componentWrites == {})
    && ConflictFree(w, Contributions(gs, tick, oracle), WriteSets(gs))
  }

  /** Async groups have nothing to contribute. */
  ghost predicate OnlySyncContributes(gs: seq<WorkGroup>, tick: uint64, oracle: Oracle) {
    forall i :: 0 <= i < |gs| && gs[i].mode.Async? ==> Contribution(gs[i], tick, oracle) == []
  }

  lemma WritesNeeded(w: WorldState, block: seq<Command>, writes: set<ComponentType>)
    requires Contained(w, block, writes)
    ensures block == [] || writes != {}
  {
    hide ApplyOne;
    if block != [] {
      assert block[0].component in writes;
    }
  }

  lemma AsyncContributesNothing(w: WorldState, gs: seq<WorkGroup>, tick: uint64, oracle: Oracle)
    requires WellBehaved(w, gs, tick, oracle)
    ensures OnlySyncContributes(gs, tick, oracle)
  {
    hide NeverFails, Contribution, ApplyOne;
    forall i | 0 <= i < |gs| && gs[i].mode.Async?
      ensures Contribution(gs[i], tick, oracle) == []
    {
      var blocks := Contributions(gs, tick, oracle);
      WritesNeeded(w, blocks[i], WriteSets(gs)[i]);
    }
  }

  /** An uncancelled run of a group that never fails keeps all its commands. */
  lemma RunSucceeds(g: WorkGroup, async: bool, tick: uint64, oracle: Oracle, buf: seq<Command>, polls: Polls, p: nat)
    requires NeverFails(g, tick, oracle) && Uncancelled(polls, p)
    ensures var (rs, p') := RunGroup(g, async, tick, oracle, buf, polls, p);
      && rs.buf == buf + KeptCommands(g, tick, oracle, |g.systems|) && rs.summary.err == None
      && p' >= p
  {
    RunGroupIsExact(g, async, tick, oracle, buf, polls, p);
    StopIsFirst(g, tick, oracle, polls, p, 0, 0);
    RunFromChecks(g, tick, oracle, StartRun(g, async, tick, buf), polls, p);
    hide RunFrom;
  }

  /** Every handle so far was answered without an error and without commands. */
  ghost predicate Harmless(handles: seq<WorkGroup>, answers: seq<JobResult>) {
    && |handles| == |answers|
    && forall k :: 0 <= k < |answers| ==> answers[k].err.None? && answers[k].commands == []
  }

  lemma ArrangeNext(blocks: seq<seq<Command>>, order: seq<nat>, n: nat)
    requires n < |order| && forall k :: 0 <= k < |order| ==> order[k] < |blocks|
    ensures Arrange(blocks, order[..n + 1]) == Arrange(blocks, order[..n]) + blocks[order[n]]
  {
    assert order[..n + 1][..n] == order[..n];
  }

  /** The ids of the groups due on a tick. */
  function DueIDs(gs: seq<WorkGroup>, tick: uint64): set<WorkGroupID> {
    set g | g in gs && ShouldRun(tick, g.interval) :: g.id
  }

  /** The ids that succeeded or have been dispatched. */
  function Claimed(st: Phase1): set<WorkGroupID> {
    Elements(st.executed) + HandleIDs(st.handles)
  }

  function HandleIDs(handles: seq<WorkGroup>): set<WorkGroupID> {
    set g | g in handles :: g.id
  }

  /** What the turn of a group that never fails adds. */
  ghost predicate Contributes(s: Start, oracle: Oracle, st: Phase1, st': Phase1, polls: Polls)
    requires st.next < |s.groups|
  {
    var g := s.groups[st.next];
    && st'.next == st.next + 1 && st'.exit.None? && Harmless(st'.handles, st'.answers)
    && st'.buf == st.buf + Contribution(g, s.tick, oracle) && Uncancelled(polls, st'.checks)
    && Claimed(st') == Claimed(st) + (if ShouldRun(s.tick, g.interval) then {g.id} else {})
  }

  lemma SyncContributes(s: Start, oracle: Oracle, st: Phase1, polls: Polls)
    requires st.next < |s.groups| && st.exit.None? && Uncancelled(polls, st.checks) && Harmless(st.handles, st.answers)
    requires var g := s.groups[st.next];
      NeverFails(g, s.tick, oracle) && g.mode.Synchronized? && ShouldRun(s.tick, g.interval)
    ensures Contributes(s, oracle, st, Turn(s, oracle, true, st, polls), polls)
  {
    var g := s.groups[st.next];
    assert !polls(st.checks);
    RunSucceeds(g, false, s.tick, oracle, st.buf, polls, st.checks + 1);
    OneMoreID(st.executed, st.handles, g);
    hide RunGroup, KeptCommands, NeverFails, Elements, HandleIDs, Harmless, ShouldRun;
  }

  lemma AsyncContributes(s: Start, oracle: Oracle, st: Phase1, polls: Polls)
    requires st.next < |s.groups| && st.exit.None? && Uncancelled(polls, st.checks) && Harmless(st.handles, st.answers)
    requires var g := s.groups[st.next];
      && NeverFails(g, s.tick, oracle) && g.mode.Async? && ShouldRun(s.tick, g.interval)
      && Contribution(g, s.tick, oracle) == []
    ensures Contributes(s, oracle, st, Turn(s, oracle, true, st, polls), polls)
  {
    var g := s.groups[st.next];
    assert !polls(st.checks);
    InlineSucceeds(g, s.tick, oracle, polls, st.checks + 1);
    StaysHarmless(st.handles, st.answers, g, ResultOf(RunGroup(g, true, s.tick, oracle, [], polls, st.checks + 1).0));
    OneMoreID(st.executed, st.handles, g);
    hide RunGroup, KeptCommands, NeverFails, Elements, HandleIDs, Harmless, ResultOf, Contribution, ShouldRun;
  }

  lemma TurnContributes(s: Start, oracle: Oracle, st: Phase1, polls: Polls)
    requires st.next < |s.groups| && st.exit.None? && Uncancelled(polls, st.checks)
    requires NeverFails(s.groups[st.next], s.tick, oracle) && Harmless(st.handles, st.answers)
    requires s.groups[st.next].mode.Async? ==> Contribution(s.groups[st.next], s.tick, oracle) == []
    ensures Contributes(s, oracle, st, Turn(s, oracle, true, st, polls), polls)
  {
    var g := s.groups[st.next];
    if !ShouldRun(s.tick, g.interval) {
      assert !polls(st.checks);
      hide RunGroup, KeptCommands, NeverFails, Claimed, Harmless, ShouldRun;
    } else if g.mode.Async? {
      AsyncContributes(s, oracle, st, polls);
      hide *;
    } else {
      SyncContributes(s, oracle, st, polls);
      hide *;
    }
  }

  /** An async group with nothing to contribute answers nothing harmful. */
  lemma InlineSucceeds(g: WorkGroup, tick: uint64, oracle: Oracle, polls: Polls, p: nat)
    requires NeverFails(g, tick, oracle) && Uncancelled(polls, p)
    ensures var (rs, p') := RunGroup(g, true, tick, oracle, [], polls, p);
      ResultOf(rs).err.None? && ResultOf(rs).commands == KeptCommands(g, tick, oracle, |g.systems|) && p' >= p
  {
    RunSucceeds(g, true, tick, oracle, [], polls, p);
    hide RunGroup, KeptCommands, NeverFails;
  }

  lemma StaysHarmless(handles: seq<WorkGroup>, answers: seq<JobResult>, g: WorkGroup, answer: JobResult)
    requires Harmless(handles, answers) && answer.err.None? && answer.commands == []
    ensures Harmless(handles + [g], answers + [answer])
  {
  }

  lemma OneMoreID(executed: seq<WorkGroupID>, handles: seq<WorkGroup>, g: WorkGroup)
    ensures Elements(executed + [g.id]) == Elements(executed) + {g.id}
    ensures HandleIDs(handles + [g]) == HandleIDs(handles) + {g.id}
  {
    assert forall h :: h in handles + [g] <==> h in handles || h == g;
  }

  lemma OneFewerDue(gs: seq<WorkGroup>, n: nat, tick: uint64)
    requires n < |gs|
    ensures DueIDs(gs[n..], tick) == DueIDs(gs[n + 1..], tick) + (if ShouldRun(tick, gs[n].interval) then {gs[n].id} else {})
  {
    assert gs[n..] == [gs[n]] + gs[n + 1..];
  }

  lemma {:induction false} TurnsArrange(s: Start, gs: seq<WorkGroup>, order: seq<nat>, oracle: Oracle,
                                        st: Phase1, polls: Polls)
    requires InRange(order, |gs|)
    requires s.groups == Pick(gs, order)
    requires forall i :: 0 <= i < |gs| ==> NeverFails(gs[i], s.tick, oracle)
    requires OnlySyncContributes(gs, s.tick, oracle)
    requires st.next <= |order| && st.exit.None? && Harmless(st.handles, st.answers) && Uncancelled(polls, st.checks)
    requires st.buf == Arrange(Contributions(gs, s.tick, oracle), order[..st.next])
    ensures var end := Turns(s, oracle, true, st, polls);
      && end.exit.None? && Harmless(end.handles, end.answers) && Uncancelled(polls, end.checks)
      && end.buf == Arrange(Contributions(gs, s.tick, oracle), order)
      && Claimed(end) == Claimed(st) + DueIDs(s.groups[st.next..], s.tick)
    decreases |order| - st.next
  {
    hide NeverFails, Turn, Contribution, Arrange, Uncancelled, Harmless, Claimed;
    if st.next == |order| {
      assert order[..st.next] == order;
      assert s.groups[st.next..] == [];
    } else {
      TurnContributes(s, oracle, st, polls);
      ArrangeNext(Contributions(gs, s.tick, oracle), order, st.next);
      OneFewerDue(s.groups, st.next, s.tick);
      hide DueIDs;
      TurnsArrange(s, gs, order, oracle, Turn(s, oracle, true, st, polls), polls);
    }
  }

  /** A harmless collection applies nothing, and every async group counts as having run. */
  lemma {:induction false} HarmlessCollection(handles: seq<WorkGroup>, answers: seq<JobResult>, st: Phase2)
    requires Harmless(handles, answers) && st.next <= |handles| && st.exit.None?
    ensures var end := CollectAll(handles, answers, st);
      && end.exit.None? && end.world == st.world
      && Elements(end.executed) == Elements(st.executed) + HandleIDs(handles[st.next..])
    decreases |handles| - st.next
  {
    if st.next < |handles| {
      var g := handles[st.next];
      HarmlessCollection(handles, answers, Collect(g, answers[st.next], st));
      OneMoreID(st.executed, [], g);
      assert handles[st.next..] == [g] + handles[st.next + 1..];
      FirstID(g, handles[st.next + 1..]);
      hide HandleIDs, Elements;
    } else {
      assert handles[st.next..] == [];
    }
  }

  lemma FirstID(g: WorkGroup, rest: seq<WorkGroup>)
    ensures HandleIDs([g] + rest) == {g.id} + HandleIDs(rest)
  {
  }

  /** Marking depends only on which ids ran. */
  function MarkSet(lastRun: map<WorkGroupID, uint64>, ids: set<WorkGroupID>, tick: uint64): map<WorkGroupID, uint64> {
    map id | id in lastRun :: if id in ids then tick else lastRun[id]
  }

  /** With harmless answers the tick applies the shared buffer and nothing else. */
  lemma AppliedOnce(s: Start, ph: Phase1)
    requires ph.exit.None? && Harmless(ph.handles, ph.answers)
    ensures var out := AfterGroups(s, ph, ph.answers);
      var applied := ApplyAll(s.world, ph.buf);
      applied.err.None? ==>
        && out.err.None? && out.world == applied.world && out.tickIndex == (s.tick + 1) % TWO_64
        && out.lastRun == MarkSet(s.lastRun, Claimed(ph), s.tick)
  {
    HarmlessCollection(ph.handles, ph.answers, Phase2(0, s.world, [], ph.executed, ph.published, None));
    assert ph.handles[0..] == ph.handles;
    hide CollectAll, ApplyAll, Harmless, HandleIDs;
  }

  /** What a tick over the groups in the given order comes to: their blocks applied in that order. */
  ghost predicate Arranged(s: Start, gs: seq<WorkGroup>, order: seq<nat>, oracle: Oracle, out: Outcome)
    requires InRange(order, |gs|)
  {
    var applied := ApplyAll(s.world, Arrange(Contributions(gs, s.tick, oracle), order));
    applied.err.None? ==>
      && out.err.None? && out.world == applied.world && out.tickIndex == (s.tick + 1) % TWO_64
      && out.lastRun == MarkSet(s.lastRun, DueIDs(s.groups, s.tick), s.tick)
  }

  lemma NothingHarms()
    ensures Harmless([], [])
  {
  }

  lemma TickArranges(s: Start, gs: seq<WorkGroup>, order: seq<nat>, oracle: Oracle, polls: Polls, checks: nat)
    requires InRange(order, |gs|) && Uncancelled(polls, checks)
    requires s.groups == Pick(gs, order) && WellBehaved(s.world, gs, s.tick, oracle)
    ensures Arranged(s, gs, order, oracle, TickInline(s, oracle, polls, checks))
    ensures Uncancelled(polls, ChecksAfter(s, oracle, true, polls, checks))
  {
    hide NeverFails, Uncancelled, Harmless, OnlySyncContributes, ConflictFree, Contribution;
    assert order[..0] == [] && s.groups[0..] == s.groups;
    assert Claimed(Begin(checks)) == {};
    NothingHarms();
    AsyncContributesNothing(s.world, gs, s.tick, oracle);
    TurnsArrange(s, gs, order, oracle, Begin(checks), polls);
    AppliedOnce(s, Turns(s, oracle, true, Begin(checks), polls));
    hide AfterGroups, Turns, ApplyAll, Arrange, WellBehaved, Contributions, Claimed, DueIDs, MarkSet;
  }

  lemma BlocksCommute(w: WorldState, gs: seq<WorkGroup>, tick: uint64, oracle: Oracle,
                      order1: seq<nat>, order2: seq<nat>)
    requires IsPermutation(order1, |gs|) && IsPermutation(order2, |gs|)
    requires InRange(order1, |gs|) && InRange(order2, |gs|)
    requires WellBehaved(w, gs, tick, oracle)
    ensures var blocks := Contributions(gs, tick, oracle);
      var out1, out2 := ApplyAll(w, Arrange(blocks, order1)), ApplyAll(w, Arrange(blocks, order2));
      out1.err.None? && out2.err.None? && out1.world == out2.world && SameTypes(w, out1.world)
  {
    ConflictFreeBlocksCommute(w, Contributions(gs, tick, oracle), WriteSets(gs), order1, order2);
    OrderEffect(w, Contributions(gs, tick, oracle), WriteSets(gs), order1);
    hide ConflictFree, Contributions, ApplyAll, Arrange;
  }

  lemma PickIsDue(gs: seq<WorkGroup>, order: seq<nat>, tick: uint64)
    requires IsPermutation(order, |gs|) && InRange(order, |gs|)
    ensures DueIDs(Pick(gs, order), tick) == DueIDs(gs, tick)
  {
    var picked := Pick(gs, order);
    forall g ensures g in picked <==> g in gs {
      if g in gs {
        var i: nat :| i < |gs| && gs[i] == g;
        assert i in order;
        var k :| 0 <= k < |order| && order[k] == i;
        assert picked[k] == g;
      }
    }
  }

  /** Two ticks succeeded with the same world, tick index and last-run marks. */
  predicate SameSuccess(a: Outcome, b: Outcome) {
    a.err.None? && b.err.None? && a.world == b.world && a.tickIndex == b.tickIndex && a.lastRun == b.lastRun
  }

  /** Two schedulers at the same point, but for the order of their groups. */
  ghost predicate Reordered(s1: Start, s2: Start, gs: seq<WorkGroup>, order1: seq<nat>, order2: seq<nat>) {
    && IsPermutation(order1, |gs|) && IsPermutation(order2, |gs|)
    && InRange(order1, |gs|) && InRange(order2, |gs|)
    && s1.groups == Pick(gs, order1) && s2.groups == Pick(gs, order2)
    && s1.world == s2.world && s1.tick == s2.tick && s1.lastRun == s2.lastRun
  }

  /** Conflict-free groups make a tick succeed alike whichever order they take their turns in. */
  lemma TurnOrderDoesNotMatter(s1: Start, s2: Start, gs: seq<WorkGroup>, oracle: Oracle,
                               order1: seq<nat>, order2: seq<nat>, polls: Polls, c1: nat, c2: nat)
    requires Reordered(s1, s2, gs, order1, order2)
    requires WellBehaved(s1.world, gs, s1.tick, oracle) && Uncancelled(polls, c1) && Uncancelled(polls, c2)
    ensures SameSuccess(TickInline(s1, oracle, polls, c1), TickInline(s2, oracle, polls, c2))
    ensures SameTypes(s1.world, TickInline(s1, oracle, polls, c1).world)
    ensures Uncancelled(polls, ChecksAfter(s1, oracle, true, polls, c1))
    ensures Uncancelled(polls, ChecksAfter(s2, oracle, true, polls, c2))
  {
    hide *;
    ReorderedMeans(s1, s2, gs, order1, order2);
    BlocksCommute(s1.world, gs, s1.tick, oracle, order1, order2);
    TickArranges(s1, gs, order1, oracle, polls, c1);
    TickArranges(s2, gs, order2, oracle, polls, c2);
    ArrangedAlike(s1, s2, gs, order1, order2, oracle, TickInline(s1, oracle, polls, c1), TickInline(s2, oracle, polls, c2));
  }

  lemma ReorderedMeans(s1: Start, s2: Start, gs: seq<WorkGroup>, order1: seq<nat>, order2: seq<nat>)
    requires Reordered(s1, s2, gs, order1, order2)
    ensures IsPermutation(order1, |gs|) && IsPermutation(order2, |gs|)
    ensures InRange(order1, |gs|) && InRange(order2, |gs|)
    ensures s1.groups == Pick(gs, order1) && s2.groups == Pick(gs, order2)
    ensures s1.world == s2.world && s1.tick == s2.tick && s1.lastRun == s2.lastRun
  {
  }

  lemma ArrangedAlike(s1: Start, s2: Start, gs: seq<WorkGroup>, order1: seq<nat>, order2: seq<nat>, oracle: Oracle,
                      a: Outcome, b: Outcome)
    requires Reordered(s1, s2, gs, order1, order2)
    requires Arranged(s1, gs, order1, oracle, a) && Arranged(s2, gs, order2, oracle, b)
    requires var blocks := Contributions(gs, s1.tick, oracle);
      var out1, out2 := ApplyAll(s1.world, Arrange(blocks, order1)), ApplyAll(s1.world, Arrange(blocks, order2));
      out1.err.None? && out2.err.None? && out1.world == out2.world && SameTypes(s1.world, out1.world)
    ensures SameSuccess(a, b) && SameTypes(s1.world, a.world)
  {
    PickIsDue(gs, order1, s1.tick);
    PickIsDue(gs, order2, s1.tick);
    hide IsPermutation, ApplyAll, Arrange, Contributions, DueIDs, MarkSet, SameTypes;
  }

  /** Well-behaved on each of the next `n` ticks. */
  ghost predicate StayWellBehaved(w: WorldState, gs: seq<WorkGroup>, tick: uint64, n: nat, oracle: Oracle) {
    forall k: nat :: k < n ==> WellBehaved(w, gs, TickIn(tick, k), oracle)
  }

  /** The tick index after `k` more ticks; it wraps. */
  function TickIn(tick: uint64, k: nat): uint64 {
    (tick + k) % TWO_64
  }

  lemma TickShift(tick: uint64, k: nat)
    ensures TickIn((tick + 1) % TWO_64, k) == TickIn(tick, k + 1)
    ensures TickIn(tick, 0) == tick
  {
    if tick + 1 == TWO_64 {
      ModShift(k, 1, TWO_64);
    }
  }

  /** Whether groups behave depends only on the registered component types. */
  lemma WellBehavedElsewhere(w: WorldState, w': WorldState, gs: seq<WorkGroup>, tick: uint64, oracle: Oracle)
    requires WellBehaved(w, gs, tick, oracle) && SameTypes(w, w')
    ensures WellBehaved(w', gs, tick, oracle)
  {
    hide NeverFails, Contribution, Contained;
    var blocks, sets := Contributions(gs, tick, oracle), WriteSets(gs);
    forall i | 0 <= i < |blocks|
      ensures Contained(w', blocks[i], sets[i])
    {
      ContainedElsewhere(w, w', blocks[i], sets[i]);
    }
  }

  lemma BehaveOn(w: WorldState, w': WorldState, gs: seq<WorkGroup>, tick: uint64, n: nat, oracle: Oracle)
    requires StayWellBehaved(w, gs, tick, n, oracle) && n > 0 && SameTypes(w, w')
    ensures WellBehaved(w, gs, tick, oracle)
    ensures StayWellBehaved(w', gs, (tick + 1) % TWO_64, n - 1, oracle)
  {
    hide WellBehaved, TickIn;
    TickShift(tick, 0);
    assert WellBehaved(w, gs, TickIn(tick, 0), oracle);
    var next: uint64 := (tick + 1) % TWO_64;
    forall k: nat | k < n - 1
      ensures WellBehaved(w', gs, TickIn(next, k), oracle)
    {
      TickShift(tick, k);
      assert WellBehaved(w, gs, TickIn(tick, k + 1), oracle);
      WellBehavedElsewhere(w, w', gs, TickIn(tick, k + 1), oracle);
    }
  }

  /** All `n` ticks of two runs succeeded alike. */
  ghost predicate SameRuns(a: seq<Outcome>, b: seq<Outcome>, n: nat) {
    |a| == |b| == n && forall k :: 0 <= k < n ==> SameSuccess(a[k], b[k])
  }

  /** The same for a run of `n` ticks. */
  lemma {:induction false} RunOrderDoesNotMatter(s1: Start, s2: Start, gs: seq<WorkGroup>, oracle: Oracle,
                                                 order1: seq<nat>, order2: seq<nat>, waits: Waits, i: nat,
                                                 polls: Polls, c1: nat, c2: nat, n: nat)
    requires Reordered(s1, s2, gs, order1, order2)
    requires StayWellBehaved(s1.world, gs, s1.tick, n, oracle) && Uncancelled(polls, c1) && Uncancelled(polls, c2)
    ensures SameRuns(Ticks(s1, oracle, true, waits, i, polls, c1, n), Ticks(s2, oracle, true, waits, i, polls, c2, n), n)
    decreases n
  {
    hide WellBehaved, StayWellBehaved, TickInline, ChecksAfter, Uncancelled, IsPermutation, InRange;
    if n > 0 {
      BehaveOn(s1.world, s1.world, gs, s1.tick, n, oracle);
      TurnOrderDoesNotMatter(s1, s2, gs, oracle, order1, order2, polls, c1, c2);
      NextTick(s1, oracle, polls, c1);
      var out1, out2 := TickInline(s1, oracle, polls, c1), TickInline(s2, oracle, polls, c2);
      BehaveOn(s1.world, out1.world, gs, s1.tick, n, oracle);
      RunOrderDoesNotMatter(Following(s1, out1), Following(s2, out2), gs, oracle, order1, order2, waits, i + 1, polls,
                            ChecksAfter(s1, oracle, true, polls, c1), ChecksAfter(s2, oracle, true, polls, c2), n - 1);
    }
  }

  lemma NextTick(s: Start, oracle: Oracle, polls: Polls, checks: nat)
    ensures var out := TickInline(s, oracle, polls, checks);
      out.err.None? ==> out.tickIndex == (s.tick + 1) % TWO_64
  {
    var ph := Turns(s, oracle, true, Begin(checks), polls);
    HandlesBounded(s, oracle, true, Begin(checks), polls);
    TickPrefixLaw(s, ph, ph.answers);
    hide AfterGroups, Turns;
  }

  // ---------------------------------------------------------------------------------------------
  // The same, for any two configured orders of the registered groups.

  function Lookup(groups: map<WorkGroupID, WorkGroup>, ids: seq<WorkGroupID>): seq<WorkGroup>
    requires AllIn(ids, groups)
  {
    seq(|ids|, k requires 0 <= k < |ids| => groups[ids[k]])
  }

  function Position(ids: seq<WorkGroupID>, id: WorkGroupID): (i: nat)
    requires id in ids
    ensures i < |ids| && ids[i] == id
  {
    if ids[0] == id then 0 else 1 + Position(ids[1..], id)
  }

  function Positions(ids: seq<WorkGroupID>, order: seq<WorkGroupID>): (p: seq<nat>)
    requires forall k :: 0 <= k < |order| ==> order[k] in ids
    ensures |p| == |order| && forall k :: 0 <= k < |order| ==> p[k] < |ids| && ids[p[k]] == order[k]
  {
    seq(|order|, k requires 0 <= k < |order| => Position(ids, order[k]))
  }

  lemma PositionsArePermutation(ids: seq<WorkGroupID>, order: seq<WorkGroupID>)
    requires NoDup(ids) && NoDup(order) && (forall id :: id in order <==> id in ids)
    requires forall k :: 0 <= k < |order| ==> order[k] in ids
    ensures IsPermutation(Positions(ids, order), |ids|)
  {
    var p := Positions(ids, order);
    forall i: nat | i < |ids| ensures i in p {
      assert ids[i] in order;
      var k :| 0 <= k < |order| && order[k] == ids[i];
      assert p[k] == i;
    }
    forall j, k | 0 <= j < k < |p| ensures p[j] != p[k] {
      assert order[j] != order[k];
    }
  }

  lemma TurnOrderIsDistinct(order: seq<WorkGroupID>, registration: seq<WorkGroupID>)
    requires NoDup(order) && NoDup(registration)
    ensures NoDup(TurnOrder(order, registration))
    ensures forall id :: id in TurnOrder(order, registration) <==> id in registration
  {
    var t := TurnOrder(order, registration);
    TurnOrderIsPermutation(order, registration);
    forall id ensures id in t <==> id in registration {
      assert id in t <==> id in multiset(t);
      assert id in registration <==> id in multiset(registration);
    }
    forall i, j | 0 <= i < j < |t| ensures t[i] != t[j] {
      NoDupCount(registration, t[i]);
      if t[i] == t[j] {
        TwoOccurrences(t, i, j);
      }
    }
  }

  lemma TwoOccurrences<T>(s: seq<T>, i: nat, j: nat)
    requires i < j < |s| && s[i] == s[j]
    ensures multiset(s)[s[i]] >= 2
  {
    assert s == s[..i] + [s[i]] + s[i + 1..j] + [s[j]] + s[j + 1..];
  }

  /** A registered group that succeeds and writes only what it declares. */
  ghost predicate KeepsToItsWrites(w: WorldState, g: WorkGroup, tick: uint64, oracle: Oracle) {
    && NeverFails(g, tick, oracle)
    && Contained(w, Contribution(g, tick, oracle), g.access.componentWrites)
  }

  lemma RegisteredAreWellBehaved(w: WorldState, groups: map<WorkGroupID, WorkGroup>, ids: seq<WorkGroupID>,
                                 tick: uint64, oracle: Oracle)
    requires PairwiseCompatible(groups) && NoDup(ids)
    requires AllIn(ids, groups) && AsyncOnlyRead(groups)
    requires forall id :: id in groups ==> KeepsToItsWrites(w, groups[id], tick, oracle)
    ensures WellBehaved(w, Lookup(groups, ids), tick, oracle)
  {
    hide Contained, Contribution, NeverFails;
    forall i, j | 0 <= i < j < |ids|
      ensures groups[ids[i]].access.componentWrites !! groups[ids[j]].access.componentWrites
    {
      assert Compatible(groups[ids[i]].access, groups[ids[j]].access);
    }
  }

  lemma LookupIsPick(groups: map<WorkGroupID, WorkGroup>, registration: seq<WorkGroupID>, order: seq<WorkGroupID>)
    requires NoDup(registration) && NoDup(order)
    requires forall id :: id in registration <==> id in groups
    ensures var t := TurnOrder(order, registration);
      && AllIn(t, groups) && AllIn(registration, groups)
      && (forall k :: 0 <= k < |t| ==> t[k] in registration)
      && var p := Positions(registration, t);
         && InRange(p, |registration|) && IsPermutation(p, |registration|)
         && Lookup(groups, t) == Pick(Lookup(groups, registration), p)
  {
    var t := TurnOrder(order, registration);
    TurnOrderIsDistinct(order, registration);
    hide TurnOrder;
    assert forall k :: 0 <= k < |registration| ==> registration[k] in registration;
    assert forall k :: 0 <= k < |t| ==> t[k] in t;
    PositionsArePermutation(registration, t);
  }

  predicate AllIn(ids: seq<WorkGroupID>, groups: map<WorkGroupID, WorkGroup>) {
    forall k :: 0 <= k < |ids| ==> ids[k] in groups
  }

  /** On each of the next `n` ticks every group succeeds within its declared writes. */
  ghost predicate KeepToTheirWrites(w: WorldState, groups: map<WorkGroupID, WorkGroup>, tick: uint64, n: nat,
                                    oracle: Oracle)
  {
    forall k: nat, id :: k < n && id in groups ==> KeepsToItsWrites(w, groups[id], TickIn(tick, k), oracle)
  }

  /** Two schedulers at the same point with the same groups, turning in the orders configured. */
  ghost predicate Configured(groups: map<WorkGroupID, WorkGroup>, registration: seq<WorkGroupID>,
                             order: seq<WorkGroupID>, s: Start) {
    && NoDup(registration) && (forall id :: id in registration <==> id in groups) && NoDup(order)
    && AllIn(TurnOrder(order, registration), groups)
    && s.groups == Lookup(groups, TurnOrder(order, registration))
  }

  /**
   * For registered groups, as admission keeps them, any two configured orders make a run of ticks
   * leave the same worlds, tick indexes and last-run marks, async groups included.
   */
  lemma SyncOrderDoesNotMatter(groups: map<WorkGroupID, WorkGroup>, registration: seq<WorkGroupID>,
                               order1: seq<WorkGroupID>, order2: seq<WorkGroupID>, s1: Start, s2: Start,
                               oracle: Oracle, waits: Waits, i: nat, polls: Polls, c1: nat, c2: nat, n: nat)
    requires PairwiseCompatible(groups) && AsyncOnlyRead(groups)
    requires Configured(groups, registration, order1, s1) && Configured(groups, registration, order2, s2)
    requires s1.world == s2.world && s1.tick == s2.tick && s1.lastRun == s2.lastRun
    requires KeepToTheirWrites(s1.world, groups, s1.tick, n, oracle)
    requires Uncancelled(polls, c1) && Uncancelled(polls, c2)
    ensures SameRuns(Ticks(s1, oracle, true, waits, i, polls, c1, n), Ticks(s2, oracle, true, waits, i, polls, c2, n), n)
  {
    hide TurnOrder, KeepsToItsWrites, PairwiseCompatible, AsyncOnlyRead, Uncancelled, Ticks, SameRuns, WellBehaved, NoDup,
         IsPermutation, InRange, TickIn;
    LookupIsPick(groups, registration, order1);
    LookupIsPick(groups, registration, order2);
    LookupSize(groups, registration);
    var gs := Lookup(groups, registration);
    forall k: nat | k < n
      ensures WellBehaved(s1.world, gs, TickIn(s1.tick, k), oracle)
    {
      RegisteredAreWellBehaved(s1.world, groups, registration, TickIn(s1.tick, k), oracle);
    }
    RunOrderDoesNotMatter(s1, s2, gs, oracle, Positions(registration, TurnOrder(order1, registration)),
                          Positions(registration, TurnOrder(order2, registration)), waits, i, polls, c1, c2, n);
  }

  lemma LookupSize(groups: map<WorkGroupID, WorkGroup>, ids: seq<WorkGroupID>)
    requires AllIn(ids, groups)
    ensures |Lookup(groups, ids)| == |ids|
  {
  }
}
