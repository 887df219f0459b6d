/**
 * The loops of a tick without worker goroutines: the groups' turns, the collection of the async
 * results and the application of the shared buffer. Publishing a summary appends to a ghost list.
 */
module TickLoop {
  import opened Prelude
  import opened Intervals
  import opened Commands
  import opened WorkGroups
  import opened TickSpec
  import opened CommandBuffer
  import opened GroupRunner
  import World

  ghost function PoolScratch(ctx: Context, pool: BufferPool): set<object?>
    reads pool
  {
    {ctx as object?, pool as object?} + set b | b in pool.idle :: b as object?
  }

  /** What the turns of a tick may write besides the world. */
  ghost function Scratch(ctx: Context, pool: BufferPool, buf: Buffer): set<object?>
    reads pool, buf
  {
    PoolScratch(ctx, pool) + {buf as object?, buf.commands.backing as object?}
  }

  /** Only what was there before, or has been made since, may be written. */
  twostate predicate ScratchKept(ctx: Context, pool: BufferPool, buf: Buffer)
    reads pool, buf
  {
    forall o: object? :: o in Scratch(ctx, pool, buf) && o != null ==> o in old(Scratch(ctx, pool, buf)) || fresh(o)
  }

  /** The pool holds only buffers it held before, or that have been made since. */
  twostate predicate PoolKept(pool: BufferPool)
    reads pool
  {
    forall b: Buffer :: b in pool.idle ==> b in old(pool.idle) || fresh(b)
  }

  lemma InPool(ctx: Context, pool: BufferPool, buf: Buffer)
    ensures forall b: Buffer :: b in pool.idle ==> (b as object?) in Scratch(ctx, pool, buf)
  {
  }

  lemma InScratch(ctx: Context, pool: BufferPool)
    ensures (ctx as object?) in PoolScratch(ctx, pool) && (pool as object?) in PoolScratch(ctx, pool)
    ensures forall b: Buffer :: b in pool.idle ==> (b as object?) in PoolScratch(ctx, pool)
  {
  }

  /** Runs an async group in place, in a buffer of its own. */
  method DispatchInline(ctx: Context, pool: BufferPool, g: WorkGroup, tick: uint64, oracle: Oracle)
    returns (res: JobResult)
    requires pool.Valid()
    modifies PoolScratch(ctx, pool)
    ensures pool.Valid() && forall b :: b in pool.idle ==> b in old(pool.idle) || fresh(b)
    ensures var (rs, p) := RunGroup(g, true, tick, oracle, [], ctx.Polls(), old(ctx.checks));
      res == ResultOf(rs) && ctx.checks == p
  {
    hide RunGroup;
    InScratch(ctx, pool);
    var jobBuf := pool.Get();
    var summary, rs := RunWorkGroup(ctx, g, tick, oracle, jobBuf, true);
    var drained := jobBuf.Drain();
    var commands := drained.Commands();
    pool.Put(jobBuf);
    res := JobResult(summary.err, if summary.err.Some? then [] else commands, Some(summary));
  }

  /** What the loops have gathered: ids that succeeded, async groups and their results, summaries published. */
  datatype Tally = Tally(executed: seq<WorkGroupID>,
                         handles: seq<WorkGroup>,
                         answers: seq<JobResult>,
                         published: seq<Summary>)

  /** What the group loop has gathered is what the first phase says. */
  ghost predicate Tallies(t: Tally, err: Option<TickError>, st: Phase1) {
    t == Tally(st.executed, st.handles, st.answers, st.published) && err == st.exit
  }

  /** The turn of one group; with workers an async group is handed to them. */
  method TakeTurn(ctx: Context, pool: BufferPool, buf: Buffer, g: WorkGroup, tick: uint64, oracle: Oracle,
                  inline: bool, t: Tally, ghost s: Start, ghost st: Phase1)
    returns (t': Tally, err: Option<TickError>)
    requires pool.Valid() && buf.Valid() && buf !in pool.idle
    requires st.next < |s.groups| && s.groups[st.next] == g && s.tick == tick && st.exit.None?
    requires Tallies(t, None, st) && buf.View() == st.buf && ctx.checks == st.checks
    modifies Scratch(ctx, pool, buf)
    ensures pool.Valid() && buf.Valid() && buf !in pool.idle
    ensures ScratchKept(ctx, pool, buf)
    ensures var st' := Turn(s, oracle, inline, st, ctx.Polls());
      Tallies(t', err, st') && buf.View() == st'.buf && ctx.checks == st'.checks
  {
    hide RunGroup, ResultOf;
    InScratch(ctx, pool);
    t', err := t, None;
    var done := ctx.Err();
    if done {
      err := Some(ContextDone);
      return;
    }
    if !ShouldRun(tick, g.interval) {
      return;
    }
    if g.mode == Async {
      t' := t.(handles := t.handles + [g]);
      if inline {
        var res := DispatchInline(ctx, pool, g, tick, oracle);
        t' := t'.(answers := t.answers + [res]);
      }
      return;
    }
    var summary, rs := RunWorkGroup(ctx, g, tick, oracle, buf, false);
    t' := t.(published := t.published + [summary]);
    if summary.err.Some? {
      if g.policy != Continue {
        err := summary.err;
      }
      return;
    }
    t' := t'.(executed := t.executed + [g.id]);
  }

  /** The first phase: every group takes its turn until one stops the tick. */
  method RunTurns(ctx: Context, pool: BufferPool, buf: Buffer, groups: seq<WorkGroup>, tick: uint64, oracle: Oracle,
                  inline: bool, ghost s: Start)
    returns (t: Tally, err: Option<TickError>, ghost ph: Phase1)
    requires pool.Valid() && buf.Valid() && buf !in pool.idle && buf.View() == []
    requires s.groups == groups && s.tick == tick
    modifies Scratch(ctx, pool, buf)
    ensures pool.Valid() && PoolKept(pool) && buf.Valid() && buf !in pool.idle
    ensures ph == Turns(s, oracle, inline, Begin(old(ctx.checks)), ctx.Polls())
    ensures Tallies(t, err, ph) && buf.View() == ph.buf && ctx.checks == ph.checks
  {
    hide Turn;
    t, err := Tally([], [], [], []), None;
    ph := Begin(ctx.checks);
    ghost var goal := Turns(s, oracle, inline, ph, ctx.Polls());
    var i := 0;
    while i < |groups|
      invariant 0 <= i <= |groups| && ph.next == i && ph.exit.None? && err == None
      invariant pool.Valid() && buf.Valid() && buf !in pool.idle
      invariant ScratchKept(ctx, pool, buf)
      invariant PoolKept(pool)
      invariant Tallies(t, err, ph) && buf.View() == ph.buf && ctx.checks == ph.checks
      invariant Turns(s, oracle, inline, ph, ctx.Polls()) == goal
    {
      TurnAdvances(s, oracle, inline, ph, ctx.Polls());
      t, err := TakeTurn(ctx, pool, buf, groups[i], tick, oracle, inline, t, s, ph);
      InPool(ctx, pool, buf);
      ph := Turn(s, oracle, inline, ph, ctx.Polls());
      if err.Some? {
        return;
      }
      i := i + 1;
    }
  }

  /** What the collection has gathered is what the second phase says. */
  ghost predicate Gathers(t: Tally, err: Option<TickError>, st: Phase2) {
    t.executed == st.executed && t.published == st.published && err == st.exit
  }

  /** One result: published, then applied, tolerated or fatal. */
  method CollectOne(world: World.World, g: WorkGroup, answer: JobResult, t: Tally, ghost st: Phase2)
    returns (t': Tally, err: Option<TickError>)
    requires world.Valid()
    requires !world.Damaged() ==> Gathers(t, None, st) && st.world == world.State()
    modifies world.Repr()
    ensures world.Valid() && world.Repr() == old(world.Repr()) && (old(world.Damaged()) ==> world.Damaged())
    ensures !world.Damaged() ==>
      var st' := Collect(g, answer, st);
      st'.world == world.State() && Gathers(t', err, st')
  {
    hide ApplyAll, World.World.Valid, World.World.Damaged, World.World.State;
    t', err := t, None;
    if answer.summary.Some? {
      t' := t.(published := t.published + [answer.summary.value]);
    }
    if answer.err.Some? {
      if g.policy != Continue {
        err := answer.err;
      }
      return;
    }
    var e, done := world.Apply(answer.commands);
    err := AsTickError(e);
    if e.None? {
      t' := t'.(executed := t.executed + [g.id]);
    }
  }

  function AsTickError(e: Option<WorldError>): Option<TickError> {
    if e.Some? then Some(ApplyFailed(e.value)) else None
  }

  /** The second phase: the results in dispatch order, until one stops the tick. */
  method CollectAsync(world: World.World, handles: seq<WorkGroup>, answers: seq<JobResult>, start: Tally,
                      ghost st: Phase2)
    returns (t: Tally, err: Option<TickError>, ghost end: Phase2)
    requires world.Valid() && |handles| <= |answers|
    requires st.next == 0 && Gathers(start, None, st)
    requires !world.Damaged() ==> st.world == world.State()
    modifies world.Repr()
    ensures world.Valid() && world.Repr() == old(world.Repr()) && (old(world.Damaged()) ==> world.Damaged())
    ensures !world.Damaged() ==>
      end == CollectAll(handles, answers, st) && end.world == world.State() && Gathers(t, err, end)
  {
    hide Collect, World.World.Valid, World.World.Damaged, World.World.State;
    t, err, end := start, None, st;
    var idx := 0;
    while idx < |handles|
      invariant 0 <= idx <= |handles| && err == None
      invariant world.Valid() && world.Repr() == old(world.Repr()) && (old(world.Damaged()) ==> world.Damaged())
      invariant !world.Damaged() ==> end.world == world.State() && Gathers(t, None, end) && end.next == idx
      invariant !world.Damaged() ==> CollectAll(handles, answers, end) == CollectAll(handles, answers, st)
    {
      t, err := CollectOne(world, handles[idx], answers[idx], t, end);
      if !world.Damaged() {
        CollectAdvances(handles[idx], answers[idx], end);
      }
      end := Collect(handles[idx], answers[idx], end);
      if err.Some? {
        return;
      }
      idx := idx + 1;
    }
  }

  lemma CollectAdvances(g: WorkGroup, answer: JobResult, st: Phase2)
    requires st.exit.None?
    ensures var st' := Collect(g, answer, st);
      if st'.exit.None? then st'.next == st.next + 1 else st'.next == st.next
  {
    hide ApplyAll;
  }

  lemma ScratchOutsideWorld(world: World.World, ctx: Context, pool: BufferPool, buf: Buffer)
    ensures world in world.Repr() && Scratch(ctx, pool, buf) !! world.Repr()
  {
  }

  lemma PoolOutsideWorld(world: World.World, ctx: Context, pool: BufferPool)
    ensures world in world.Repr() && PoolScratch(ctx, pool) !! world.Repr()
  {
  }

  /** The second and third phases, after turns that stopped nothing. */
  method CollectAndApply(world: World.World, buf: Buffer, start: Tally, answers: seq<JobResult>,
                         ghost s: Start, ghost ph: Phase1)
    returns (t: Tally, err: Option<TickError>, ghost end: Phase2)
    requires world.Valid() && buf.Valid() && buf.View() == ph.buf
    requires |ph.handles| <= |answers| && Tallies(start, None, ph)
    requires s.world == world.State()
    modifies buf, world.Repr()
    ensures buf.Valid() && world.Valid() && world.Repr() == old(world.Repr()) && (old(world.Damaged()) ==> world.Damaged())
    ensures !world.Damaged() ==>
      && end == CollectAll(ph.handles, answers, Phase2(0, s.world, [], ph.executed, ph.published, None))
      && t.executed == end.executed
      && var out := Commit(s, ph.buf, end);
         err == out.err && world.State() == out.world && t.published == out.published
  {
    hide CollectAll, Collect, ApplyAll, World.World.Valid, World.World.Damaged, World.World.State;
    BufferOutsideWorld(world, buf);
    t, err, end := CollectAsync(world, start.handles, answers, start,
                                Phase2(0, s.world, [], ph.executed, ph.published, None));
    if err.Some? {
      return;
    }
    var drained := buf.Drain();
    var commands := drained.Commands();
    ApplyNone(end.world);
    if |commands| > 0 {
      var e, done := world.Apply(commands);
      err := AsTickError(e);
    }
  }

  lemma BufferOutsideWorld(world: World.World, buf: Buffer)
    ensures world in world.Repr() && buf !in world.Repr()
    ensures buf.commands.backing == null || (buf.commands.backing as object?) !in world.Repr()
  {
  }

  lemma ApplyNone(w: WorldState)
    ensures ApplyAll(w, []) == Applied(w, 0, None)
  {
  }

  /**
   * Tick number `i` up to its commit: the turns, the async results in dispatch order, and last
   * the shared buffer. The buffer goes back to the pool on every path.
   */
  method RunTick(ctx: Context, world: World.World, pool: BufferPool, groups: seq<WorkGroup>, tick: uint64,
                 oracle: Oracle, inline: bool, waits: Waits, i: nat, ghost s: Start)
    returns (executed: seq<WorkGroupID>, published: seq<Summary>, err: Option<TickError>, ghost out: Outcome)
    requires pool.Valid() && world.Valid()
    requires s.groups == groups && s.tick == tick && s.world == world.State()
    modifies PoolScratch(ctx, pool), world.Repr()
    ensures pool.Valid() && PoolKept(pool)
    ensures world.Valid() && world.Repr() == old(world.Repr()) && (old(world.Damaged()) ==> world.Damaged())
    ensures ctx.checks == ChecksAfter(s, oracle, inline, ctx.Polls(), old(ctx.checks))
    ensures !world.Damaged() ==>
      && out == TickWith(s, oracle, inline, waits, i, ctx.Polls(), old(ctx.checks))
      && err == out.err && world.State() == out.world && published == out.published
      && (err.None? ==> out.lastRun == MarkRun(s.lastRun, executed, tick) && out.tickIndex == (tick + 1) % TWO_64)
      && (err.Some? ==> out.lastRun == s.lastRun && out.tickIndex == tick)
  {
    hide CollectAll, ApplyAll, Turns, AfterGroups, World.World.Valid, World.World.Damaged, World.World.State,
         BufferPool.Valid, Buffer.Valid, Buffer.View, MarkRun, AnswersOf, Tallies;
    var buf, t, phaseErr, ph := TakeTurns(ctx, world, pool, groups, tick, oracle, inline, s);
    TalliedAnswers(t, phaseErr, ph);
    var answers := if inline then t.answers else Await(waits, i, groups);
    out := AfterGroups(s, ph, answers);
    executed, published, err := FinishTick(world, pool, buf, t, phaseErr, answers, s, ph);
  }

  lemma TalliedAnswers(t: Tally, err: Option<TickError>, ph: Phase1)
    requires Tallies(t, err, ph)
    ensures t.answers == ph.answers
  {
  }

  /** The tick after its turns; the shared buffer goes back to the pool in any case. */
  method FinishTick(world: World.World, pool: BufferPool, buf: Buffer, start: Tally, phaseErr: Option<TickError>,
                    answers: seq<JobResult>, ghost s: Start, ghost ph: Phase1)
    returns (executed: seq<WorkGroupID>, published: seq<Summary>, err: Option<TickError>)
    requires pool.Valid() && world.Valid() && buf.Valid() && buf !in pool.idle && buf.View() == ph.buf
    requires |ph.handles| <= |answers| && Tallies(start, phaseErr, ph) && s.world == world.State()
    modifies pool, buf, world.Repr()
    ensures pool.Valid() && pool.idle == old(pool.idle) + [buf]
    ensures world.Valid() && world.Repr() == old(world.Repr()) && (old(world.Damaged()) ==> world.Damaged())
    ensures !world.Damaged() ==>
      var out := AfterGroups(s, ph, answers);
      && err == out.err && world.State() == out.world && published == out.published
      && (err.None? ==> out.lastRun == MarkRun(s.lastRun, executed, s.tick) && out.tickIndex == (s.tick + 1) % TWO_64)
      && (err.Some? ==> out.lastRun == s.lastRun && out.tickIndex == s.tick)
  {
    hide CollectAll, ApplyAll, World.World.Valid, World.World.Damaged, World.World.State, MarkRun;
    var t;
    t, err := start, phaseErr;
    PoolOutside(world, pool, buf);
    if err.None? {
      ghost var end;
      t, err, end := CollectAndApply(world, buf, t, answers, s, ph);
    }
    executed, published := t.executed, t.published;
    PutBack(world, pool, buf);
  }

  lemma PoolOutside(world: World.World, pool: BufferPool, buf: Buffer)
    ensures world in world.Repr() && pool !in world.Repr() && buf !in world.Repr()
    ensures forall b :: b in pool.idle ==> b !in world.Repr()
  {
  }

  /** The results that waiting on the handles will give. */
  function Await(waits: Waits, i: nat, groups: seq<WorkGroup>): (answers: seq<JobResult>)
    ensures |answers| == |groups|
  {
    AnswersOf(waits, i, |groups|)
  }

  /** The first phase, in a buffer taken from the pool; the world is not touched. */
  method TakeTurns(ctx: Context, world: World.World, pool: BufferPool, groups: seq<WorkGroup>, tick: uint64,
                   oracle: Oracle, inline: bool, ghost s: Start)
    returns (buf: Buffer, t: Tally, err: Option<TickError>, ghost ph: Phase1)
    requires pool.Valid() && world.Valid()
    requires s.groups == groups && s.tick == tick
    modifies PoolScratch(ctx, pool)
    ensures pool.Valid() && buf.Valid() && buf !in pool.idle && buf.View() == ph.buf
    ensures PoolKept(pool) && (buf in old(pool.idle) || fresh(buf))
    ensures world.Valid() && world.Repr() == old(world.Repr()) && world.State() == old(world.State())
    ensures world.Damaged() == old(world.Damaged())
    ensures ph == Turns(s, oracle, inline, Begin(old(ctx.checks)), ctx.Polls())
    ensures Tallies(t, err, ph) && ctx.checks == ph.checks
    ensures |ph.handles| <= |groups| && (inline ==> |ph.handles| == |ph.answers|)
  {
    hide Turns, World.World.Valid, World.World.Damaged, World.World.State;
    InScratch(ctx, pool);
    PoolOutsideWorld(world, ctx, pool);
    buf := pool.Get();
    ScratchOutsideWorld(world, ctx, pool, buf);
    HandlesBounded(s, oracle, inline, Begin(ctx.checks), ctx.Polls());
    t, err, ph := RunTurns(ctx, pool, buf, groups, tick, oracle, inline, s);
  }

  method PutBack(world: World.World, pool: BufferPool, buf: Buffer)
    requires pool.Valid() && world.Valid() && buf.Valid() && buf !in pool.idle
    modifies pool, buf
    ensures pool.Valid() && pool.idle == old(pool.idle) + [buf]
    ensures world.Valid() && world.Repr() == old(world.Repr()) && world.State() == old(world.State())
    ensures world.Damaged() == old(world.Damaged())
  {
    hide World.World.Valid, World.World.Damaged, World.World.State;
    BufferOutsideWorld(world, buf);
    pool.Put(buf);
  }
}
