/**
 * The command buffer: a slice that is appended to, truncated and handed off in place. Truncation
 * keeps the backing array, so a later Push overwrites it; Drain gives the array away.
 */
module CommandBuffer {
  import opened Prelude
  import opened Commands

  /** The first `len` elements of a backing array; the nil slice has none. */
  datatype Slice = Slice(backing: array?<Command>, len: nat) {
    ghost predicate Valid() { if backing == null then len == 0 else len <= backing.Length }

    ghost function View(): seq<Command>
      requires Valid()
      reads backing
    {
      if backing == null then [] else backing[..len]
    }

    method Commands() returns (commands: seq<Command>)
      requires Valid()
      ensures commands == View()
    {
      commands := if backing == null then [] else backing[..len];
    }
  }

  function NonNil(commands: seq<Command>): seq<Command> {
    if commands == [] then []
    else NonNil(commands[..|commands| - 1]) +
         if commands[|commands| - 1].NilCommand? then [] else [commands[|commands| - 1]]
  }

  /** A command that is not nil is kept, in its place among the others; a nil one is not. */
  lemma {:induction false} NonNilIsExact(commands: seq<Command>)
    ensures Filtered(NonNil(commands), commands, (c: Command) => !c.NilCommand?)
  {
    var keep := (c: Command) => !c.NilCommand?;
    if commands == [] {
      NothingFiltered(keep);
    } else {
      var n := |commands| - 1;
      NonNilIsExact(commands[..n]);
      FilteredStep(NonNil(commands[..n]), commands[..n], keep, commands[n]);
      assert commands == commands[..n] + [commands[n]];
    }
  }

  class Buffer {
    var commands: Slice

    ghost predicate Valid()
      reads this
    {
      commands.Valid()
    }

    ghost function View(): seq<Command>
      requires Valid()
      reads this, commands.backing
    {
      commands.View()
    }

    constructor ()
      ensures Valid() && commands.backing == null && View() == []
    {
      commands := Slice(null, 0);
    }

    method Len() returns (n: nat)
      requires Valid()
      ensures n == |View()|
    {
      n := commands.len;
    }

    /** Appends in place while the backing array has room, and moves to a new array otherwise. */
    method Push(cmd: Command)
      requires Valid()
      modifies this, commands.backing
      ensures Valid() && View() == old(View()) + NonNil([cmd])
      ensures commands.backing == old(commands.backing) || fresh(commands.backing)
    {
      assert NonNil([]) == [] && [cmd][..0] == [];
      if cmd.NilCommand? {
        return;
      }
      var b, n := commands.backing, commands.len;
      if b == null || n == b.Length {
        var grown := new Command[2 * n + 1](_ => NilCommand);
        var i := 0;
        while i < n
          invariant 0 <= i <= n < grown.Length
          invariant grown[..i] == old(View())[..i]
          modifies grown
        {
          grown[i] := b[i];
          i := i + 1;
        }
        b := grown;
      }
      b[n] := cmd;
      commands := Slice(b, n + 1);
    }

    method Drain() returns (drained: Slice)
      requires Valid()
      modifies this
      ensures commands == Slice(null, 0)
      ensures drained == old(commands) && drained.Valid() && drained.View() == old(View())
    {
      drained := commands;
      commands := Slice(null, 0);
    }

    method Snapshot() returns (n: int)
      requires Valid()
      ensures n == |View()|
    {
      n := commands.len;
    }

    /** Truncates to the snapshot, keeping the backing array. */
    method Restore(snapshot: int)
      requires Valid()
      modifies this
      ensures Valid() && commands.backing == old(commands.backing)
      ensures View() == if snapshot >= |old(View())| then old(View())
                        else if snapshot < 0 then [] else old(View())[..snapshot]
    {
      var n := if snapshot < 0 then 0 else snapshot;
      if n >= commands.len {
        return;
      }
      commands := commands.(len := n);
    }
  }

  class BufferPool {
    var idle: seq<Buffer>

    constructor ()
      ensures idle == []
    {
      idle := [];
    }

    /** Idle buffers are empty, and each is there once unless a client put it back twice. */
    ghost predicate Valid()
      reads this, idle
    {
      NoDup(idle) && forall b :: b in idle ==> b.commands == Slice(null, 0)
    }

    /** Any idle buffer, or a new one: the pool may forget the buffers it was given. */
    method Get() returns (b: Buffer)
      modifies this
      ensures b in old(idle) || (fresh(b) && b.commands == Slice(null, 0))
      ensures forall c :: c in idle ==> c in old(idle)
      ensures multiset(idle) + (if b in old(idle) then multiset{b} else multiset{}) <= multiset(old(idle))
      ensures NoDup(old(idle)) ==> NoDup(idle) && b !in idle
    {
      if * {
        b := new Buffer();
      } else if idle != [] {
        assert idle == idle[..|idle| - 1] + [idle[|idle| - 1]];
        b := idle[|idle| - 1];
        idle := idle[..|idle| - 1];
      } else {
        b := new Buffer();
      }
    }

    /** Clears the buffer before keeping it. */
    method Put(b: Buffer)
      requires b.Valid()
      modifies this, b
      ensures idle == old(idle) + [b]
      ensures b.commands == Slice(null, 0)
    {
      var _ := b.Drain();
      idle := idle + [b];
    }
  }

  // ---------------------------------------------------------------------------------------------
  // Any interleaving of operations, on sequences.

  /** An operation on the buffer with the given number, or a request for one more buffer. */
  datatype BufferOp =
    | OpPush(index: nat, cmd: Command)
    | OpRestore(index: nat, snapshot: int)
    | OpDrain(index: nat)
    | OpPut(index: nat)
    | OpGet

  /**
   * What the buffers mean: the buffers in use in the order they were obtained, perhaps with
   * repeats, the sequence each holds, how often each has been put back and not handed out again,
   * and what each Drain so far returned.
   */
  datatype Bank = Bank(handles: seq<Buffer>,
                       contents: map<Buffer, seq<Command>>,
                       returned: multiset<Buffer>,
                       drained: seq<seq<Command>>)

  function Truncated(s: seq<Command>, snapshot: int): seq<Command> {
    if snapshot >= |s| then s else if snapshot < 0 then [] else s[..snapshot]
  }

  /** One operation on sequences; `got` is the buffer a request was answered with. */
  ghost function BankStep(m: Bank, op: BufferOp, got: Buffer?): Bank
    requires forall b :: b in m.handles ==> b in m.contents
  {
    if op.OpGet? then
      if got == null then m
      else
        m.(handles := m.handles + [got],
           contents := if got in m.contents then m.contents else m.contents[got := []],
           returned := m.returned - multiset{got})
    else if op.index >= |m.handles| then m
    else
      var b := m.handles[op.index];
      var s := m.contents[b];
      match op
      case OpPush(_, cmd) => m.(contents := m.contents[b := s + NonNil([cmd])])
      case OpRestore(_, snapshot) => m.(contents := m.contents[b := Truncated(s, snapshot)])
      case OpDrain(_) => m.(contents := m.contents[b := []], drained := m.drained + [s])
      case OpPut(_) => m.(contents := m.contents[b := []], returned := m.returned + multiset{b})
  }

  /** Every buffer in use has contents. */
  ghost predicate Known(m: Bank) {
    forall b :: b in m.handles ==> b in m.contents
  }

  lemma StepKeepsKnown(m: Bank, op: BufferOp, got: Buffer?)
    requires Known(m)
    ensures Known(BankStep(m, op, got))
  {
  }

  /** The first `n` operations; `got` has the buffer of each request at its position. */
  ghost function BankAfter(m: Bank, ops: seq<BufferOp>, got: seq<Buffer?>, n: nat): (m': Bank)
    requires Known(m) && n <= |ops| && n <= |got|
    ensures Known(m')
  {
    if n == 0 then m
    else
      var before := BankAfter(m, ops, got, n - 1);
      StepKeepsKnown(before, ops[n - 1], got[n - 1]);
      BankStep(before, ops[n - 1], got[n - 1])
  }

  /** A request is answered with a buffer that was put back and not handed out since, or with a new one. */
  ghost predicate Answered(m: Bank, op: BufferOp, got: Buffer?) {
    if op.OpGet? then got != null && (got in m.returned || got !in m.contents) else got == null
  }

  lemma NothingYet(m: Bank, ops: seq<BufferOp>, got: seq<Buffer?>)
    requires Known(m)
    ensures BankAfter(m, ops, got, 0) == m
  {
  }

  /** One more operation, with its answer. */
  lemma OneMoreAnswer(m: Bank, ops: seq<BufferOp>, got: seq<Buffer?>, g: Buffer?, i: nat)
    requires Known(m) && i < |ops| && |got| == i && Answered(BankAfter(m, ops, got, i), ops[i], g)
    requires forall k :: 0 <= k < i ==> Answered(BankAfter(m, ops, got, k), ops[k], got[k])
    ensures BankAfter(m, ops, got + [g], i + 1) == BankStep(BankAfter(m, ops, got, i), ops[i], g)
    ensures forall k :: 0 <= k <= i ==> Answered(BankAfter(m, ops, got + [g], k), ops[k], (got + [g])[k])
  {
    hide Answered, BankStep, Known;
    forall k: nat | k <= i
      ensures BankAfter(m, ops, got + [g], k) == BankAfter(m, ops, got, k)
    {
      BankAfterSame(m, ops, got, g, k);
    }
  }

  /** The answers depend on nothing but their position. */
  lemma {:induction false} BankAfterSame(m: Bank, ops: seq<BufferOp>, got: seq<Buffer?>, more: Buffer?, n: nat)
    requires Known(m) && n <= |ops| && n <= |got|
    ensures BankAfter(m, ops, got + [more], n) == BankAfter(m, ops, got, n)
  {
    hide BankStep, Known;
    if n > 0 {
      BankAfterSame(m, ops, got, more, n - 1);
    }
  }

  // ---------------------------------------------------------------------------------------------
  // The buffers, their backing arrays and the drained slices.

  /** No backing array belongs to two buffers, or to a buffer and a drained slice. */
  ghost predicate Owned(bufs: seq<Buffer>, drained: seq<Slice>)
    reads bufs
  {
    && (forall b :: b in bufs ==> b.Valid())
    && (forall b, c :: b in bufs && c in bufs && b != c ==>
          b.commands.backing == null || b.commands.backing != c.commands.backing)
    && (forall d, b :: d in drained && b in bufs ==>
          d.backing == null || d.backing != b.commands.backing)
  }

  /** The slices hold what their Drains returned. */
  ghost predicate Intact(drained: seq<Slice>, contents: seq<seq<Command>>)
    reads set d | d in drained :: d.backing
  {
    |drained| == |contents| &&
    forall k :: 0 <= k < |drained| ==> drained[k].Valid() && drained[k].View() == contents[k]
  }

  /** The buffers hold the sequences they mean. */
  ghost predicate Holds(bufs: seq<Buffer>, contents: map<Buffer, seq<Command>>)
    requires forall b :: b in bufs ==> b.Valid()
    reads bufs, set b | b in bufs :: b.commands.backing
  {
    && contents.Keys == (set b | b in bufs)
    && (forall b :: b in bufs ==> b.View() == contents[b])
  }

  /** Buffers in use, the slices drained from them, and what they mean. */
  datatype Scene = Scene(bufs: seq<Buffer>, drained: seq<Slice>, m: Bank)

  ghost predicate InOrder(x: Scene)
    reads x.bufs, (set b | b in x.bufs :: b.commands.backing), set d | d in x.drained :: d.backing
  {
    && x.bufs == x.m.handles
    && Owned(x.bufs, x.drained) && Intact(x.drained, x.m.drained) && Holds(x.bufs, x.m.contents)
  }

  /** The pool keeps only buffers that were put back and not handed out since. */
  ghost predicate Kept(idle: seq<Buffer>, m: Bank) {
    multiset(idle) <= m.returned && forall b :: b in m.returned ==> b in m.handles
  }

  ghost predicate Represents(bufs: seq<Buffer>, pool: BufferPool, drained: seq<Slice>, m: Bank)
    reads pool, bufs, (set b | b in bufs :: b.commands.backing), set d | d in drained :: d.backing
  {
    InOrder(Scene(bufs, drained, m)) && Kept(pool.idle, m)
  }

  /** The buffers, their backing arrays and the pool. */
  ghost function Footprint(bufs: seq<Buffer>, pool: BufferPool): set<object?>
    reads bufs
  {
    {pool as object?} + (set b | b in bufs :: b as object?) + set b | b in bufs :: b.commands.backing as object?
  }

  lemma InFootprint(bufs: seq<Buffer>, pool: BufferPool)
    ensures pool as object? in Footprint(bufs, pool)
    ensures forall b: Buffer :: b in bufs ==>
      (b as object?) in Footprint(bufs, pool) && b.commands.backing as object? in Footprint(bufs, pool)
  {
  }

  /** Only what was there at the start, or was made since, is ever written. */
  twostate predicate Framed(start: seq<Buffer>, new bufs: seq<Buffer>, pool: BufferPool)
    reads bufs
  {
    forall o: object? :: o in Footprint(bufs, pool) && o != null ==> o in old(Footprint(start, pool)) || fresh(o)
  }

  /** Only buffer `i` and its own backing array changed: the others hold what they held. */
  twostate lemma OneChanged(x: Scene, new i: nat, new s: seq<Command>)
    requires i < |x.bufs| && old(InOrder(x))
    requires forall c :: c in x.bufs && c != x.bufs[i] ==> c.commands == old(c.commands)
    requires forall c :: c in x.bufs && c != x.bufs[i] && c.commands.backing != null ==> unchanged(c.commands.backing)
    requires forall d :: d in x.drained && d.backing != null ==> unchanged(d.backing)
    requires x.bufs[i].Valid() && x.bufs[i].View() == s
    requires var now := x.bufs[i].commands.backing;
      now == null || now == old(x.bufs[i].commands.backing) || fresh(now)
    ensures InOrder(x.(m := x.m.(contents := x.m.contents[x.bufs[i] := s])))
  {
  }

  /** No buffer and no backing array changed. */
  twostate lemma NothingChanged(x: Scene)
    requires old(InOrder(x))
    requires forall b :: b in x.bufs ==> b.commands == old(b.commands)
    requires forall b :: b in x.bufs && b.commands.backing != null ==> unchanged(b.commands.backing)
    requires forall d :: d in x.drained && d.backing != null ==> unchanged(d.backing)
    ensures InOrder(x)
  {
  }

  /** How often buffers have been put back plays no part in what they hold. */
  lemma ReturnedFree(x: Scene, returned: multiset<Buffer>)
    requires InOrder(x)
    ensures InOrder(x.(m := x.m.(returned := returned)))
  {
  }

  method PushOn(bufs: seq<Buffer>, i: nat, cmd: Command, drained: seq<Slice>, ghost m: Bank)
    requires i < |bufs| && InOrder(Scene(bufs, drained, m)) && Known(m)
    modifies bufs[i], bufs[i].commands.backing
    ensures InOrder(Scene(bufs, drained, BankStep(m, OpPush(i, cmd), null)))
    ensures bufs[i].commands.backing == old(bufs[i].commands.backing) || fresh(bufs[i].commands.backing)
    ensures forall b :: b in bufs && b != bufs[i] ==> unchanged(b)
  {
    hide NonNil;
    bufs[i].Push(cmd);
    OneChanged(Scene(bufs, drained, m), i, bufs[i].View());
  }

  method RestoreOn(bufs: seq<Buffer>, i: nat, snapshot: int, drained: seq<Slice>, ghost m: Bank)
    requires i < |bufs| && InOrder(Scene(bufs, drained, m)) && Known(m)
    modifies bufs[i]
    ensures InOrder(Scene(bufs, drained, BankStep(m, OpRestore(i, snapshot), null)))
    ensures bufs[i].commands.backing == old(bufs[i].commands.backing)
    ensures forall b :: b in bufs && b != bufs[i] ==> unchanged(b)
  {
    bufs[i].Restore(snapshot);
    OneChanged(Scene(bufs, drained, m), i, bufs[i].View());
  }

  method DrainOn(bufs: seq<Buffer>, i: nat, drained: seq<Slice>, ghost m: Bank) returns (s: Slice)
    requires i < |bufs| && InOrder(Scene(bufs, drained, m)) && Known(m)
    modifies bufs[i]
    ensures s == old(bufs[i].commands)
    ensures InOrder(Scene(bufs, drained + [s], BankStep(m, OpDrain(i), null)))
    ensures bufs[i].commands.backing == null
    ensures forall b :: b in bufs && b != bufs[i] ==> unchanged(b)
  {
    ghost var c := m.contents[bufs[i]];
    s := bufs[i].Drain();
    OneChanged(Scene(bufs, drained, m), i, []);
    OneMoreDrained(Scene(bufs, drained, m.(contents := m.contents[bufs[i] := []])), s, c);
    hide InOrder;
  }

  lemma OneMoreDrained(x: Scene, s: Slice, c: seq<Command>)
    requires InOrder(x) && s.Valid() && s.View() == c
    requires forall b :: b in x.bufs ==> s.backing == null || s.backing != b.commands.backing
    ensures InOrder(Scene(x.bufs, x.drained + [s], x.m.(drained := x.m.drained + [c])))
  {
  }

  method PutOn(bufs: seq<Buffer>, pool: BufferPool, i: nat, drained: seq<Slice>, ghost m: Bank)
    requires i < |bufs| && InOrder(Scene(bufs, drained, m)) && Known(m)
    modifies pool, bufs[i]
    ensures InOrder(Scene(bufs, drained, BankStep(m, OpPut(i), null)))
    ensures pool.idle == old(pool.idle) + [bufs[i]]
    ensures bufs[i].commands.backing == null
    ensures forall b :: b in bufs && b != bufs[i] ==> unchanged(b)
  {
    pool.Put(bufs[i]);
    OneChanged(Scene(bufs, drained, m), i, []);
    ReturnedFree(Scene(bufs, drained, m.(contents := m.contents[bufs[i] := []])), m.returned + multiset{bufs[i]});
    hide InOrder;
  }

  /** One operation on a buffer in use. A Drain returns the very slice the buffer held. */
  method PerformOn(bufs: seq<Buffer>, pool: BufferPool, op: BufferOp, drained: seq<Slice>, ghost m: Bank)
    returns (drained': seq<Slice>)
    requires Represents(bufs, pool, drained, m) && Known(m)
    requires !op.OpGet? && op.index < |bufs|
    modifies pool, bufs[op.index], bufs[op.index].commands.backing
    ensures Represents(bufs, pool, drained', BankStep(m, op, null))
    ensures drained' == if op.OpDrain? then drained + [old(bufs[op.index].commands)] else drained
    ensures var now := bufs[op.index].commands.backing;
      now == null || now == old(bufs[op.index].commands.backing) || fresh(now)
    ensures forall b :: b in bufs && b != bufs[op.index] ==> unchanged(b)
  {
    RepresentsMeans(bufs, pool, drained, m);
    hide NonNil, BankStep, InOrder, Represents, Kept, Known;
    drained' := drained;
    ghost var idle := pool.idle;
    match op {
      case OpPush(i, cmd) => PushOn(bufs, i, cmd, drained, m);
      case OpRestore(i, snapshot) => RestoreOn(bufs, i, snapshot, drained, m);
      case OpDrain(i) =>
        var s := DrainOn(bufs, i, drained, m);
        drained' := drained + [s];
      case OpPut(i) => PutOn(bufs, pool, i, drained, m);
    }
    Reassemble(bufs, pool, drained', m, op, idle);
  }

  lemma Reassemble(bufs: seq<Buffer>, pool: BufferPool, drained: seq<Slice>, m: Bank, op: BufferOp, idle: seq<Buffer>)
    requires Known(m) && !op.OpGet? && op.index < |bufs| && bufs == m.handles
    requires InOrder(Scene(bufs, drained, BankStep(m, op, null)))
    requires Kept(idle, m)
    requires pool.idle == if op.OpPut? then idle + [bufs[op.index]] else idle
    ensures Represents(bufs, pool, drained, BankStep(m, op, null))
  {
    hide InOrder;
  }

  /** A request for a buffer appends it, perhaps one already in use. */
  method GetOne(bufs: seq<Buffer>, pool: BufferPool, drained: seq<Slice>, ghost m: Bank) returns (b: Buffer)
    requires Represents(bufs, pool, drained, m) && Known(m)
    modifies pool
    ensures Answered(m, OpGet, b) && Represents(bufs + [b], pool, drained, BankStep(m, OpGet, b))
    ensures b in bufs || (fresh(b) && b.commands.backing == null)
  {
    RepresentsMeans(bufs, pool, drained, m);
    hide InOrder, BankStep, Kept, Known, Answered, NoDup;
    b := pool.Get();
    NothingChanged(Scene(bufs, drained, m));
    OnlyTheirs(Scene(bufs, drained, m), b);
    StillReturned(m, pool.idle, old(pool.idle), b);
    OneMore(Scene(bufs, drained, m), b);
  }

  lemma OnlyTheirs(x: Scene, b: Buffer)
    requires InOrder(x)
    ensures b in x.m.contents <==> b in x.m.handles
  {
  }

  lemma StillReturned(m: Bank, idle: seq<Buffer>, before: seq<Buffer>, b: Buffer)
    requires Known(m) && Kept(before, m)
    requires multiset(idle) + (if b in before then multiset{b} else multiset{}) <= multiset(before)
    requires b in before || b !in m.handles
    requires b in m.contents <==> b in m.handles
    ensures Kept(idle, BankStep(m, OpGet, b)) && Answered(m, OpGet, b)
    ensures b in before ==> b in m.handles
  {
    assert b in before ==> b in multiset(before);
  }

  lemma OneMore(x: Scene, b: Buffer)
    requires InOrder(x) && Known(x.m) && (b in x.bufs || b.commands == Slice(null, 0))
    ensures InOrder(x.(bufs := x.bufs + [b], m := BankStep(x.m, OpGet, b)))
  {
    assert forall c :: c in x.bufs + [b] <==> c in x.bufs || c == b;
  }

  /** Performs one operation. */
  method Perform(bufs: seq<Buffer>, pool: BufferPool, op: BufferOp, drained: seq<Slice>, ghost m: Bank)
    returns (bufs': seq<Buffer>, drained': seq<Slice>, ghost got: Buffer?)
    requires Represents(bufs, pool, drained, m) && Known(m)
    modifies Footprint(bufs, pool)
    ensures Answered(m, op, got)
    ensures Represents(bufs', pool, drained', BankStep(m, op, got))
    ensures Framed(bufs, bufs', pool)
    ensures bufs <= bufs'
    ensures drained' == if op.OpDrain? && op.index < |bufs| then drained + [old(bufs[op.index].commands)] else drained
  {
    RepresentsMeans(bufs, pool, drained, m);
    InFootprint(bufs, pool);
    hide Represents, BankStep, Framed, Footprint, InOrder, Kept, Known, Answered;
    bufs', drained', got := bufs, drained, null;
    if op.OpGet? {
      bufs' := GetFramed(bufs, pool, drained, m);
      got := bufs'[|bufs|];
    } else if op.index < |bufs| {
      drained' := PerformOn(bufs, pool, op, drained, m);
      FramedOn((bufs, pool), op.index);
      NotAsked(m, op);
    } else {
      NoStep(m, op);
      NotAsked(m, op);
      FramedWith((bufs, pool), []);
      assert bufs + [] == bufs;
    }
  }

  method GetFramed(bufs: seq<Buffer>, pool: BufferPool, drained: seq<Slice>, ghost m: Bank) returns (bufs': seq<Buffer>)
    requires Represents(bufs, pool, drained, m) && Known(m)
    modifies pool
    ensures |bufs'| == |bufs| + 1 && bufs <= bufs'
    ensures Answered(m, OpGet, bufs'[|bufs|]) && Represents(bufs', pool, drained, BankStep(m, OpGet, bufs'[|bufs|]))
    ensures Framed(bufs, bufs', pool)
  {
    hide Represents, BankStep, Framed, Footprint, InOrder, Kept, Known, Answered;
    var b := GetOne(bufs, pool, drained, m);
    bufs' := bufs + [b];
    if b in bufs {
      FramedAgain((bufs, pool), b);
    } else {
      FramedWith((bufs, pool), [b]);
    }
  }

  twostate lemma FramedAgain(x: (seq<Buffer>, BufferPool), new b: Buffer)
    requires b in x.0 && forall c :: c in x.0 ==> unchanged(c)
    ensures Framed(x.0, x.0 + [b], x.1)
  {
    assert forall c :: c in x.0 + [b] <==> c in x.0;
  }

  lemma NoStep(m: Bank, op: BufferOp)
    requires Known(m) && !op.OpGet? && op.index >= |m.handles|
    ensures BankStep(m, op, null) == m
  {
  }

  lemma NotAsked(m: Bank, op: BufferOp)
    ensures !op.OpGet? ==> Answered(m, op, null)
  {
  }

  /** One buffer kept its backing array, or moved to none or a new one. */
  twostate lemma FramedOn(x: (seq<Buffer>, BufferPool), new i: nat)
    requires i < |x.0| && forall b :: b in x.0 && b != x.0[i] ==> unchanged(b)
    requires var now := x.0[i].commands.backing; now == null || now == old(x.0[i].commands.backing) || fresh(now)
    ensures Framed(x.0, x.0, x.1)
  {
  }

  /** No buffer changed, and there may be a new one. */
  twostate lemma FramedWith(x: (seq<Buffer>, BufferPool), new more: seq<Buffer>)
    requires forall b :: b in x.0 ==> unchanged(b)
    requires forall b :: b in more ==> fresh(b) && b.commands.backing == null
    ensures Framed(x.0, x.0 + more, x.1)
  {
    assert forall b :: b in x.0 + more <==> b in x.0 || b in more;
  }

  lemma RepresentsMeans(bufs: seq<Buffer>, pool: BufferPool, drained: seq<Slice>, m: Bank)
    requires Represents(bufs, pool, drained, m)
    ensures bufs == m.handles && InOrder(Scene(bufs, drained, m)) && Kept(pool.idle, m)
  {
  }

  /**
   * Any sequence of operations on any number of buffers, with buffers used after they were put
   * back or put back twice. The buffers end up holding what the operations on sequences give,
   * and each Drain has returned a slice that holds, to the end, what its buffer held when drained.
   */
  method Interleave(start: seq<Buffer>, pool: BufferPool, ops: seq<BufferOp>, ghost m: Bank)
    returns (bufs: seq<Buffer>, drained: seq<Slice>, ghost got: seq<Buffer?>)
    requires Represents(start, pool, [], m) && Known(m)
    modifies Footprint(start, pool)
    ensures |got| == |ops| && forall k :: 0 <= k < |ops| ==> Answered(BankAfter(m, ops, got, k), ops[k], got[k])
    ensures Represents(bufs, pool, drained, BankAfter(m, ops, got, |ops|))
  {
    hide Represents, BankStep, BankAfter, Answered, Known;
    bufs, drained, got := start, [], [];
    NothingYet(m, ops, got);
    var i := 0;
    while i < |ops|
      invariant 0 <= i <= |ops| && |got| == i
      invariant Framed(start, bufs, pool)
      invariant Represents(bufs, pool, drained, BankAfter(m, ops, got, i))
      invariant forall k :: 0 <= k < i ==> Answered(BankAfter(m, ops, got, k), ops[k], got[k])
    {
      ghost var now := BankAfter(m, ops, got, i);
      ghost var g;
      bufs, drained, g := Perform(bufs, pool, ops[i], drained, now);
      OneMoreAnswer(m, ops, got, g, i);
      got := got + [g];
      i := i + 1;
    }
  }
}
