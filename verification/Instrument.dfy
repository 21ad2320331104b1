/** Cachegrind's instrumentation pass (cachegrind/cg_main.c): a bounded queue of outstanding
events, flushed into helper calls that each cover up to three events.

The reference is the same block with every event performed on its own at the statement that
causes it.  The main theorem, `BatchingPreservesMeaning`, says that for every block, every
queue capacity, every way the block is left and every simulator state, the emitted calls leave
the simulator exactly as the reference does. */
module Instrument {
  import opened Lru
  import opened CgSim

  datatype Option<+T> = None | Some(value: T)
  datatype JumpKind = Boring | CallJump | Ret | OtherJump
  datatype Effect = FxNone | FxRead | FxWrite | FxModify

  /** Flat IR statements, by what they make the pass do. */
  datatype Stmt =
    | NoEffect
    | IMark(addr: nat, len: nat)
    | Load(szB: nat, ea: Atom)
    | Store(szB: nat, ea: Atom)
    | StoreG(szB: nat, ea: Atom, guard: Atom)
    | LoadG(szB: nat, ea: Atom, guard: Atom)
    | Dirty(fx: Effect, size: nat, ea: Atom)
    | Cas(size: nat, ea: Atom)
    | LoadLinked(szB: nat, ea: Atom)
    | StoreCond(szB: nat, ea: Atom)
    | Exit(guard: Atom, jk: JumpKind, dst: nat)

  datatype Next = NextConst | NextTmp(dst: Atom)

  /** The statements this model covers: no access is longer than the shortest cache line.
      The source asserts as much of loads and stores. For an instruction mark it also admits a
      cache-flush request, whose size may exceed that line and which is not modelled. */
  predicate StmtOk(cfg: Config, st: Stmt) {
    match st
    case IMark(_, len) => len <= cfg.minLine
    case Load(sz, _) => 1 <= sz <= cfg.minLine
    case Store(sz, _) => 1 <= sz <= cfg.minLine
    case StoreG(sz, _, _) => 1 <= sz <= cfg.minLine
    case LoadG(sz, _, _) => 1 <= sz <= cfg.minLine
    case LoadLinked(sz, _) => 1 <= sz <= cfg.minLine
    case StoreCond(sz, _) => 1 <= sz <= cfg.minLine
    case Dirty(fx, size, _) => fx.FxNone? || size >= 1
    case Cas(size, _) => size >= 1
    case _ => true
  }

  function Clip(cfg: Config, size: nat): nat {
    if size > cfg.minLine then cfg.minLine else size
  }

  // ---------------------------------------------------------------- running a block

  /** A block execution: still inside, or left by a side exit. */
  datatype Status = Inside(sim: Sim) | Left(sim: Sim)

  /** What the instrumented block consists of: original statements and helper calls, the latter
      possibly guarded. */
  datatype Out = Orig(st: Stmt) | Helper(call: Call) | HelperIf(guard: Atom, call: Call)

  ghost predicate OutOk(cfg: Config, o: Out) {
    (o.Helper? || o.HelperIf?) ==> CallOk(cfg, o.call)
  }

  ghost function RunOut(cfg: Config, env: Env, x: Status, o: Out): (r: Status)
    requires x.sim.Ok(cfg) && OutOk(cfg, o)
    ensures r.sim.Ok(cfg)
  {
    if x.Left? then x
    else
      match o
      case Orig(st) => if st.Exit? && env(st.guard) != 0 then Left(x.sim) else x
      case Helper(c) => Inside(Perform(cfg, env, x.sim, c))
      case HelperIf(g, c) => if env(g) != 0 then Inside(Perform(cfg, env, x.sim, c)) else x
  }

  ghost function RunOuts(cfg: Config, env: Env, x: Status, outs: seq<Out>): (r: Status)
    requires x.sim.Ok(cfg) && forall o | o in outs :: OutOk(cfg, o)
    ensures r.sim.Ok(cfg)
    decreases |outs|
  {
    if outs == [] then x else RunOuts(cfg, env, RunOut(cfg, env, x, outs[0]), outs[1..])
  }

  lemma {:induction false} RunOutsConcat(cfg: Config, env: Env, x: Status, a: seq<Out>, b: seq<Out>)
    requires x.sim.Ok(cfg) && (forall o | o in a :: OutOk(cfg, o)) && (forall o | o in b :: OutOk(cfg, o))
    ensures forall o | o in a + b :: OutOk(cfg, o)
    ensures RunOuts(cfg, env, x, a + b) == RunOuts(cfg, env, RunOuts(cfg, env, x, a), b)
    decreases |a|
  {
    if a == [] {
      assert a + b == b;
    } else {
      assert (a + b)[1..] == a[1..] + b;
      RunOutsConcat(cfg, env, RunOut(cfg, env, x, a[0]), a[1..], b);
    }
  }

  // ---------------------------------------------------------------- the reference

  /** One step of the reference. */
  datatype Item =
    | Ev(e: Event)
    | Guarded(isWrite: bool, inode: Inode, ea: Atom, szB: nat, guard: Atom)
    | Barrier
    | MayLeave(guard: Atom)

  ghost predicate ItemOk(cfg: Config, i: Item)
    requires cfg.Wf()
  {
    && (i.Ev? ==> Good(cfg, i.e))
    && (i.Guarded? ==> 1 <= i.szB <= cfg.minLine && cfg.cacheSim)
  }

  ghost function RunItem(cfg: Config, env: Env, x: Status, i: Item): (r: Status)
    requires x.sim.Ok(cfg) && ItemOk(cfg, i)
    ensures r.sim.Ok(cfg)
  {
    if x.Left? then x
    else
      match i
      case Ev(e) => Inside(Do(cfg, env, x.sim, e))
      case Guarded(w, n, ea, sz, g) =>
        if env(g) == 0 then x
        else Inside(Do(cfg, env, x.sim, if w then Dw(n, ea, sz) else Dr(n, ea, sz)))
      case Barrier => x
      case MayLeave(g) => if env(g) != 0 then Left(x.sim) else x
  }

  ghost function RunItems(cfg: Config, env: Env, x: Status, items: seq<Item>): (r: Status)
    requires x.sim.Ok(cfg) && forall i | i in items :: ItemOk(cfg, i)
    ensures r.sim.Ok(cfg)
    decreases |items|
  {
    if items == [] then x
    else RunItem(cfg, env, RunItems(cfg, env, x, items[..|items| - 1]), items[|items| - 1])
  }

  // ---------------------------------------------------------------- what a statement asks for

  /** The requests the statement loop makes of the queue. */
  datatype Action =
    | Notify(e: Event)
    | Write(n: Inode, ea: Atom, szB: nat)
    | Guard(isWrite: bool, n: Inode, ea: Atom, szB: nat, guard: Atom)
    | FlushAll
    | Copy(st: Stmt)

  /** The loop's position: the current instruction's record, and how many were set up. */
  datatype Cursor = Cursor(inode: Inode, count: nat)

  function NewInode(cfg: Config, count: nat, addr: nat, len: nat): Inode {
    Inode(count, addr, if len == 0 then cfg.minInstr else len, cfg.lineOf(addr))
  }

  function IrEvent(cfg: Config, n: Inode): Event
    requires cfg.Wf()
  {
    if cfg.IsIrNoX(n.addr, n.len) then IrNoX(n) else IrGen(n)
  }

  function ReadAction(cfg: Config, n: Inode, ea: Atom, sz: nat): seq<Action> {
    if cfg.cacheSim then [Notify(Dr(n, ea, sz))] else []
  }

  function WriteAction(cfg: Config, n: Inode, ea: Atom, sz: nat): seq<Action> {
    if cfg.cacheSim then [Write(n, ea, sz)] else []
  }

  function GuardAction(cfg: Config, isWrite: bool, n: Inode, ea: Atom, sz: nat, g: Atom): seq<Action> {
    if cfg.cacheSim then [Guard(isWrite, n, ea, sz, g)] else []
  }

  /** The switch of the statement loop. */
  function Requests(cfg: Config, n: Inode, st: Stmt): seq<Action>
    requires cfg.Wf()
  {
    match st
    case NoEffect => []
    case IMark(_, _) => [Notify(IrEvent(cfg, n))]
    case Load(sz, ea) => ReadAction(cfg, n, ea, sz)
    case Store(sz, ea) => WriteAction(cfg, n, ea, sz)
    case StoreG(sz, ea, g) => GuardAction(cfg, true, n, ea, sz, g)
    case LoadG(sz, ea, g) => GuardAction(cfg, false, n, ea, sz, g)
    case Dirty(fx, size, ea) =>
      (if fx.FxRead? || fx.FxModify? then ReadAction(cfg, n, ea, Clip(cfg, size)) else []) +
      (if fx.FxWrite? || fx.FxModify? then WriteAction(cfg, n, ea, Clip(cfg, size)) else [])
    case Cas(size, ea) =>
      ReadAction(cfg, n, ea, Clip(cfg, size)) + WriteAction(cfg, n, ea, Clip(cfg, size))
    case LoadLinked(sz, ea) => ReadAction(cfg, n, ea, sz) + [FlushAll]
    case StoreCond(sz, ea) => WriteAction(cfg, n, ea, sz)
    case Exit(g, jk, dst) =>
      (if cfg.branchSim && !jk.OtherJump? then [Notify(Bc(n, g, n.addr + n.len == dst))] else []) + [FlushAll]
  }

  function Advance(cfg: Config, c: Cursor, st: Stmt): Cursor {
    if st.IMark? then Cursor(NewInode(cfg, c.count, st.addr, st.len), c.count + 1) else c
  }

  /** All requests of a list of statements, each followed by the statement itself. */
  function Decode(cfg: Config, c: Cursor, stmts: seq<Stmt>): seq<Action>
    requires cfg.Wf()
    decreases |stmts|
  {
    if stmts == [] then []
    else
      var d := Advance(cfg, c, stmts[0]);
      Requests(cfg, d.inode, stmts[0]) + [Copy(stmts[0])] + Decode(cfg, d, stmts[1..])
  }

  // ---------------------------------------------------------------- requests performed at once

  /** A write directly after a read of the same place by the same instruction joins it. */
  function Append(items: seq<Item>, a: Action): seq<Item> {
    match a
    case Notify(e) => items + [Ev(if e.IrNoX? then IrGen(e.inode) else e)]
    case Write(n, ea, sz) =>
      if items != [] && items[|items| - 1] == Ev(Dr(n, ea, sz)) then items[..|items| - 1] + [Ev(Dm(n, ea, sz))]
      else items + [Ev(Dw(n, ea, sz))]
    case Guard(w, n, ea, sz, g) => items + [Guarded(w, n, ea, sz, g)]
    case FlushAll => items + [Barrier]
    case Copy(st) => if st.Exit? then items + [MayLeave(st.guard)] else items
  }

  function Itemise(items: seq<Item>, acts: seq<Action>): seq<Item>
    decreases |acts|
  {
    if acts == [] then items else Itemise(Append(items, acts[0]), acts[1..])
  }

  // ---------------------------------------------------------------- requests queued

  /** How many events the next call of flushEvents covers. */
  function Covered(q: seq<Event>): (k: nat)
    requires q != []
    ensures 1 <= k <= 3 && k <= |q|
  {
    if !q[0].IrNoX? || |q| == 1 then 1
    else if q[1].IsData() then 2
    else if !q[1].IrNoX? then 1
    else if |q| > 2 && q[2].IrNoX? then 3
    else 2
  }

  /** The call for one event on its own. */
  function SingleCall(cfg: Config, e: Event): Call {
    match e
    case IrNoX(n) => if cfg.cacheSim then Log1IrNoX0D(n) else Log1Ir(n)
    case IrGen(n) => if cfg.cacheSim then Log1IrGen0D(n) else Log1Ir(n)
    case Dr(n, ea, sz) => Log0Ir1Dr(n, ea, sz)
    case Dm(n, ea, sz) => Log0Ir1Dr(n, ea, sz)
    case Dw(n, ea, sz) => Log0Ir1Dw(n, ea, sz)
    case Bc(n, taken, inverted) => LogCondBranch(n, taken, inverted)
    case Bi(n, dst) => LogIndBranch(n, dst)
  }

  /** The next call itself. */
  function NextCall(cfg: Config, q: seq<Event>): Call
    requires q != []
  {
    if Covered(q) == 1 then SingleCall(cfg, q[0])
    else
      var n := q[0].inode;
      if q[1].Dr? || q[1].Dm? then Log1IrNoX1Dr(n, q[1].ea, q[1].szB)
      else if q[1].Dw? then Log1IrNoX1Dw(n, q[1].ea, q[1].szB)
      else if Covered(q) == 3 then
        if cfg.cacheSim then Log3IrNoX0D(n, q[1].inode, q[2].inode) else Log3Ir(n, q[1].inode, q[2].inode)
      else if cfg.cacheSim then Log2IrNoX0D(n, q[1].inode) else Log2Ir(n, q[1].inode)
  }

  /** All calls for a queue. */
  function Batch(cfg: Config, q: seq<Event>): seq<Call>
    decreases |q|
  {
    if q == [] then [] else [NextCall(cfg, q)] + Batch(cfg, q[Covered(q)..])
  }

  function Helpers(calls: seq<Call>): (outs: seq<Out>)
    ensures |outs| == |calls| && forall i :: 0 <= i < |calls| ==> outs[i] == Helper(calls[i])
  {
    seq(|calls|, i requires 0 <= i < |calls| => Helper(calls[i]))
  }

  /** The pass's state: events outstanding, and the block emitted so far. */
  datatype Pass = Pass(queue: seq<Event>, outs: seq<Out>)

  function Flush(cfg: Config, p: Pass): Pass {
    Pass([], p.outs + Helpers(Batch(cfg, p.queue)))
  }

  function Enqueue(cfg: Config, cap: nat, p: Pass, e: Event): Pass {
    var p' := if |p.queue| == cap then Flush(cfg, p) else p;
    p'.(queue := p'.queue + [e])
  }

  function Handle(cfg: Config, cap: nat, p: Pass, a: Action): Pass {
    match a
    case Notify(e) => Enqueue(cfg, cap, p, e)
    case Write(n, ea, sz) =>
      if p.queue != [] && p.queue[|p.queue| - 1] == Dr(n, ea, sz) then
        p.(queue := p.queue[|p.queue| - 1 := Dm(n, ea, sz)])
      else Enqueue(cfg, cap, p, Dw(n, ea, sz))
    case Guard(w, n, ea, sz, g) =>
      var p' := Flush(cfg, p);
      p'.(outs := p'.outs + [HelperIf(g, if w then Log0Ir1Dw(n, ea, sz) else Log0Ir1Dr(n, ea, sz))])
    case FlushAll => Flush(cfg, p)
    case Copy(st) => p.(outs := p.outs + [Orig(st)])
  }

  function HandleAll(cfg: Config, cap: nat, p: Pass, acts: seq<Action>): Pass
    decreases |acts|
  {
    if acts == [] then p else HandleAll(cfg, cap, Handle(cfg, cap, p, acts[0]), acts[1..])
  }

  // ---------------------------------------------------------------- a batch does what its events do

  ghost predicate GoodQueue(cfg: Config, q: seq<Event>)
    requires cfg.Wf()
  {
    && (forall i :: 0 <= i < |q| ==> Good(cfg, q[i]))
    && (forall i :: 0 < i < |q| && q[i - 1].IsIr() && q[i].IsData() ==> q[i].inode == q[i - 1].inode)
  }

  ghost function RunEvents(cfg: Config, env: Env, x: Status, q: seq<Event>): (r: Status)
    requires x.sim.Ok(cfg) && forall i :: 0 <= i < |q| ==> Good(cfg, q[i])
    ensures r.sim.Ok(cfg)
    decreases |q|
  {
    if q == [] then x
    else RunEvents(cfg, env, if x.Left? then x else Inside(Do(cfg, env, x.sim, q[0])), q[1..])
  }

  ghost function RunCalls(cfg: Config, env: Env, x: Status, calls: seq<Call>): (r: Status)
    requires x.sim.Ok(cfg) && forall i :: 0 <= i < |calls| ==> CallOk(cfg, calls[i])
    ensures r.sim.Ok(cfg)
    decreases |calls|
  {
    if calls == [] then x
    else RunCalls(cfg, env, if x.Left? then x else Inside(Perform(cfg, env, x.sim, calls[0])), calls[1..])
  }

  lemma GoodTail(cfg: Config, q: seq<Event>, k: nat)
    requires cfg.Wf() && GoodQueue(cfg, q) && k <= |q|
    ensures GoodQueue(cfg, q[k..])
  {
    var r := q[k..];
    forall i | 0 < i < |r| && r[i - 1].IsIr() && r[i].IsData() ensures r[i].inode == r[i - 1].inode {
      assert r[i] == q[k + i] && r[i - 1] == q[k + i - 1];
    }
  }

  lemma {:induction false} BatchOk(cfg: Config, q: seq<Event>)
    requires cfg.Wf() && GoodQueue(cfg, q)
    ensures forall i :: 0 <= i < |Batch(cfg, q)| ==> CallOk(cfg, Batch(cfg, q)[i])
    decreases |q|
  {
    if q != [] {
      GoodTail(cfg, q, Covered(q));
      BatchOk(cfg, q[Covered(q)..]);
    }
  }

  /** A call that begins with an instruction read on the special path. */
  predicate BeginsNoX(c: Call) {
    c.Log1IrNoX0D? || c.Log2IrNoX0D? || c.Log3IrNoX0D? || c.Log1IrNoX1Dr? || c.Log1IrNoX1Dw?
    || c.Log1Ir? || c.Log2Ir? || c.Log3Ir?
  }

  predicate IsDataCall(c: Call) { c.Log0Ir1Dr? || c.Log0Ir1Dw? }

  lemma NextBegins(cfg: Config, q: seq<Event>)
    requires q != []
    ensures BeginsNoX(NextCall(cfg, q)) ==> q[0].IsIr() && (cfg.cacheSim ==> q[0].IrNoX?)
    ensures IsDataCall(NextCall(cfg, q)) ==> q[0].IsData()
  {
  }

  /** No two calls of a batch could have been one: after a single read on the special path comes
      neither its data access nor another such read, and after two there is no third. */
  lemma {:induction false} NothingLeftToMerge(cfg: Config, q: seq<Event>, i: nat)
    requires cfg.cacheSim && i + 1 < |Batch(cfg, q)|
    ensures var c, next := Batch(cfg, q)[i], Batch(cfg, q)[i + 1];
            && (c.Log1IrNoX0D? ==> !BeginsNoX(next) && !IsDataCall(next))
            && (c.Log2IrNoX0D? ==> !BeginsNoX(next))
    decreases |q|
  {
    var rest := q[Covered(q)..];
    if i > 0 {
      NothingLeftToMerge(cfg, rest, i - 1);
    } else {
      NextBegins(cfg, rest);
    }
  }

  /** An instruction read by whichever path it was queued for. */
  lemma NoXDoes(cfg: Config, env: Env, s: Sim, e: Event)
    requires s.Ok(cfg) && Good(cfg, e) && e.IrNoX? && cfg.cacheSim
    ensures FetchNoX(cfg, s, e.inode) == Do(cfg, env, s, e)
  {
    NoXIsGen(cfg, s, e.inode.addr, e.inode.len);
  }

  ghost function DoFirst(cfg: Config, env: Env, s: Sim, q: seq<Event>, k: nat): (r: Sim)
    requires s.Ok(cfg) && k <= |q| && forall i :: 0 <= i < |q| ==> Good(cfg, q[i])
    ensures r.Ok(cfg)
  {
    if k == 0 then s else Do(cfg, env, DoFirst(cfg, env, s, q, k - 1), q[k - 1])
  }

  /** The next call has exactly the effect of the events it covers. */
  lemma NextCallRuns(cfg: Config, env: Env, s: Sim, q: seq<Event>)
    requires s.Ok(cfg) && GoodQueue(cfg, q) && q != []
    ensures CallOk(cfg, NextCall(cfg, q))
    ensures Perform(cfg, env, s, NextCall(cfg, q)) == DoFirst(cfg, env, s, q, Covered(q))
  {
    match Covered(q)
    case 1 => OneEvent(cfg, env, s, q);
    case 2 => TwoEvents(cfg, env, s, q);
    case _ => ThreeEvents(cfg, env, s, q);
  }

  lemma SingleRuns(cfg: Config, env: Env, s: Sim, e: Event)
    requires s.Ok(cfg) && Good(cfg, e)
    ensures CallOk(cfg, SingleCall(cfg, e)) && Perform(cfg, env, s, SingleCall(cfg, e)) == Do(cfg, env, s, e)
  {
    hide FetchNoX, FetchGen, ReadData, WriteData;
    if e.IrNoX? && cfg.cacheSim { NoXDoes(cfg, env, s, e); }
  }

  lemma OneEvent(cfg: Config, env: Env, s: Sim, q: seq<Event>)
    requires s.Ok(cfg) && GoodQueue(cfg, q) && q != [] && Covered(q) == 1
    ensures CallOk(cfg, NextCall(cfg, q))
    ensures Perform(cfg, env, s, NextCall(cfg, q)) == DoFirst(cfg, env, s, q, 1)
  {
    assert DoFirst(cfg, env, s, q, 1) == Do(cfg, env, s, q[0]);
    SingleRuns(cfg, env, s, q[0]);
  }

  lemma TwoEvents(cfg: Config, env: Env, s: Sim, q: seq<Event>)
    requires s.Ok(cfg) && GoodQueue(cfg, q) && |q| > 1 && Covered(q) == 2
    ensures CallOk(cfg, NextCall(cfg, q))
    ensures Perform(cfg, env, s, NextCall(cfg, q)) == DoFirst(cfg, env, s, q, 2)
  {
    hide FetchNoX, FetchGen, ReadData, WriteData;
    var s1 := Do(cfg, env, s, q[0]);
    assert DoFirst(cfg, env, s, q, 1) == s1;
    assert DoFirst(cfg, env, s, q, 2) == Do(cfg, env, s1, q[1]);
    if cfg.cacheSim {
      NoXDoes(cfg, env, s, q[0]);
      if q[1].IrNoX? { NoXDoes(cfg, env, s1, q[1]); }
    }
  }

  lemma ThreeEvents(cfg: Config, env: Env, s: Sim, q: seq<Event>)
    requires s.Ok(cfg) && GoodQueue(cfg, q) && |q| > 2 && Covered(q) == 3
    ensures CallOk(cfg, NextCall(cfg, q))
    ensures Perform(cfg, env, s, NextCall(cfg, q)) == DoFirst(cfg, env, s, q, 3)
  {
    hide FetchNoX, FetchGen, ReadData, WriteData;
    var s1 := Do(cfg, env, s, q[0]);
    var s2 := Do(cfg, env, s1, q[1]);
    assert DoFirst(cfg, env, s, q, 1) == s1;
    assert DoFirst(cfg, env, s, q, 2) == s2;
    if cfg.cacheSim {
      NoXDoes(cfg, env, s, q[0]);
      NoXDoes(cfg, env, s1, q[1]);
      NoXDoes(cfg, env, s2, q[2]);
    }
  }

  lemma {:induction false} RunEventsFrom(cfg: Config, env: Env, s: Sim, q: seq<Event>, k: nat)
    requires s.Ok(cfg) && k <= |q| && forall i :: 0 <= i < |q| ==> Good(cfg, q[i])
    ensures RunEvents(cfg, env, Inside(s), q) == RunEvents(cfg, env, Inside(DoFirst(cfg, env, s, q, k)), q[k..])
  {
    if k == 0 {
      assert q[0..] == q;
    } else {
      RunEventsFrom(cfg, env, s, q, k - 1);
      assert q[k - 1..][1..] == q[k..];
    }
  }

  /** A whole batch has exactly the effect of the queue. */
  lemma {:induction false} BatchRuns(cfg: Config, env: Env, x: Status, q: seq<Event>)
    requires x.sim.Ok(cfg) && GoodQueue(cfg, q)
    ensures forall i :: 0 <= i < |Batch(cfg, q)| ==> CallOk(cfg, Batch(cfg, q)[i])
    ensures RunCalls(cfg, env, x, Batch(cfg, q)) == RunEvents(cfg, env, x, q)
    decreases |q|
  {
    BatchOk(cfg, q);
    if x.Left? {
      LeftStays(cfg, env, x, q, Batch(cfg, q));
    } else if q != [] {
      var k := Covered(q);
      NextCallRuns(cfg, env, x.sim, q);
      RunEventsFrom(cfg, env, x.sim, q, k);
      GoodTail(cfg, q, k);
      BatchRuns(cfg, env, Inside(DoFirst(cfg, env, x.sim, q, k)), q[k..]);
    }
  }

  lemma {:induction false} LeftStays(cfg: Config, env: Env, x: Status, q: seq<Event>, calls: seq<Call>)
    requires x.Left? && x.sim.Ok(cfg) && forall i :: 0 <= i < |q| ==> Good(cfg, q[i])
    requires forall i :: 0 <= i < |calls| ==> CallOk(cfg, calls[i])
    ensures RunEvents(cfg, env, x, q) == x && RunCalls(cfg, env, x, calls) == x
    decreases |q| + |calls|
  {
    if q != [] { LeftStays(cfg, env, x, q[1..], calls); }
    if calls != [] { LeftStays(cfg, env, x, q, calls[1..]); }
  }

  lemma {:induction false} HelpersRun(cfg: Config, env: Env, x: Status, calls: seq<Call>)
    requires x.sim.Ok(cfg) && forall i :: 0 <= i < |calls| ==> CallOk(cfg, calls[i])
    ensures forall o | o in Helpers(calls) :: OutOk(cfg, o)
    ensures RunOuts(cfg, env, x, Helpers(calls)) == RunCalls(cfg, env, x, calls)
    decreases |calls|
  {
    if calls != [] {
      var y := RunOut(cfg, env, x, Helper(calls[0]));
      assert Helpers(calls)[1..] == Helpers(calls[1..]);
      HelpersRun(cfg, env, y, calls[1..]);
    }
  }

  lemma {:induction false} RunEventsSnoc(cfg: Config, env: Env, x: Status, q: seq<Event>, e: Event)
    requires x.sim.Ok(cfg) && Good(cfg, e) && forall i :: 0 <= i < |q| ==> Good(cfg, q[i])
    ensures forall i :: 0 <= i < |q + [e]| ==> Good(cfg, (q + [e])[i])
    ensures var y := RunEvents(cfg, env, x, q);
            RunEvents(cfg, env, x, q + [e]) == if y.Left? then y else Inside(Do(cfg, env, y.sim, e))
    decreases |q|
  {
    if q == [] {
      assert q + [e] == [e];
    } else {
      assert (q + [e])[1..] == q[1..] + [e];
      RunEventsSnoc(cfg, env, if x.Left? then x else Inside(Do(cfg, env, x.sim, q[0])), q[1..], e);
    }
  }

  // ---------------------------------------------------------------- queue against reference

  function Generic(e: Event): Event {
    if e.IrNoX? then IrGen(e.inode) else e
  }

  /** Emitted calls plus outstanding events have done exactly what the reference has done. */
  ghost predicate Same(cfg: Config, env: Env, s0: Sim, p: Pass, items: seq<Item>) {
    && s0.Ok(cfg)
    && (forall o | o in p.outs :: OutOk(cfg, o))
    && GoodQueue(cfg, p.queue)
    && (forall i | i in items :: ItemOk(cfg, i))
    && RunEvents(cfg, env, RunOuts(cfg, env, Inside(s0), p.outs), p.queue) == RunItems(cfg, env, Inside(s0), items)
  }

  /** A write can join the last event of the queue exactly when it can join the reference's. */
  ghost predicate SameEnd(p: Pass, items: seq<Item>) {
    if p.queue == [] then items == [] || !items[|items| - 1].Ev?
    else items != [] && items[|items| - 1] == Ev(Generic(p.queue[|p.queue| - 1]))
  }

  /** Instruction reads in the queue belong to the current instruction if they are last. */
  ghost predicate EndsAt(p: Pass, n: Inode) {
    p.queue != [] && p.queue[|p.queue| - 1].IsIr() ==> p.queue[|p.queue| - 1].inode == n
  }

  lemma RunItemsSnoc(cfg: Config, env: Env, x: Status, items: seq<Item>, i: Item)
    requires x.sim.Ok(cfg) && (forall j | j in items :: ItemOk(cfg, j)) && ItemOk(cfg, i)
    ensures forall j | j in items + [i] :: ItemOk(cfg, j)
    ensures RunItems(cfg, env, x, items + [i]) == RunItem(cfg, env, RunItems(cfg, env, x, items), i)
  {
    assert (items + [i])[..|items|] == items;
  }

  lemma RunOutsSnoc(cfg: Config, env: Env, x: Status, outs: seq<Out>, o: Out)
    requires x.sim.Ok(cfg) && (forall j | j in outs :: OutOk(cfg, j)) && OutOk(cfg, o)
    ensures forall j | j in outs + [o] :: OutOk(cfg, j)
    ensures RunOuts(cfg, env, x, outs + [o]) == RunOut(cfg, env, RunOuts(cfg, env, x, outs), o)
  {
    RunOutsConcat(cfg, env, x, outs, [o]);
    assert [o][1..] == [];
  }

  lemma FlushSame(cfg: Config, env: Env, s0: Sim, p: Pass, items: seq<Item>)
    requires Same(cfg, env, s0, p, items)
    ensures Same(cfg, env, s0, Flush(cfg, p), items)
  {
    hide Perform, Do;
    var x := RunOuts(cfg, env, Inside(s0), p.outs);
    var calls := Batch(cfg, p.queue);
    BatchRuns(cfg, env, x, p.queue);
    HelpersRun(cfg, env, x, calls);
    RunOutsConcat(cfg, env, Inside(s0), p.outs, Helpers(calls));
  }

  lemma GoodSnoc(cfg: Config, q: seq<Event>, e: Event)
    requires cfg.Wf() && GoodQueue(cfg, q) && Good(cfg, e)
    requires e.IsData() && q != [] && q[|q| - 1].IsIr() ==> q[|q| - 1].inode == e.inode
    ensures GoodQueue(cfg, q + [e])
  {
    var r := q + [e];
    forall i | 0 < i < |r| && r[i - 1].IsIr() && r[i].IsData() ensures r[i].inode == r[i - 1].inode {
      assert r[i - 1] == q[i - 1];
      if i < |q| { assert r[i] == q[i]; }
    }
  }

  lemma AddSame(cfg: Config, env: Env, s0: Sim, p: Pass, items: seq<Item>, e: Event)
    requires Same(cfg, env, s0, p, items) && Good(cfg, e)
    requires e.IsData() ==> EndsAt(p, e.inode)
    ensures Same(cfg, env, s0, p.(queue := p.queue + [e]), items + [Ev(Generic(e))])
  {
    hide FetchGen, FetchNoX, ReadData, WriteData;
    var x := RunOuts(cfg, env, Inside(s0), p.outs);
    GoodSnoc(cfg, p.queue, e);
    RunEventsSnoc(cfg, env, x, p.queue, e);
    RunItemsSnoc(cfg, env, Inside(s0), items, Ev(Generic(e)));
  }

  lemma EnqueueSame(cfg: Config, env: Env, s0: Sim, cap: nat, p: Pass, items: seq<Item>, e: Event)
    requires Same(cfg, env, s0, p, items) && Good(cfg, e)
    requires e.IsData() ==> EndsAt(p, e.inode)
    ensures Same(cfg, env, s0, Enqueue(cfg, cap, p, e), items + [Ev(Generic(e))])
    ensures SameEnd(Enqueue(cfg, cap, p, e), items + [Ev(Generic(e))])
  {
    hide RunOuts, RunEvents, RunItems;
    if |p.queue| == cap {
      FlushSame(cfg, env, s0, p, items);
      AddSame(cfg, env, s0, Flush(cfg, p), items, e);
    } else {
      AddSame(cfg, env, s0, p, items, e);
    }
  }

  /** Turning the last read into a modify changes nothing the simulator sees. */
  lemma JoinSame(cfg: Config, env: Env, s0: Sim, p: Pass, items: seq<Item>, n: Inode, ea: Atom, sz: nat)
    requires Same(cfg, env, s0, p, items) && SameEnd(p, items)
    requires p.queue != [] && p.queue[|p.queue| - 1] == Dr(n, ea, sz)
    ensures Same(cfg, env, s0, p.(queue := p.queue[|p.queue| - 1 := Dm(n, ea, sz)]),
                 items[..|items| - 1] + [Ev(Dm(n, ea, sz))])
  {
    hide RunOuts, RunItems, RunEvents, GoodQueue, Good, FetchGen, FetchNoX, ReadData, WriteData;
    assert Good(cfg, Dr(n, ea, sz)) && Good(cfg, Dm(n, ea, sz)) by { LastGood(cfg, p.queue, n, ea, sz); }
    assert forall i :: 0 <= i < |p.queue| ==> Good(cfg, p.queue[i]) by { AllGood(cfg, p.queue); }
    var k, m := |p.queue| - 1, |items| - 1;
    var q, rest := p.queue[..k], items[..m];
    var x := RunOuts(cfg, env, Inside(s0), p.outs);
    assert p.queue == q + [Dr(n, ea, sz)] && p.queue[k := Dm(n, ea, sz)] == q + [Dm(n, ea, sz)];
    assert items == rest + [Ev(Dr(n, ea, sz))];
    JoinGood(cfg, p.queue, n, ea, sz);
    RunEventsSnoc(cfg, env, x, q, Dr(n, ea, sz));
    RunEventsSnoc(cfg, env, x, q, Dm(n, ea, sz));
    RunItemsSnoc(cfg, env, Inside(s0), rest, Ev(Dr(n, ea, sz)));
    RunItemsSnoc(cfg, env, Inside(s0), rest, Ev(Dm(n, ea, sz)));
  }

  lemma AllGood(cfg: Config, q: seq<Event>)
    requires cfg.Wf() && GoodQueue(cfg, q)
    ensures forall i :: 0 <= i < |q| ==> Good(cfg, q[i])
  {
  }

  lemma LastGood(cfg: Config, q: seq<Event>, n: Inode, ea: Atom, sz: nat)
    requires cfg.Wf() && GoodQueue(cfg, q) && q != [] && q[|q| - 1] == Dr(n, ea, sz)
    ensures Good(cfg, Dr(n, ea, sz)) && Good(cfg, Dm(n, ea, sz))
  {
  }

  lemma JoinGood(cfg: Config, q: seq<Event>, n: Inode, ea: Atom, sz: nat)
    requires cfg.Wf() && GoodQueue(cfg, q) && q != [] && q[|q| - 1] == Dr(n, ea, sz)
    ensures GoodQueue(cfg, q[|q| - 1 := Dm(n, ea, sz)])
  {
    var r := q[|q| - 1 := Dm(n, ea, sz)];
    forall i | 0 < i < |r| && r[i - 1].IsIr() && r[i].IsData() ensures r[i].inode == r[i - 1].inode {
      assert r[i - 1] == q[i - 1] && q[i].IsData() && q[i].inode == r[i].inode;
    }
  }

  // ---------------------------------------------------------------- requests, statements, blocks

  predicate ActionOk(cfg: Config, a: Action, n: Inode)
    requires cfg.Wf()
  {
    match a
    case Notify(e) => Good(cfg, e) && e.inode == n && !e.Dw? && !e.Dm?
    case Write(m, _, sz) => m == n && 1 <= sz <= cfg.minLine && cfg.cacheSim
    case Guard(_, _, _, sz, _) => 1 <= sz <= cfg.minLine && cfg.cacheSim
    case FlushAll => true
    case Copy(_) => false
  }

  ghost predicate Linked(cfg: Config, env: Env, s0: Sim, p: Pass, items: seq<Item>, n: Inode) {
    Same(cfg, env, s0, p, items) && SameEnd(p, items) && EndsAt(p, n)
  }

  lemma GuardSame(cfg: Config, env: Env, s0: Sim, p: Pass, items: seq<Item>, a: Action)
    requires Same(cfg, env, s0, p, items) && p.queue == []
    requires a.Guard? && 1 <= a.szB <= cfg.minLine && cfg.cacheSim
    ensures Same(cfg, env, s0,
                 p.(outs := p.outs + [HelperIf(a.guard, if a.isWrite then Log0Ir1Dw(a.n, a.ea, a.szB)
                                                        else Log0Ir1Dr(a.n, a.ea, a.szB))]),
                 items + [Guarded(a.isWrite, a.n, a.ea, a.szB, a.guard)])
  {
    hide FetchGen, FetchNoX, ReadData, WriteData;
    RunOutsSnoc(cfg, env, Inside(s0), p.outs,
      HelperIf(a.guard, if a.isWrite then Log0Ir1Dw(a.n, a.ea, a.szB) else Log0Ir1Dr(a.n, a.ea, a.szB)));
    RunItemsSnoc(cfg, env, Inside(s0), items, Guarded(a.isWrite, a.n, a.ea, a.szB, a.guard));
  }

  lemma BarrierSame(cfg: Config, env: Env, s0: Sim, p: Pass, items: seq<Item>)
    requires Same(cfg, env, s0, p, items)
    ensures Same(cfg, env, s0, p, items + [Barrier])
  {
    RunItemsSnoc(cfg, env, Inside(s0), items, Barrier);
  }

  /** One request keeps queue and reference in step. */
  lemma HandleLinked(cfg: Config, env: Env, s0: Sim, cap: nat, p: Pass, items: seq<Item>, a: Action, n: Inode)
    requires Same(cfg, env, s0, p, items) && SameEnd(p, items) && ActionOk(cfg, a, n)
    requires EndsAt(p, n) || (a.Notify? && a.e.IsIr())
    ensures Linked(cfg, env, s0, Handle(cfg, cap, p, a), Append(items, a), n)
    ensures a.FlushAll? ==> Handle(cfg, cap, p, a).queue == []
  {
    hide RunOuts, RunEvents, RunItems, FetchGen, FetchNoX, ReadData, WriteData;
    match a
    case Notify(e) =>
      EnqueueSame(cfg, env, s0, cap, p, items, e);
    case Write(m, ea, sz) =>
      if p.queue != [] && p.queue[|p.queue| - 1] == Dr(m, ea, sz) {
        JoinSame(cfg, env, s0, p, items, m, ea, sz);
      } else {
        EnqueueSame(cfg, env, s0, cap, p, items, Dw(m, ea, sz));
      }
    case Guard(w, m, ea, sz, g) =>
      FlushSame(cfg, env, s0, p, items);
      GuardSame(cfg, env, s0, Flush(cfg, p), items, a);
    case FlushAll =>
      FlushSame(cfg, env, s0, p, items);
      BarrierSame(cfg, env, s0, Flush(cfg, p), items);
  }

  lemma {:induction false} RequestsLinked(cfg: Config, env: Env, s0: Sim, cap: nat, p: Pass, items: seq<Item>,
                                          acts: seq<Action>, n: Inode)
    requires Same(cfg, env, s0, p, items) && SameEnd(p, items)
    requires forall i :: 0 <= i < |acts| ==> ActionOk(cfg, acts[i], n)
    requires EndsAt(p, n) || (acts != [] && acts[0].Notify? && acts[0].e.IsIr())
    ensures Linked(cfg, env, s0, HandleAll(cfg, cap, p, acts), Itemise(items, acts), n)
    ensures acts != [] && acts[|acts| - 1].FlushAll? ==> HandleAll(cfg, cap, p, acts).queue == []
    decreases |acts|
  {
    hide Same, SameEnd;
    if acts != [] {
      HandleLinked(cfg, env, s0, cap, p, items, acts[0], n);
      RequestsLinked(cfg, env, s0, cap, Handle(cfg, cap, p, acts[0]), Append(items, acts[0]), acts[1..], n);
    }
  }

  lemma RequestsOk(cfg: Config, n: Inode, st: Stmt)
    requires cfg.Wf() && StmtOk(cfg, st) && (st.IMark? ==> 1 <= n.len <= cfg.minLine)
    ensures forall i :: 0 <= i < |Requests(cfg, n, st)| ==> ActionOk(cfg, Requests(cfg, n, st)[i], n)
  {
  }

  /** Copying a statement; a possible exit comes only after a flush. */
  lemma CopyLinked(cfg: Config, env: Env, s0: Sim, cap: nat, p: Pass, items: seq<Item>, st: Stmt, n: Inode)
    requires Linked(cfg, env, s0, p, items, n) && (st.Exit? ==> p.queue == [])
    ensures Linked(cfg, env, s0, Handle(cfg, cap, p, Copy(st)), Append(items, Copy(st)), n)
  {
    hide Perform, Do;
    RunOutsSnoc(cfg, env, Inside(s0), p.outs, Orig(st));
    if st.Exit? { RunItemsSnoc(cfg, env, Inside(s0), items, MayLeave(st.guard)); }
  }

  lemma {:induction false} HandleAllConcat(cfg: Config, cap: nat, p: Pass, items: seq<Item>, a: seq<Action>, b: seq<Action>)
    ensures HandleAll(cfg, cap, p, a + b) == HandleAll(cfg, cap, HandleAll(cfg, cap, p, a), b)
    ensures Itemise(items, a + b) == Itemise(Itemise(items, a), b)
    decreases |a|
  {
    hide Handle, Append;
    if a == [] {
      assert a + b == b;
    } else {
      assert (a + b)[1..] == a[1..] + b;
      HandleAllConcat(cfg, cap, Handle(cfg, cap, p, a[0]), Append(items, a[0]), a[1..], b);
    }
  }

  lemma StmtLinked(cfg: Config, env: Env, s0: Sim, cap: nat, p: Pass, items: seq<Item>, c: Cursor, st: Stmt)
    requires cfg.Wf() && StmtOk(cfg, st) && (st.IMark? || EndsAt(p, c.inode))
    requires Same(cfg, env, s0, p, items) && SameEnd(p, items)
    ensures var d := Advance(cfg, c, st);
            var acts := Requests(cfg, d.inode, st) + [Copy(st)];
            Linked(cfg, env, s0, HandleAll(cfg, cap, p, acts), Itemise(items, acts), d.inode)
  {
    hide Same, SameEnd, Handle, Append;
    var d := Advance(cfg, c, st);
    var acts := Requests(cfg, d.inode, st);
    RequestsOk(cfg, d.inode, st);
    assert st.Exit? ==> acts[|acts| - 1].FlushAll?;
    RequestsLinked(cfg, env, s0, cap, p, items, acts, d.inode);
    HandleAllConcat(cfg, cap, p, items, acts, [Copy(st)]);
    var p', items' := HandleAll(cfg, cap, p, acts), Itemise(items, acts);
    CopyLinked(cfg, env, s0, cap, p', items', st, d.inode);
    assert [Copy(st)][1..] == [];
  }

  /** The last record set up, and how many there are. */
  function AdvanceAll(cfg: Config, c: Cursor, stmts: seq<Stmt>): Cursor
    decreases |stmts|
  {
    if stmts == [] then c else AdvanceAll(cfg, Advance(cfg, c, stmts[0]), stmts[1..])
  }

  lemma {:induction false} StmtsLinked(cfg: Config, env: Env, s0: Sim, cap: nat, p: Pass, items: seq<Item>,
                                       c: Cursor, stmts: seq<Stmt>)
    requires cfg.Wf() && (forall i :: 0 <= i < |stmts| ==> StmtOk(cfg, stmts[i]))
    requires EndsAt(p, c.inode) || (stmts != [] && stmts[0].IMark?)
    requires Same(cfg, env, s0, p, items) && SameEnd(p, items)
    ensures var acts := Decode(cfg, c, stmts);
            Linked(cfg, env, s0, HandleAll(cfg, cap, p, acts), Itemise(items, acts), AdvanceAll(cfg, c, stmts).inode)
    decreases |stmts|
  {
    hide Same, SameEnd, Handle, Append, Requests;
    if stmts != [] {
      var d := Advance(cfg, c, stmts[0]);
      var acts := Requests(cfg, d.inode, stmts[0]) + [Copy(stmts[0])];
      var rest := Decode(cfg, d, stmts[1..]);
      StmtLinked(cfg, env, s0, cap, p, items, c, stmts[0]);
      assert Decode(cfg, c, stmts) == acts + rest;
      HandleAllConcat(cfg, cap, p, items, acts, rest);
      StmtsLinked(cfg, env, s0, cap, HandleAll(cfg, cap, p, acts), Itemise(items, acts), d, stmts[1..]);
    }
  }

  // ---------------------------------------------------------------- whole blocks

  /** A block: anything before the first instruction mark, the rest, and how it ends. */
  datatype Block = Block(preamble: seq<Stmt>, body: seq<Stmt>, jk: JumpKind, next: Next)

  predicate BlockOk(cfg: Config, b: Block) {
    && b.body != [] && b.body[0].IMark?
    && (forall i :: 0 <= i < |b.preamble| ==> !b.preamble[i].IMark?)
    && (forall i :: 0 <= i < |b.body| ==> StmtOk(cfg, b.body[i]))
  }

  const START := Cursor(Inode(0, 0, 0, 0), 0)

  function Copies(stmts: seq<Stmt>): (acts: seq<Action>)
    ensures |acts| == |stmts| && forall i :: 0 <= i < |acts| ==> acts[i] == Copy(stmts[i])
  {
    seq(|stmts|, i requires 0 <= i < |stmts| => Copy(stmts[i]))
  }

  /** What the end of the block asks for: an indirect jump is notified, then all is flushed. */
  function Closing(cfg: Config, n: Inode, b: Block): seq<Action> {
    (if cfg.branchSim && (b.jk.Boring? || b.jk.CallJump?) && b.next.NextTmp? then [Notify(Bi(n, b.next.dst))] else [])
    + [FlushAll]
  }

  function Script(cfg: Config, b: Block): seq<Action>
    requires cfg.Wf()
  {
    Copies(b.preamble) + (Decode(cfg, START, b.body) + Closing(cfg, AdvanceAll(cfg, START, b.body).inode, b))
  }

  /** The instrumented block, and the reference steps of the original. */
  function Compile(cfg: Config, cap: nat, b: Block): seq<Out>
    requires cfg.Wf()
  {
    HandleAll(cfg, cap, Pass([], []), Script(cfg, b)).outs
  }

  function Reference(cfg: Config, b: Block): seq<Item>
    requires cfg.Wf()
  {
    Itemise([], Script(cfg, b))
  }

  lemma {:induction false} CopiesLinked(cfg: Config, env: Env, s0: Sim, cap: nat, p: Pass, items: seq<Item>,
                                        stmts: seq<Stmt>, n: Inode)
    requires Linked(cfg, env, s0, p, items, n) && p.queue == []
    ensures Linked(cfg, env, s0, HandleAll(cfg, cap, p, Copies(stmts)), Itemise(items, Copies(stmts)), n)
    decreases |stmts|
  {
    hide Same, SameEnd;
    if stmts != [] {
      CopyLinked(cfg, env, s0, cap, p, items, stmts[0], n);
      assert Copies(stmts)[1..] == Copies(stmts[1..]);
      CopiesLinked(cfg, env, s0, cap, Handle(cfg, cap, p, Copy(stmts[0])), Append(items, Copy(stmts[0])), stmts[1..], n);
    }
  }

  /** Running the instrumented block leaves the caches, every line's counters and the branch
      predictor exactly as performing the events one at a time does, for any queue capacity,
      wherever the block is left. */
  lemma BatchingPreservesMeaning(cfg: Config, env: Env, s0: Sim, cap: nat, b: Block)
    requires s0.Ok(cfg) && BlockOk(cfg, b)
    ensures (forall o | o in Compile(cfg, cap, b) :: OutOk(cfg, o)) && (forall i | i in Reference(cfg, b) :: ItemOk(cfg, i))
    ensures RunOuts(cfg, env, Inside(s0), Compile(cfg, cap, b)) == RunItems(cfg, env, Inside(s0), Reference(cfg, b))
  {
    hide Decode, Closing, Handle, Append, GoodQueue, OutOk, ItemOk;
    var n := AdvanceAll(cfg, START, b.body).inode;
    var p0, copies, decoded, closing := Pass([], []), Copies(b.preamble), Decode(cfg, START, b.body), Closing(cfg, n, b);
    assert GoodQueue(cfg, []) by { EmptyGood(cfg); }
    assert Linked(cfg, env, s0, p0, [], START.inode);
    CopiesLinked(cfg, env, s0, cap, p0, [], b.preamble, START.inode);
    HandleAllConcat(cfg, cap, p0, [], copies, decoded + closing);
    var p1, items1 := HandleAll(cfg, cap, p0, copies), Itemise([], copies);
    StmtsLinked(cfg, env, s0, cap, p1, items1, START, b.body);
    HandleAllConcat(cfg, cap, p1, items1, decoded, closing);
    ClosingLinked(cfg, env, s0, cap, HandleAll(cfg, cap, p1, decoded), Itemise(items1, decoded), n, b);
  }

  lemma EmptyGood(cfg: Config)
    requires cfg.Wf()
    ensures GoodQueue(cfg, [])
  {
  }

  lemma ClosingLinked(cfg: Config, env: Env, s0: Sim, cap: nat, p: Pass, items: seq<Item>, n: Inode, b: Block)
    requires cfg.Wf() && Linked(cfg, env, s0, p, items, n)
    ensures Same(cfg, env, s0, HandleAll(cfg, cap, p, Closing(cfg, n, b)), Itemise(items, Closing(cfg, n, b)))
    ensures HandleAll(cfg, cap, p, Closing(cfg, n, b)).queue == []
  {
    hide Same, SameEnd, Handle, Append;
    RequestsLinked(cfg, env, s0, cap, p, items, Closing(cfg, n, b), n);
  }
}
