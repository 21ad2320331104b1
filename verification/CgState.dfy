/** The instrumentation pass as the source runs it: an array of outstanding events filled and
flushed in place, and the output block appended to. */
module CgStates {
  import opened CgSim
  import opened Instrument
  import BlockLaws

  /** Queues the pass can reach: sizes in range, and a data event right after an instruction read
      belongs to the same instruction. */
  ghost predicate Reachable(cfg: Config, p: Pass, n: Inode) {
    cfg.Wf() && GoodQueue(cfg, p.queue) && EndsAt(p, n)
  }

  lemma HandleReachable(cfg: Config, cap: nat, p: Pass, a: Action, n: Inode)
    requires cfg.Wf() && GoodQueue(cfg, p.queue) && ActionOk(cfg, a, n)
    requires EndsAt(p, n) || (a.Notify? && a.e.IsIr())
    ensures Reachable(cfg, Handle(cfg, cap, p, a), n)
  {
    hide Batch, Good;
    EmptyGood(cfg);
    match a
    case Notify(e) =>
      GoodSnoc(cfg, if |p.queue| == cap then [] else p.queue, e);
    case Write(m, ea, sz) =>
      if p.queue != [] && p.queue[|p.queue| - 1] == Dr(m, ea, sz) {
        JoinGood(cfg, p.queue, m, ea, sz);
      } else {
        WriteGood(cfg, m, ea, sz);
        GoodSnoc(cfg, if |p.queue| == cap then [] else p.queue, Dw(m, ea, sz));
      }
    case Guard(w, m, ea, sz, g) =>
    case FlushAll =>
  }

  lemma WriteGood(cfg: Config, n: Inode, ea: Atom, sz: nat)
    requires cfg.Wf() && 1 <= sz <= cfg.minLine && cfg.cacheSim
    ensures Good(cfg, Dw(n, ea, sz)) && Good(cfg, Dr(n, ea, sz))
  {
  }

  lemma BatchStep(cfg: Config, q: seq<Event>, i: nat, done: seq<Call>)
    requires i < |q| && done + Batch(cfg, q[i..]) == Batch(cfg, q)
    ensures var c, k := NextCall(cfg, q[i..]), Covered(q[i..]);
            && i + k <= |q| && (done + [c]) + Batch(cfg, q[i + k..]) == Batch(cfg, q)
            && Helpers(done) + [Helper(c)] == Helpers(done + [c])
  {
    hide NextCall, Covered;
    var k := Covered(q[i..]);
    assert q[i..][k..] == q[i + k..];
  }

  lemma BatchEnd(cfg: Config, q: seq<Event>, i: nat, done: seq<Call>)
    requires i == |q| && done + Batch(cfg, q[i..]) == Batch(cfg, q)
    ensures done == Batch(cfg, q)
  {
  }

  class CgState {
    const cfg: Config
    const cap: nat
    const events: array<Event>
    var used: nat
    var outs: seq<Out>

    ghost predicate Valid()
      reads this
    {
      cfg.Wf() && cap > 0 && events.Length == cap && used <= cap
    }

    ghost function State(): Pass
      requires Valid()
      reads this, events
    {
      Pass(events[..used], outs)
    }

    constructor (cfg: Config, cap: nat)
      requires cfg.Wf() && cap > 0
      ensures Valid() && fresh(events) && State() == Pass([], []) && this.cfg == cfg && this.cap == cap
    {
      this.cfg, this.cap := cfg, cap;
      events := new Event[cap](_ => IrGen(Inode(0, 0, 0, 0)));
      used, outs := 0, [];
    }

    /** flushEvents.  The assertion that a data event merged into an instruction read belongs to
        the same instruction is proved. */
    method FlushEvents()
      requires Valid() && GoodQueue(cfg, State().queue)
      modifies this`used, this`outs
      ensures Valid() && State() == Flush(cfg, old(State()))
    {
      hide Good, GoodQueue, NextCall, Covered, Batch;
      ghost var q := events[..used];
      ghost var done: seq<Call> := [];
      assert q[0..] == q;
      var i := 0;
      while i < used
        invariant 0 <= i <= used == old(used)
        invariant used <= |q| && done + Batch(cfg, q[i..]) == Batch(cfg, q)
        invariant outs == old(outs) + Helpers(done)
      {
        var c, k := ChooseCall(i, q);
        BatchStep(cfg, q, i, done);
        outs := outs + [Helper(c)];
        done := done + [c];
        i := i + k;
      }
      assert done == Batch(cfg, q) by { BatchEnd(cfg, q, i, done); }
      used := 0;
    }

    /** Decides the helper for events[i] and possibly the ones right after it. */
    method ChooseCall(i: nat, ghost q: seq<Event>) returns (c: Call, k: nat)
      requires Valid() && i < used && q == events[..used] && GoodQueue(cfg, q)
      ensures c == NextCall(cfg, q[i..]) && k == Covered(q[i..])
    {
      hide Good;
      ghost var r := q[i..];
      var ev := events[i];
      assert r[0] == ev;
      if i + 1 < used { assert r[1] == events[i + 1] == q[i + 1]; }
      if i + 2 < used { assert r[2] == events[i + 2]; }
      if ev.IrNoX? {
        if i + 1 < used && (events[i + 1].Dr? || events[i + 1].Dm?) {
          assert events[i + 1].inode == ev.inode;
          return Log1IrNoX1Dr(ev.inode, events[i + 1].ea, events[i + 1].szB), 2;
        } else if i + 1 < used && events[i + 1].Dw? {
          assert events[i + 1].inode == ev.inode;
          return Log1IrNoX1Dw(ev.inode, events[i + 1].ea, events[i + 1].szB), 2;
        } else if i + 2 < used && events[i + 1].IrNoX? && events[i + 2].IrNoX? {
          return if cfg.cacheSim then Log3IrNoX0D(ev.inode, events[i + 1].inode, events[i + 2].inode)
                 else Log3Ir(ev.inode, events[i + 1].inode, events[i + 2].inode), 3;
        } else if i + 1 < used && events[i + 1].IrNoX? {
          return if cfg.cacheSim then Log2IrNoX0D(ev.inode, events[i + 1].inode)
                 else Log2Ir(ev.inode, events[i + 1].inode), 2;
        }
      }
      return SingleCall(cfg, ev), 1;
    }

    /** The common tail of the addEvent functions. */
    method Enqueue(e: Event)
      requires Valid() && GoodQueue(cfg, State().queue)
      modifies this`used, this`outs, events
      ensures Valid() && State() == Instrument.Enqueue(cfg, cap, old(State()), e)
    {
      hide Good, Flush;
      if used == cap { FlushEvents(); }
      FlushEmpties(cfg, old(State()));
      events[used] := e;
      used := used + 1;
    }

    method AddIr(n: Inode)
      requires Valid() && GoodQueue(cfg, State().queue)
      modifies this`used, this`outs, events
      ensures Valid() && State() == Handle(cfg, cap, old(State()), Notify(IrEvent(cfg, n)))
    {
      if cfg.IsIrNoX(n.addr, n.len) { Enqueue(IrNoX(n)); } else { Enqueue(IrGen(n)); }
    }

    method AddDr(n: Inode, sz: nat, ea: Atom)
      requires Valid() && GoodQueue(cfg, State().queue)
      modifies this`used, this`outs, events
      ensures Valid() && State() == HandleAll(cfg, cap, old(State()), ReadAction(cfg, n, ea, sz))
    {
      if !cfg.cacheSim { return; }
      Enqueue(Dr(n, ea, sz));
    }

    method AddDw(n: Inode, sz: nat, ea: Atom)
      requires Valid() && GoodQueue(cfg, State().queue)
      modifies this`used, this`outs, events
      ensures Valid() && State() == HandleAll(cfg, cap, old(State()), WriteAction(cfg, n, ea, sz))
    {
      hide Good;
      if !cfg.cacheSim { return; }
      if used > 0 && events[used - 1].Dr? && events[used - 1].szB == sz
         && events[used - 1].inode == n && events[used - 1].ea == ea {
        events[used - 1] := Dm(n, ea, sz);
        return;
      }
      Enqueue(Dw(n, ea, sz));
    }

    method AddGuarded(isWrite: bool, n: Inode, sz: nat, ea: Atom, g: Atom)
      requires Valid() && GoodQueue(cfg, State().queue)
      modifies this`used, this`outs
      ensures Valid() && State() == HandleAll(cfg, cap, old(State()), GuardAction(cfg, isWrite, n, ea, sz, g))
    {
      if !cfg.cacheSim { return; }
      FlushEvents();
      outs := outs + [HelperIf(g, if isWrite then Log0Ir1Dw(n, ea, sz) else Log0Ir1Dr(n, ea, sz))];
    }

    /** One turn of the statement loop. */
    method Statement(n: Inode, st: Stmt)
      requires Valid() && StmtOk(cfg, st) && (st.IMark? ==> 1 <= n.len <= cfg.minLine)
      requires GoodQueue(cfg, State().queue) && (st.IMark? || EndsAt(State(), n))
      modifies this`used, this`outs, events
      ensures Valid() && Reachable(cfg, State(), n)
      ensures State() == HandleAll(cfg, cap, old(State()), Requests(cfg, n, st) + [Copy(st)])
    {
      hide Good, GoodQueue, Handle, ReadAction, WriteAction, GuardAction;
      ghost var p := State();
      ghost var acts := Requests(cfg, n, st);
      RequestsOk(cfg, n, st);
      AllReachable(cfg, cap, p, acts, n);
      Act(n, st);
      HandleAllConcat(cfg, cap, p, [], acts, [Copy(st)]);
      CopyOne(cfg, cap, State(), st);
      outs := outs + [Orig(st)];
    }

    method Act(n: Inode, st: Stmt)
      requires Valid() && StmtOk(cfg, st) && (st.IMark? ==> 1 <= n.len <= cfg.minLine)
      requires GoodQueue(cfg, State().queue) && (st.IMark? || EndsAt(State(), n))
      modifies this`used, this`outs, events
      ensures Valid() && State() == HandleAll(cfg, cap, old(State()), Requests(cfg, n, st))
    {
      hide Good, GoodQueue, Handle, ReadAction, WriteAction, GuardAction, ActionOk, IrEvent, Batch;
      ghost var p := State();
      RequestsOk(cfg, n, st);
      match st
      case NoEffect =>
      case IMark(_, _) => AddIr(n); HandleOne(cfg, cap, p, Notify(IrEvent(cfg, n)));
      case Load(sz, ea) => AddDr(n, sz, ea);
      case Store(sz, ea) => AddDw(n, sz, ea);
      case StoreG(sz, ea, g) => AddGuarded(true, n, sz, ea, g);
      case LoadG(sz, ea, g) => AddGuarded(false, n, sz, ea, g);
      case Dirty(fx, size, ea) => if !fx.FxNone? { DirtyAccess(n, fx, size, ea); }
      case Cas(size, ea) => DirtyAccess(n, FxModify, size, ea);
      case LoadLinked(sz, ea) => LinkedLoad(n, sz, ea);
      case StoreCond(sz, ea) => AddDw(n, sz, ea);
      case Exit(g, jk, dst) => SideExit(n, g, jk, dst);
    }

    /** A helper or compare-and-swap that reads, writes, or does both at one place. */
    method DirtyAccess(n: Inode, fx: Effect, size: nat, ea: Atom)
      requires Valid() && size >= 1 && GoodQueue(cfg, State().queue) && EndsAt(State(), n)
      modifies this`used, this`outs, events
      ensures Valid() && State() == HandleAll(cfg, cap, old(State()), Requests(cfg, n, Dirty(fx, size, ea)))
    {
      hide Good, GoodQueue, HandleAll, ReadAction, WriteAction, EndsAt;
      DirtyPlan(cfg, cap, State(), n, fx, size, ea);
      var dataSize := if size > cfg.minLine then cfg.minLine else size;
      if fx.FxRead? || fx.FxModify? { AddDr(n, dataSize, ea); }
      if fx.FxWrite? || fx.FxModify? { AddDw(n, dataSize, ea); }
    }

    method LinkedLoad(n: Inode, sz: nat, ea: Atom)
      requires Valid() && 1 <= sz <= cfg.minLine && GoodQueue(cfg, State().queue) && EndsAt(State(), n)
      modifies this`used, this`outs, events
      ensures Valid() && State() == HandleAll(cfg, cap, old(State()), ReadAction(cfg, n, ea, sz) + [FlushAll])
    {
      hide Good, GoodQueue, Handle, Batch;
      ghost var p := State();
      AddDr(n, sz, ea);
      if cfg.cacheSim { WriteGood(cfg, n, ea, sz); }
      AllReachable(cfg, cap, p, ReadAction(cfg, n, ea, sz), n);
      HandleAllConcat(cfg, cap, p, [], ReadAction(cfg, n, ea, sz), [FlushAll]);
      FlushOne(cfg, cap, State());
      FlushEvents();
    }

    method SideExit(n: Inode, g: Atom, jk: JumpKind, dst: nat)
      requires Valid() && GoodQueue(cfg, State().queue) && EndsAt(State(), n)
      modifies this`used, this`outs, events
      ensures Valid() && State() == HandleAll(cfg, cap, old(State()), Requests(cfg, n, Exit(g, jk, dst)))
    {
      hide GoodQueue, Handle, Batch;
      ghost var p := State();
      ghost var first := if cfg.branchSim && !jk.OtherJump? then [Notify(Bc(n, g, n.addr + n.len == dst))] else [];
      if !jk.OtherJump? {
        var inverted := n.addr + n.len == dst;
        AddBc(n, g, inverted);
      }
      AllReachable(cfg, cap, p, first, n);
      HandleAllConcat(cfg, cap, p, [], first, [FlushAll]);
      FlushOne(cfg, cap, State());
      FlushEvents();
    }

    method AddBc(n: Inode, g: Atom, inverted: bool)
      requires Valid() && GoodQueue(cfg, State().queue)
      modifies this`used, this`outs, events
      ensures Valid()
      ensures State() == HandleAll(cfg, cap, old(State()), if cfg.branchSim then [Notify(Bc(n, g, inverted))] else [])
    {
      if !cfg.branchSim { return; }
      Enqueue(Bc(n, g, inverted));
    }

    method AddBi(n: Inode, dst: Atom)
      requires Valid() && GoodQueue(cfg, State().queue)
      modifies this`used, this`outs, events
      ensures Valid()
      ensures State() == HandleAll(cfg, cap, old(State()), if cfg.branchSim then [Notify(Bi(n, dst))] else [])
    {
      if !cfg.branchSim { return; }
      Enqueue(Bi(n, dst));
    }
  }

  lemma FlushEmpties(cfg: Config, p: Pass)
    ensures Flush(cfg, p).queue == []
  {
  }

  lemma HandleOne(cfg: Config, cap: nat, p: Pass, a: Action)
    ensures HandleAll(cfg, cap, p, [a]) == Handle(cfg, cap, p, a)
  {
    assert [a][1..] == [];
  }

  lemma CopyOne(cfg: Config, cap: nat, p: Pass, st: Stmt)
    ensures HandleAll(cfg, cap, p, [Copy(st)]) == p.(outs := p.outs + [Orig(st)])
  {
    HandleOne(cfg, cap, p, Copy(st));
  }

  lemma FlushOne(cfg: Config, cap: nat, p: Pass)
    ensures HandleAll(cfg, cap, p, [FlushAll]) == Flush(cfg, p)
  {
    HandleOne(cfg, cap, p, FlushAll);
  }

  /** The two halves of an access that may read and write one place. */
  lemma DirtyPlan(cfg: Config, cap: nat, p: Pass, n: Inode, fx: Effect, size: nat, ea: Atom)
    requires cfg.Wf() && size >= 1 && GoodQueue(cfg, p.queue) && EndsAt(p, n)
    ensures var rs := if fx.FxRead? || fx.FxModify? then ReadAction(cfg, n, ea, Clip(cfg, size)) else [];
            var ws := if fx.FxWrite? || fx.FxModify? then WriteAction(cfg, n, ea, Clip(cfg, size)) else [];
            && GoodQueue(cfg, HandleAll(cfg, cap, p, rs).queue)
            && HandleAll(cfg, cap, p, Requests(cfg, n, Dirty(fx, size, ea))) ==
               HandleAll(cfg, cap, HandleAll(cfg, cap, p, rs), ws)
    ensures forall q :: HandleAll(cfg, cap, q, []) == q
  {
    hide Good, GoodQueue, Handle, Batch;
    var rs := if fx.FxRead? || fx.FxModify? then ReadAction(cfg, n, ea, Clip(cfg, size)) else [];
    var ws := if fx.FxWrite? || fx.FxModify? then WriteAction(cfg, n, ea, Clip(cfg, size)) else [];
    if cfg.cacheSim { WriteGood(cfg, n, ea, Clip(cfg, size)); }
    AllReachable(cfg, cap, p, rs, n);
    HandleAllConcat(cfg, cap, p, [], rs, ws);
  }

  lemma {:induction false} AllReachable(cfg: Config, cap: nat, p: Pass, acts: seq<Action>, n: Inode)
    requires cfg.Wf() && GoodQueue(cfg, p.queue) && forall i :: 0 <= i < |acts| ==> ActionOk(cfg, acts[i], n)
    requires EndsAt(p, n) || (acts != [] && acts[0].Notify? && acts[0].e.IsIr())
    ensures Reachable(cfg, HandleAll(cfg, cap, p, acts), n)
    decreases |acts|
  {
    hide GoodQueue, Handle;
    if acts != [] {
      HandleReachable(cfg, cap, p, acts[0], n);
      AllReachable(cfg, cap, Handle(cfg, cap, p, acts[0]), acts[1..], n);
    }
  }

  /** Number of instructions of a block: the number of records reserved for it. */
  function Marks(stmts: seq<Stmt>): nat
    decreases |stmts|
  {
    if stmts == [] then 0 else (if stmts[0].IMark? then 1 else 0) + Marks(stmts[1..])
  }

  /** cg_instrument.  It emits exactly the block that `BatchingPreservesMeaning` speaks of, and
      uses exactly the records reserved for it.  Whatever the state and the values of atoms, the
      emitted block simulates what the statements touch, and it keeps all of them in order. */
  method CgInstrument(cfg: Config, cap: nat, b: Block) returns (outs: seq<Out>, used: nat)
    requires cfg.Wf() && cap > 0 && BlockOk(cfg, b)
    ensures outs == Compile(cfg, cap, b)
    ensures used == Marks(b.body)
    ensures forall env: Env, s0: Sim | s0.Ok(cfg) :: BlockLaws.Simulates(cfg, env, s0, outs, b)
    ensures BlockLaws.Originals(outs) == b.preamble + b.body
  {
    hide Decode, Requests, Closing, Handle, GoodQueue, StmtOk, Copies;
    var cgs := new CgState(cfg, cap);
    ghost var p0 := cgs.State();
    CopyAll(cgs, b.preamble);
    ghost var p1 := cgs.State();
    EmptyGood(cfg);
    var c := Body(cgs, b.body);
    ghost var n := AdvanceAll(cfg, START, b.body).inode;
    ghost var decoded, closing := Decode(cfg, START, b.body), Closing(cfg, n, b);
    HandleAllConcat(cfg, cap, p0, [], Copies(b.preamble), decoded + closing);
    HandleAllConcat(cfg, cap, p1, [], decoded, closing);
    Close(cgs, c.inode, b);
    outs, used := cgs.outs, c.count;
    EmittedLaws(cfg, cap, b);
  }

  lemma EmittedLaws(cfg: Config, cap: nat, b: Block)
    requires cfg.Wf() && BlockOk(cfg, b)
    ensures forall env: Env, s0: Sim | s0.Ok(cfg) :: BlockLaws.Simulates(cfg, env, s0, Compile(cfg, cap, b), b)
    ensures BlockLaws.Originals(Compile(cfg, cap, b)) == b.preamble + b.body
  {
    hide Compile, BlockOk, BlockLaws.Simulates;
    forall env: Env, s0: Sim | s0.Ok(cfg) ensures BlockLaws.Simulates(cfg, env, s0, Compile(cfg, cap, b), b) {
      BlockLaws.EmittedSimulates(cfg, env, s0, cap, b);
    }
    BlockLaws.OriginalsKept(cfg, cap, b);
  }

  method CopyAll(cgs: CgState, stmts: seq<Stmt>)
    requires cgs.Valid() && cgs.State().queue == []
    modifies cgs`outs
    ensures cgs.Valid() && cgs.State() == HandleAll(cgs.cfg, cgs.cap, old(cgs.State()), Copies(stmts))
    ensures cgs.State().queue == []
  {
    ghost var p := cgs.State();
    var i := 0;
    while i < |stmts|
      invariant 0 <= i <= |stmts| && cgs.Valid() && cgs.State().queue == []
      invariant HandleAll(cgs.cfg, cgs.cap, cgs.State(), Copies(stmts)[i..]) == HandleAll(cgs.cfg, cgs.cap, p, Copies(stmts))
    {
      assert Copies(stmts)[i..][1..] == Copies(stmts)[i + 1..];
      cgs.outs := cgs.outs + [Orig(stmts[i])];
      i := i + 1;
    }
  }

  method Body(cgs: CgState, body: seq<Stmt>) returns (c: Cursor)
    requires cgs.Valid() && cgs.State().queue == [] && body != [] && body[0].IMark?
    requires forall i :: 0 <= i < |body| ==> StmtOk(cgs.cfg, body[i])
    modifies cgs`used, cgs`outs, cgs.events
    ensures cgs.Valid() && c == AdvanceAll(cgs.cfg, START, body) && Reachable(cgs.cfg, cgs.State(), c.inode)
    ensures cgs.State() == HandleAll(cgs.cfg, cgs.cap, old(cgs.State()), Decode(cgs.cfg, START, body))
    ensures c.count == Marks(body)
  {
    hide Requests, HandleAll, Decode, AdvanceAll, Marks, GoodQueue, StmtOk;
    EmptyGood(cgs.cfg);
    ghost var cfg, cap, p := cgs.cfg, cgs.cap, cgs.State();
    c := START;
    var i := 0;
    assert body[0..] == body;
    while i < |body|
      invariant 0 <= i <= |body| && cgs.Valid() && GoodQueue(cfg, cgs.State().queue)
      invariant i > 0 ==> EndsAt(cgs.State(), c.inode)
      invariant AdvanceAll(cfg, c, body[i..]) == AdvanceAll(cfg, START, body)
      invariant HandleAll(cfg, cap, cgs.State(), Decode(cfg, c, body[i..])) == HandleAll(cfg, cap, p, Decode(cfg, START, body))
      invariant c.count + Marks(body[i..]) == Marks(body)
    {
      BodyStep(cfg, cap, cgs.State(), c, body, i);
      if body[i].IMark? {
        MarkLength(cfg, body[i]);
        c := Cursor(NewInode(cgs.cfg, c.count, body[i].addr, body[i].len), c.count + 1);
      }
      cgs.Statement(c.inode, body[i]);
      i := i + 1;
    }
    BodyDone(cfg, cap, cgs.State(), c, body);
  }

  /** One turn of the statement loop, for everything that is said of the statements to come. */
  lemma BodyStep(cfg: Config, cap: nat, p: Pass, c: Cursor, body: seq<Stmt>, i: nat)
    requires cfg.Wf() && i < |body|
    ensures var d := Advance(cfg, c, body[i]);
            var acts := Requests(cfg, d.inode, body[i]) + [Copy(body[i])];
            && AdvanceAll(cfg, c, body[i..]) == AdvanceAll(cfg, d, body[i + 1..])
            && HandleAll(cfg, cap, p, Decode(cfg, c, body[i..])) ==
               HandleAll(cfg, cap, HandleAll(cfg, cap, p, acts), Decode(cfg, d, body[i + 1..]))
            && Marks(body[i..]) == (if body[i].IMark? then 1 else 0) + Marks(body[i + 1..])
  {
    hide Requests, HandleAll;
    var d := Advance(cfg, c, body[i]);
    assert body[i..][0] == body[i] && body[i..][1..] == body[i + 1..];
    HandleAllConcat(cfg, cap, p, [], Requests(cfg, d.inode, body[i]) + [Copy(body[i])], Decode(cfg, d, body[i + 1..]));
  }

  lemma BodyDone(cfg: Config, cap: nat, p: Pass, c: Cursor, body: seq<Stmt>)
    requires cfg.Wf()
    ensures AdvanceAll(cfg, c, body[|body|..]) == c && Marks(body[|body|..]) == 0
    ensures HandleAll(cfg, cap, p, Decode(cfg, c, body[|body|..])) == p
  {
  }

  lemma MarkLength(cfg: Config, st: Stmt)
    requires cfg.Wf() && StmtOk(cfg, st) && st.IMark?
    ensures forall k :: 1 <= NewInode(cfg, k, st.addr, st.len).len <= cfg.minLine
  {
  }

  method Close(cgs: CgState, n: Inode, b: Block)
    requires cgs.Valid() && Reachable(cgs.cfg, cgs.State(), n)
    modifies cgs`used, cgs`outs, cgs.events
    ensures cgs.Valid() && cgs.State() == HandleAll(cgs.cfg, cgs.cap, old(cgs.State()), Closing(cgs.cfg, n, b))
  {
    hide GoodQueue, Handle, Batch;
    ghost var p := cgs.State();
    ghost var first := if cgs.cfg.branchSim && (b.jk.Boring? || b.jk.CallJump?) && b.next.NextTmp?
                       then [Notify(Bi(n, b.next.dst))] else [];
    if b.jk.Boring? || b.jk.CallJump? {
      match b.next
      case NextConst =>
      case NextTmp(dst) => cgs.AddBi(n, dst);
    }
    AllReachable(cgs.cfg, cgs.cap, p, first, n);
    HandleAllConcat(cgs.cfg, cgs.cap, p, [], first, [FlushAll]);
    FlushOne(cgs.cfg, cgs.cap, cgs.State());
    cgs.FlushEvents();
  }
}
