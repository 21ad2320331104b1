/** What an instrumented block does, said of the block's own statements: which addresses each
statement makes the simulator see, and which counters of which lines it raises.  Nothing here
refers to the queue, its requests or the way they are batched. */
module BlockLaws {
  import opened Lru
  import opened CgSim
  import opened CgLaws
  import opened Instrument

  // ---------------------------------------------------------------- what the statements touch

  /** One thing the simulator is told about a line of source. */
  datatype Touch =
    | FetchAt(line: nat, addr: nat, len: nat)
    | ReadAt(line: nat, addr: nat, size: nat)
    | WriteAt(line: nat, addr: nat, size: nat)
    | BranchAt(line: nat, at: nat, taken: bool)
    | JumpAt(line: nat, at: nat, dst: nat)

  /** Some exit of these statements is taken. */
  predicate LeftIn(env: Env, stmts: seq<Stmt>) {
    exists i :: 0 <= i < |stmts| && stmts[i].Exit? && env(stmts[i].guard) != 0
  }

  /** Address and length of the latest instruction; a length of 0 stands for the shortest one. */
  function LatestMark(cfg: Config, stmts: seq<Stmt>): (nat, nat) {
    if stmts == [] then (0, 0)
    else
      var k := |stmts| - 1;
      if stmts[k].IMark? then (stmts[k].addr, if stmts[k].len == 0 then cfg.minInstr else stmts[k].len)
      else LatestMark(cfg, stmts[..k])
  }

  /** The read that a write to the same place would complete, if it came next: nothing else has
      been done since. */
  function OpenRead(cfg: Config, stmts: seq<Stmt>): Option<(Atom, nat)> {
    if stmts == [] then None else OpenAfter(cfg, OpenRead(cfg, stmts[..|stmts| - 1]), stmts[|stmts| - 1])
  }

  function OpenAfter(cfg: Config, open: Option<(Atom, nat)>, st: Stmt): Option<(Atom, nat)> {
    match st
    case NoEffect => open
    case Load(size, ea) => Some((ea, size))
    case Dirty(fx, size, ea) =>
      if fx.FxNone? then open
      else if fx.FxRead? then Some((ea, if size > cfg.minLine then cfg.minLine else size))
      else None
    case _ => None
  }

  /** What a statement touches after those before it.  A write that completes a read is not
      counted again; large accesses are cut to the shortest line. */
  function StmtTouches(cfg: Config, env: Env, before: seq<Stmt>, st: Stmt): seq<Touch> {
    var (at, len) := LatestMark(cfg, before);
    var line := cfg.lineOf(at);
    match st
    case NoEffect => []
    case IMark(addr, n) => [FetchAt(cfg.lineOf(addr), addr, if n == 0 then cfg.minInstr else n)]
    case Load(size, ea) => if cfg.cacheSim then [ReadAt(line, env(ea), size)] else []
    case Store(size, ea) =>
      if cfg.cacheSim && OpenRead(cfg, before) != Some((ea, size)) then [WriteAt(line, env(ea), size)] else []
    case StoreG(size, ea, g) => if cfg.cacheSim && env(g) != 0 then [WriteAt(line, env(ea), size)] else []
    case LoadG(size, ea, g) => if cfg.cacheSim && env(g) != 0 then [ReadAt(line, env(ea), size)] else []
    case Dirty(fx, size, ea) =>
      var z := if size > cfg.minLine then cfg.minLine else size;
      if !cfg.cacheSim || fx.FxNone? then []
      else if fx.FxRead? || fx.FxModify? then [ReadAt(line, env(ea), z)]
      else if OpenRead(cfg, before) != Some((ea, z)) then [WriteAt(line, env(ea), z)]
      else []
    case Cas(size, ea) =>
      if cfg.cacheSim then [ReadAt(line, env(ea), if size > cfg.minLine then cfg.minLine else size)] else []
    case LoadLinked(size, ea) => if cfg.cacheSim then [ReadAt(line, env(ea), size)] else []
    case StoreCond(size, ea) =>
      if cfg.cacheSim && OpenRead(cfg, before) != Some((ea, size)) then [WriteAt(line, env(ea), size)] else []
    case Exit(g, jk, dst) =>
      if cfg.branchSim && (jk.Boring? || jk.CallJump? || jk.Ret?)
      then [BranchAt(line, at, if dst == at + len then env(g) == 0 else env(g) != 0)] else []
  }

  /** What the statements touch, up to the first exit taken. */
  function Touches(cfg: Config, env: Env, stmts: seq<Stmt>): seq<Touch> {
    if stmts == [] then []
    else
      var k := |stmts| - 1;
      Touches(cfg, env, stmts[..k]) + if LeftIn(env, stmts[..k]) then [] else StmtTouches(cfg, env, stmts[..k], stmts[k])
  }

  /** What a block touches: nothing before its first instruction mark, and at its end an indirect
      jump or call that is not a return. */
  function BlockTouches(cfg: Config, env: Env, b: Block): seq<Touch> {
    if LeftIn(env, b.preamble) then []
    else
      Touches(cfg, env, b.body) +
      if LeftIn(env, b.body) || !cfg.branchSim || !(b.jk.Boring? || b.jk.CallJump?) || b.next.NextConst? then []
      else
        var at := LatestMark(cfg, b.body).0;
        [JumpAt(cfg.lineOf(at), at, env(b.next.dst))]
  }

  // ---------------------------------------------------------------- what a touch does

  /** One touch, by the laws of the helpers. */
  ghost predicate Performs(cfg: Config, s: Sim, t: Touch, r: Sim)
    requires s.Ok(cfg)
  {
    match t
    case FetchAt(line, a, len) =>
      if cfg.cacheSim then len > 0 && Fetched(s, line, BlocksOf(cfg.lineI1, a, len), BlocksOf(cfg.lineLL, a, len), r)
      else Counted(s, line, r)
    case ReadAt(line, a, size) => size > 0 && Accessed(s, line, false, a, size, r)
    case WriteAt(line, a, size) => size > 0 && Accessed(s, line, true, a, size, r)
    case BranchAt(line, at, taken) => Branched(cfg, s, line, at, taken, r)
    case JumpAt(line, at, dst) => Jumped(cfg, s, line, at, dst, r)
  }

  ghost predicate TouchOk(cfg: Config, t: Touch) {
    match t
    case FetchAt(_, _, len) => 1 <= len <= cfg.minLine
    case ReadAt(_, _, size) => 1 <= size <= cfg.minLine
    case WriteAt(_, _, size) => 1 <= size <= cfg.minLine
    case _ => true
  }

  /** The state after a touch. */
  ghost function After(cfg: Config, s: Sim, t: Touch): (r: Sim)
    requires s.Ok(cfg) && TouchOk(cfg, t)
    ensures r.Ok(cfg)
  {
    match t
    case FetchAt(line, a, len) =>
      if cfg.cacheSim then FetchGen(cfg, s, Inode(0, a, len, line)) else CountIr(cfg, s, Inode(0, a, len, line))
    case ReadAt(line, a, size) => ReadData(cfg, s, Inode(0, 0, 0, line), a, size)
    case WriteAt(line, a, size) => WriteData(cfg, s, Inode(0, 0, 0, line), a, size)
    case BranchAt(line, at, taken) => LogCond(cfg, s, Inode(0, at, 0, line), One(taken))
    case JumpAt(line, at, dst) => LogInd(cfg, s, Inode(0, at, 0, line), dst)
  }

  lemma AfterPerforms(cfg: Config, s: Sim, t: Touch)
    requires s.Ok(cfg) && TouchOk(cfg, t)
    ensures Performs(cfg, s, t, After(cfg, s, t))
  {
    hide Fetched, Counted, Accessed, FetchGen, CountIr, ReadData, WriteData, BlocksOf;
    match t
    case FetchAt(line, a, len) =>
      if cfg.cacheSim { FetchGenLaw(cfg, s, Inode(0, a, len, line)); } else { CountIrLaw(cfg, s, Inode(0, a, len, line)); }
    case ReadAt(line, a, size) => DataLaw(cfg, s, Inode(0, 0, 0, line), a, size);
    case WriteAt(line, a, size) => DataLaw(cfg, s, Inode(0, 0, 0, line), a, size);
    case BranchAt(line, at, taken) => CondLaw(cfg, s, Inode(0, at, 0, line), One(taken), false);
    case JumpAt(line, at, dst) => IndLaw(cfg, s, Inode(0, at, 0, line), dst);
  }

  ghost function AfterAll(cfg: Config, s: Sim, ts: seq<Touch>): (r: Sim)
    requires s.Ok(cfg) && forall i :: 0 <= i < |ts| ==> TouchOk(cfg, ts[i])
    ensures r.Ok(cfg)
  {
    if ts == [] then s else After(cfg, AfterAll(cfg, s, ts[..|ts| - 1]), ts[|ts| - 1])
  }

  lemma AfterSnoc(cfg: Config, s: Sim, ts: seq<Touch>, t: Touch)
    requires s.Ok(cfg) && TouchOk(cfg, t) && forall i :: 0 <= i < |ts| ==> TouchOk(cfg, ts[i])
    ensures forall i :: 0 <= i < |ts + [t]| ==> TouchOk(cfg, (ts + [t])[i])
    ensures AfterAll(cfg, s, ts + [t]) == After(cfg, AfterAll(cfg, s, ts), t)
  {
    hide After, TouchOk;
    assert (ts + [t])[..|ts|] == ts;
  }

  // ---------------------------------------------------------------- requests of the pass, one by one

  ghost function RunStatus(cfg: Config, env: Env, s0: Sim, items: seq<Item>): (r: Status)
    requires s0.Ok(cfg) && forall i | i in items :: ItemOk(cfg, i)
    ensures r.sim.Ok(cfg)
  {
    RunItems(cfg, env, Inside(s0), items)
  }

  /** What one request makes the reference do. */
  ghost function ActionTouches(env: Env, items: seq<Item>, a: Action): seq<Touch> {
    match a
    case Notify(e) =>
      (match e
       case IrNoX(n) => [FetchAt(n.line, n.addr, n.len)]
       case IrGen(n) => [FetchAt(n.line, n.addr, n.len)]
       case Dr(n, ea, sz) => [ReadAt(n.line, env(ea), sz)]
       case Dm(n, ea, sz) => [ReadAt(n.line, env(ea), sz)]
       case Dw(n, ea, sz) => [WriteAt(n.line, env(ea), sz)]
       case Bc(n, g, inverted) => [BranchAt(n.line, n.addr, (env(g) != 0) != inverted)]
       case Bi(n, dst) => [JumpAt(n.line, n.addr, env(dst))])
    case Write(n, ea, sz) =>
      if items != [] && items[|items| - 1] == Ev(Dr(n, ea, sz)) then [] else [WriteAt(n.line, env(ea), sz)]
    case Guard(w, n, ea, sz, g) =>
      if env(g) == 0 then [] else if w then [WriteAt(n.line, env(ea), sz)] else [ReadAt(n.line, env(ea), sz)]
    case FlushAll => []
    case Copy(_) => []
  }

  lemma DoIsAfter(cfg: Config, env: Env, s: Sim, e: Event)
    requires s.Ok(cfg) && Good(cfg, e)
    ensures var ts := ActionTouches(env, [], Notify(e));
            |ts| == 1 && TouchOk(cfg, ts[0]) && Do(cfg, env, s, e) == After(cfg, s, ts[0])
            && Good(cfg, Generic(e)) && Do(cfg, env, s, Generic(e)) == After(cfg, s, ts[0])
  {
    hide D1Ref, I1Gen;
  }

  /** The reference after one more request. */
  lemma RequestRuns(cfg: Config, env: Env, s0: Sim, items: seq<Item>, a: Action, n: Inode)
    requires s0.Ok(cfg) && (forall i | i in items :: ItemOk(cfg, i)) && ActionOk(cfg, a, n)
    ensures var ts := ActionTouches(env, items, a);
            && (forall i | i in Append(items, a) :: ItemOk(cfg, i))
            && |ts| <= 1 && (ts != [] ==> TouchOk(cfg, ts[0]))
            && RunStatus(cfg, env, s0, Append(items, a)) ==
               var y := RunStatus(cfg, env, s0, items);
               if y.Left? || ts == [] then y else Inside(After(cfg, y.sim, ts[0]))
  {
    hide RunItems, Do, After;
    var y := RunStatus(cfg, env, s0, items);
    match a
    case Notify(e) =>
      DoIsAfter(cfg, env, y.sim, e);
      RunItemsSnoc(cfg, env, Inside(s0), items, Ev(Generic(e)));
    case Write(m, ea, sz) =>
      if items != [] && items[|items| - 1] == Ev(Dr(m, ea, sz)) {
        JoinRuns(cfg, env, s0, items, m, ea, sz);
      } else {
        DoIsAfter(cfg, env, y.sim, Dw(m, ea, sz));
        RunItemsSnoc(cfg, env, Inside(s0), items, Ev(Dw(m, ea, sz)));
      }
    case Guard(w, m, ea, sz, g) =>
      DoIsAfter(cfg, env, y.sim, if w then Dw(m, ea, sz) else Dr(m, ea, sz));
      RunItemsSnoc(cfg, env, Inside(s0), items, Guarded(w, m, ea, sz, g));
    case FlushAll =>
      RunItemsSnoc(cfg, env, Inside(s0), items, Barrier);
  }

  lemma JoinRuns(cfg: Config, env: Env, s0: Sim, items: seq<Item>, n: Inode, ea: Atom, sz: nat)
    requires s0.Ok(cfg) && (forall i | i in items :: ItemOk(cfg, i))
    requires items != [] && items[|items| - 1] == Ev(Dr(n, ea, sz))
    ensures var joined := items[..|items| - 1] + [Ev(Dm(n, ea, sz))];
            (forall i | i in joined :: ItemOk(cfg, i)) &&
            RunStatus(cfg, env, s0, joined) == RunStatus(cfg, env, s0, items)
  {
    hide RunItems, ReadData;
    var rest := items[..|items| - 1];
    assert items == rest + [Ev(Dr(n, ea, sz))];
    assert items[|items| - 1] in items;
    RunItemsSnoc(cfg, env, Inside(s0), rest, Ev(Dr(n, ea, sz)));
    RunItemsSnoc(cfg, env, Inside(s0), rest, Ev(Dm(n, ea, sz)));
  }

  // ---------------------------------------------------------------- requests against statements

  /** The instruction record stands for the latest mark. */
  ghost predicate AtMark(cfg: Config, n: Inode, stmts: seq<Stmt>) {
    stmts != [] ==> (n.addr, n.len) == LatestMark(cfg, stmts) && n.line == cfg.lineOf(n.addr)
  }

  /** The last item is a read that may be completed exactly when the statements leave one open. */
  ghost predicate EndsOpen(cfg: Config, n: Inode, items: seq<Item>, stmts: seq<Stmt>) {
    forall ea: Atom, sz: nat ::
      OpenRead(cfg, stmts) == Some((ea, sz)) <==> items != [] && items[|items| - 1] == Ev(Dr(n, ea, sz))
  }

  ghost predicate AllOk(cfg: Config, ts: seq<Touch>) { forall i :: 0 <= i < |ts| ==> TouchOk(cfg, ts[i]) }

  /** The reference has done what the statements touch, unless the block was left before them. */
  ghost predicate Tied(cfg: Config, env: Env, s0: Sim, gone: bool, items: seq<Item>, n: Inode, stmts: seq<Stmt>) {
    && s0.Ok(cfg) && (forall i | i in items :: ItemOk(cfg, i)) && AllOk(cfg, Touches(cfg, env, stmts))
    && AtMark(cfg, n, stmts) && (cfg.cacheSim ==> EndsOpen(cfg, n, items, stmts))
    && RunStatus(cfg, env, s0, items) ==
       var s := if gone then s0 else AfterAll(cfg, s0, Touches(cfg, env, stmts));
       if gone || LeftIn(env, stmts) then Left(s) else Inside(s)
  }

  /** The record to use for a statement, by what stands before it. */
  ghost predicate RecordFor(cfg: Config, n: Inode, stmts: seq<Stmt>, st: Stmt) {
    (st.IMark? || stmts != []) && AtMark(cfg, n, if st.IMark? then stmts + [st] else stmts)
  }

  lemma MarkSnoc(cfg: Config, n: Inode, stmts: seq<Stmt>, st: Stmt)
    requires RecordFor(cfg, n, stmts, st)
    ensures AtMark(cfg, n, stmts + [st])
    ensures st.IMark? ==> n.addr == st.addr && n.len == (if st.len == 0 then cfg.minInstr else st.len)
  {
    assert (stmts + [st])[..|stmts|] == stmts;
  }

  predicate Follows(first: Action, second: Action) {
    second.FlushAll? || (second.Write? && first == Notify(Dr(second.n, second.ea, second.szB)))
  }

  /** The requests of a statement: the first does what the statement touches, a second one is a
      flush or completes a read. */
  lemma RequestShape(cfg: Config, env: Env, items: seq<Item>, n: Inode, stmts: seq<Stmt>, st: Stmt)
    requires cfg.Wf() && RecordFor(cfg, n, stmts, st)
    requires cfg.cacheSim && !st.IMark? ==> EndsOpen(cfg, n, items, stmts)
    ensures var acts := Requests(cfg, n, st);
            && |acts| <= 2
            && StmtTouches(cfg, env, stmts, st) == (if acts == [] then [] else ActionTouches(env, items, acts[0]))
            && (|acts| == 2 ==> Follows(acts[0], acts[1]))
  {
    hide OpenRead, LatestMark;
    MarkSnoc(cfg, n, stmts, st);
  }

  lemma ItemiseTwo(items: seq<Item>, a: Action, b: Action)
    ensures Itemise(items, [a, b]) == Append(Append(items, a), b)
  {
    hide Append;
    assert [a, b][1..] == [b] && [b][1..] == [];
    assert Itemise(Append(items, a), [b]) == Append(Append(items, a), b);
  }

  lemma ItemiseShort(items: seq<Item>, acts: seq<Action>, last: Action)
    requires |acts| <= 2
    ensures var i1 := if acts == [] then items else Append(items, acts[0]);
            var i2 := if |acts| == 2 then Append(i1, acts[1]) else i1;
            Itemise(items, acts + [last]) == Append(i2, last)
  {
    hide Append;
    if |acts| == 2 {
      assert (acts + [last])[1..] == [acts[1], last];
      ItemiseTwo(Append(items, acts[0]), acts[1], last);
    } else if |acts| == 1 {
      assert acts + [last] == [acts[0], last];
      ItemiseTwo(items, acts[0], last);
    } else {
      assert acts + [last] == [last] && [last][1..] == [];
    }
  }

  /** A statement's requests, run. */
  lemma RequestsRun(cfg: Config, env: Env, s0: Sim, items: seq<Item>, acts: seq<Action>, n: Inode)
    requires s0.Ok(cfg) && (forall i | i in items :: ItemOk(cfg, i))
    requires forall i :: 0 <= i < |acts| ==> ActionOk(cfg, acts[i], n)
    requires |acts| <= 2
    requires |acts| == 2 ==> Follows(acts[0], acts[1])
    ensures var ts := if acts == [] then [] else ActionTouches(env, items, acts[0]);
            var i1 := if acts == [] then items else Append(items, acts[0]);
            var i2 := if |acts| == 2 then Append(i1, acts[1]) else i1;
            && (forall i | i in i2 :: ItemOk(cfg, i)) && |ts| <= 1 && AllOk(cfg, ts)
            && RunStatus(cfg, env, s0, i2) ==
               var y := RunStatus(cfg, env, s0, items);
               if y.Left? || ts == [] then y else Inside(After(cfg, y.sim, ts[0]))
  {
    hide RunStatus, After, ItemOk, TouchOk, ActionOk;
    if acts != [] {
      RequestRuns(cfg, env, s0, items, acts[0], n);
      if |acts| == 2 { RequestRuns(cfg, env, s0, Append(items, acts[0]), acts[1], n); }
    }
  }

  lemma LeftSnoc(env: Env, stmts: seq<Stmt>, st: Stmt)
    ensures LeftIn(env, stmts + [st]) <==> LeftIn(env, stmts) || (st.Exit? && env(st.guard) != 0)
  {
    var all := stmts + [st];
    assert all[|stmts|] == st;
    assert forall i :: 0 <= i < |stmts| ==> all[i] == stmts[i];
  }

  /** The end of the items after a statement. */
  lemma EndSnoc(cfg: Config, items: seq<Item>, n: Inode, stmts: seq<Stmt>, st: Stmt)
    requires cfg.Wf() && cfg.cacheSim && StmtOk(cfg, st) && (!st.IMark? ==> EndsOpen(cfg, n, items, stmts))
    ensures EndsOpen(cfg, n, Itemise(items, Requests(cfg, n, st) + [Copy(st)]), stmts + [st])
  {
    hide OpenRead;
    var acts := Requests(cfg, n, st);
    OpenSnoc(cfg, stmts, st);
    ItemiseShort(items, acts, Copy(st));
  }

  lemma OpenSnoc(cfg: Config, stmts: seq<Stmt>, st: Stmt)
    ensures OpenRead(cfg, stmts + [st]) == OpenAfter(cfg, OpenRead(cfg, stmts), st)
  {
    assert (stmts + [st])[..|stmts|] == stmts;
  }

  lemma TouchesSnoc(cfg: Config, env: Env, stmts: seq<Stmt>, st: Stmt)
    ensures Touches(cfg, env, stmts + [st]) ==
            Touches(cfg, env, stmts) + if LeftIn(env, stmts) then [] else StmtTouches(cfg, env, stmts, st)
  {
    hide StmtTouches, LeftIn;
    assert (stmts + [st])[..|stmts|] == stmts;
  }

  /** One statement keeps the reference and the touches together. */
  lemma StmtTied(cfg: Config, env: Env, s0: Sim, gone: bool, items: seq<Item>, n: Inode, stmts: seq<Stmt>, m: Inode, st: Stmt)
    requires Tied(cfg, env, s0, gone, items, n, stmts) && StmtOk(cfg, st) && RecordFor(cfg, m, stmts, st)
    requires (!st.IMark? ==> m == n) && (st.IMark? ==> 1 <= m.len <= cfg.minLine)
    ensures Tied(cfg, env, s0, gone, Itemise(items, Requests(cfg, m, st) + [Copy(st)]), m, stmts + [st])
  {
    hide LeftIn, Touches, StmtTouches, OpenRead, LatestMark, RunStatus, AfterAll, After, ActionTouches, Requests, ItemOk;
    hide TouchOk, EndsOpen, StmtOk, Itemise;
    var acts := Requests(cfg, m, st);
    RequestShape(cfg, env, items, m, stmts, st);
    RequestsOk(cfg, m, st);
    RequestsRun(cfg, env, s0, items, acts, m);
    ItemiseShort(items, acts, Copy(st));
    MarkSnoc(cfg, m, stmts, st);
    LeftSnoc(env, stmts, st);
    TouchesSnoc(cfg, env, stmts, st);
    if cfg.cacheSim { EndSnoc(cfg, items, m, stmts, st); }
    var s, ts, more := AfterAll(cfg, s0, Touches(cfg, env, stmts)), Touches(cfg, env, stmts), StmtTouches(cfg, env, stmts, st);
    assert ts + [] == ts;
    if more != [] {
      assert more == [more[0]];
      AfterSnoc(cfg, s0, ts, more[0]);
    }
    var i1 := if acts == [] then items else Append(items, acts[0]);
    var i2 := if |acts| == 2 then Append(i1, acts[1]) else i1;
    CopyRuns(cfg, env, s0, i2, st);
  }

  lemma CopyRuns(cfg: Config, env: Env, s0: Sim, items: seq<Item>, st: Stmt)
    requires s0.Ok(cfg) && forall i | i in items :: ItemOk(cfg, i)
    ensures forall i | i in Append(items, Copy(st)) :: ItemOk(cfg, i)
    ensures RunStatus(cfg, env, s0, Append(items, Copy(st))) ==
            var y := RunStatus(cfg, env, s0, items);
            if y.Inside? && st.Exit? && env(st.guard) != 0 then Left(y.sim) else y
  {
    if st.Exit? { RunItemsSnoc(cfg, env, Inside(s0), items, MayLeave(st.guard)); }
  }

  // ---------------------------------------------------------------- whole blocks

  lemma {:induction false} StmtsTied(cfg: Config, env: Env, s0: Sim, gone: bool, items: seq<Item>, c: Cursor,
                                     before: seq<Stmt>, stmts: seq<Stmt>)
    requires cfg.Wf() && Tied(cfg, env, s0, gone, items, c.inode, before)
    requires forall i :: 0 <= i < |stmts| ==> StmtOk(cfg, stmts[i])
    requires before == [] && stmts != [] ==> stmts[0].IMark?
    ensures Tied(cfg, env, s0, gone, Itemise(items, Decode(cfg, c, stmts)), AdvanceAll(cfg, c, stmts).inode, before + stmts)
    decreases |stmts|
  {
    hide Tied, Append, Requests, StmtOk;
    if stmts == [] {
      assert before + stmts == before;
    } else {
      var st, d := stmts[0], Advance(cfg, c, stmts[0]);
      var acts, rest := Requests(cfg, d.inode, st) + [Copy(st)], Decode(cfg, d, stmts[1..]);
      RightRecord(cfg, env, s0, gone, items, c, before, st);
      StmtTied(cfg, env, s0, gone, items, c.inode, before, d.inode, st);
      assert Decode(cfg, c, stmts) == acts + rest;
      HandleAllConcat(cfg, 0, Pass([], []), items, acts, rest);
      StmtsTied(cfg, env, s0, gone, Itemise(items, acts), d, before + [st], stmts[1..]);
      assert before + [st] + stmts[1..] == before + stmts;
    }
  }

  lemma RightRecord(cfg: Config, env: Env, s0: Sim, gone: bool, items: seq<Item>, c: Cursor, before: seq<Stmt>, st: Stmt)
    requires Tied(cfg, env, s0, gone, items, c.inode, before) && StmtOk(cfg, st) && (before == [] ==> st.IMark?)
    ensures var d := Advance(cfg, c, st);
            && RecordFor(cfg, d.inode, before, st) && cfg.Wf()
            && (st.IMark? ==> 1 <= d.inode.len <= cfg.minLine) && (!st.IMark? ==> d == c)
  {
    hide RunStatus, AfterAll;
    assert (before + [st])[..|before|] == before;
  }

  /** Before the first mark only exits matter. */
  lemma {:induction false} PreambleRuns(cfg: Config, env: Env, s0: Sim, items: seq<Item>, stmts: seq<Stmt>)
    requires s0.Ok(cfg) && (forall i | i in items :: ItemOk(cfg, i)) && (items == [] || !items[|items| - 1].Ev?)
    ensures var r := Itemise(items, Copies(stmts));
            && (forall i | i in r :: ItemOk(cfg, i)) && (r == [] || !r[|r| - 1].Ev?)
            && RunStatus(cfg, env, s0, r) ==
               var y := RunStatus(cfg, env, s0, items);
               if y.Inside? && LeftIn(env, stmts) then Left(y.sim) else y
    decreases |stmts|
  {
    hide RunStatus, ItemOk;
    if stmts != [] {
      CopyRuns(cfg, env, s0, items, stmts[0]);
      assert Copies(stmts)[1..] == Copies(stmts[1..]);
      PreambleRuns(cfg, env, s0, Append(items, Copy(stmts[0])), stmts[1..]);
      LeftCons(env, stmts);
    }
  }

  lemma LeftCons(env: Env, stmts: seq<Stmt>)
    requires stmts != []
    ensures LeftIn(env, stmts) <==> (stmts[0].Exit? && env(stmts[0].guard) != 0) || LeftIn(env, stmts[1..])
  {
    assert forall i :: 0 <= i < |stmts| - 1 ==> stmts[1..][i] == stmts[i + 1];
    if LeftIn(env, stmts) {
      var i :| 0 <= i < |stmts| && stmts[i].Exit? && env(stmts[i].guard) != 0;
      if i > 0 { assert stmts[1..][i - 1] == stmts[i]; }
    }
  }

  /** The reference does what the block touches. */
  lemma ReferenceTouches(cfg: Config, env: Env, s0: Sim, b: Block)
    requires s0.Ok(cfg) && BlockOk(cfg, b)
    ensures (forall i | i in Reference(cfg, b) :: ItemOk(cfg, i)) && AllOk(cfg, BlockTouches(cfg, env, b))
    ensures var r := RunStatus(cfg, env, s0, Reference(cfg, b));
            && r.sim == AfterAll(cfg, s0, BlockTouches(cfg, env, b))
            && (r.Left? <==> LeftIn(env, b.preamble) || LeftIn(env, b.body))
  {
    hide LeftIn, Decode, Touches, RunStatus, ItemOk, TouchOk, After;
    var n, gone := AdvanceAll(cfg, START, b.body).inode, LeftIn(env, b.preamble);
    var decoded, closing := Decode(cfg, START, b.body), Closing(cfg, n, b);
    var i1 := Itemise([], Copies(b.preamble));
    var i2 := Itemise(i1, decoded);
    StartTied(cfg, env, s0, b.preamble);
    StmtsTied(cfg, env, s0, gone, i1, START, [], b.body);
    assert [] + b.body == b.body;
    HandleAllConcat(cfg, 0, Pass([], []), [], Copies(b.preamble), decoded + closing);
    HandleAllConcat(cfg, 0, Pass([], []), i1, decoded, closing);
    ClosingTied(cfg, env, s0, gone, i2, n, b);
  }

  lemma StartTied(cfg: Config, env: Env, s0: Sim, preamble: seq<Stmt>)
    requires s0.Ok(cfg)
    ensures Tied(cfg, env, s0, LeftIn(env, preamble), Itemise([], Copies(preamble)), START.inode, [])
  {
    hide LeftIn, Copies, Itemise;
    PreambleRuns(cfg, env, s0, [], preamble);
    assert !LeftIn(env, []) by { NoneLeft(env); }
  }

  lemma NoneLeft(env: Env)
    ensures !LeftIn(env, [])
  {
  }

  lemma ClosingTied(cfg: Config, env: Env, s0: Sim, gone: bool, items: seq<Item>, n: Inode, b: Block)
    requires Tied(cfg, env, s0, gone, items, n, b.body) && b.body != [] && gone == LeftIn(env, b.preamble)
    ensures var r := Itemise(items, Closing(cfg, n, b));
            && (forall i | i in r :: ItemOk(cfg, i)) && AllOk(cfg, BlockTouches(cfg, env, b))
            && RunStatus(cfg, env, s0, r).sim == AfterAll(cfg, s0, BlockTouches(cfg, env, b))
            && (RunStatus(cfg, env, s0, r).Left? <==> gone || LeftIn(env, b.body))
  {
    hide LeftIn, Touches, RunStatus, ItemOk, After, AfterAll, EndsOpen, LatestMark, Itemise, Closing;
    ClosingRuns(cfg, env, s0, items, n, b);
    var ts := Touches(cfg, env, b.body);
    assert ts + [] == ts;
    if HasJump(cfg, b) && !gone { AfterSnoc(cfg, s0, ts, JumpAt(n.line, n.addr, env(b.next.dst))); }
    assert gone ==> AfterAll(cfg, s0, []) == s0 by { NothingTouched(cfg, s0); }
  }

  lemma NothingTouched(cfg: Config, s0: Sim)
    requires s0.Ok(cfg)
    ensures AfterAll(cfg, s0, []) == s0
  {
  }

  predicate HasJump(cfg: Config, b: Block) { cfg.branchSim && (b.jk.Boring? || b.jk.CallJump?) && b.next.NextTmp? }

  lemma ClosingRuns(cfg: Config, env: Env, s0: Sim, items: seq<Item>, n: Inode, b: Block)
    requires s0.Ok(cfg) && forall i | i in items :: ItemOk(cfg, i)
    ensures var r := Itemise(items, Closing(cfg, n, b));
            && (forall i | i in r :: ItemOk(cfg, i))
            && RunStatus(cfg, env, s0, r) ==
               var y := RunStatus(cfg, env, s0, items);
               if y.Left? || !HasJump(cfg, b) then y else Inside(After(cfg, y.sim, JumpAt(n.line, n.addr, env(b.next.dst))))
  {
    hide RunStatus, ItemOk, After, Append;
    var acts := Closing(cfg, n, b);
    RequestsRun(cfg, env, s0, items, acts, n);
    if HasJump(cfg, b) {
      assert acts == [acts[0], FlushAll];
      ItemiseTwo(items, acts[0], FlushAll);
    } else {
      assert acts[1..] == [];
    }
  }

  // ---------------------------------------------------------------- states, counters and caches

  /** The states a run goes through, one touch at a time. */
  ghost predicate IsTrail(cfg: Config, s0: Sim, ts: seq<Touch>, trail: seq<Sim>, r: Sim) {
    && |trail| == |ts| + 1 && trail[0] == s0 && trail[|ts|] == r
    && forall i :: 0 <= i < |ts| ==> trail[i].Ok(cfg) && Performs(cfg, trail[i], ts[i], trail[i + 1])
  }

  lemma {:induction false} MakeTrail(cfg: Config, s0: Sim, ts: seq<Touch>) returns (trail: seq<Sim>)
    requires s0.Ok(cfg) && AllOk(cfg, ts)
    ensures IsTrail(cfg, s0, ts, trail, AfterAll(cfg, s0, ts))
    decreases |ts|
  {
    hide Performs, TouchOk, After;
    if ts == [] {
      trail := [s0];
    } else {
      var k := |ts| - 1;
      var before := MakeTrail(cfg, s0, ts[..k]);
      trail := before + [AfterAll(cfg, s0, ts)];
      AfterPerforms(cfg, AfterAll(cfg, s0, ts[..k]), ts[k]);
      forall i | 0 <= i < |ts| ensures trail[i].Ok(cfg) && Performs(cfg, trail[i], ts[i], trail[i + 1]) {
        assert i < k ==> trail[i] == before[i] && trail[i + 1] == before[i + 1] && ts[..k][i] == ts[i];
      }
    }
  }

  datatype Kind = Fetch | Read | Write | Branch | Jump

  function KindOf(t: Touch): Kind {
    match t
    case FetchAt(_, _, _) => Fetch
    case ReadAt(_, _, _) => Read
    case WriteAt(_, _, _) => Kind.Write
    case BranchAt(_, _, _) => Branch
    case JumpAt(_, _, _) => Jump
  }

  /** How many touches of a kind a line gets. */
  function Times(ts: seq<Touch>, kind: Kind, line: nat): nat {
    if ts == [] then 0
    else Times(ts[..|ts| - 1], kind, line) + if KindOf(ts[|ts| - 1]) == kind && ts[|ts| - 1].line == line then 1 else 0
  }

  /** The references to the data cache, or to the instruction cache, in order. */
  function Refs(ts: seq<Touch>, data: bool): seq<Access> {
    if ts == [] then []
    else
      var t := ts[|ts| - 1];
      Refs(ts[..|ts| - 1], data) +
      if data && (t.ReadAt? || t.WriteAt?) then [Access(t.addr, t.size)]
      else if !data && t.FetchAt? then [Access(t.addr, t.len)]
      else []
  }

  /** Every access counter of the line rose by what the line was touched. */
  ghost predicate Rose(ts: seq<Touch>, line: nat, before: LineCC, after: LineCC) {
    && after.ir.a == before.ir.a + Times(ts, Fetch, line)
    && after.dr.a == before.dr.a + Times(ts, Read, line)
    && after.dw.a == before.dw.a + Times(ts, Kind.Write, line)
    && after.bc.b == before.bc.b + Times(ts, Branch, line)
    && after.bi.b == before.bi.b + Times(ts, Jump, line)
  }

  lemma OneRose(cfg: Config, s: Sim, t: Touch, r: Sim, line: nat)
    requires s.Ok(cfg) && Performs(cfg, s, t, r)
    ensures var a, b := s.Line(line), r.Line(line);
            var k, here := KindOf(t), t.line == line;
            && b.ir.a == a.ir.a + One(k == Fetch && here) && b.dr.a == a.dr.a + One(k == Read && here)
            && b.dw.a == a.dw.a + One(k == Kind.Write && here) && b.bc.b == a.bc.b + One(k == Branch && here)
            && b.bi.b == a.bi.b + One(k == Jump && here)
  {
    hide AnyMissing, Loads, BlocksOf, Sim.Line;
    if t.line != line { assert r.Line(line) == s.Line(line); }
  }

  lemma {:induction false} TrailRose(cfg: Config, s0: Sim, ts: seq<Touch>, trail: seq<Sim>, r: Sim, line: nat)
    requires IsTrail(cfg, s0, ts, trail, r)
    ensures Rose(ts, line, s0.Line(line), r.Line(line))
    decreases |ts|
  {
    hide Performs, KindOf, Sim.Line;
    if ts != [] {
      var k := |ts| - 1;
      TrailRose(cfg, s0, ts[..k], trail[..k + 1], trail[k], line);
      OneRose(cfg, trail[k], ts[k], r, line);
    }
  }

  ghost predicate RefsFit(cfg: Config, refs: seq<Access>) {
    forall i :: 0 <= i < |refs| ==> 1 <= refs[i].size <= cfg.minLine
  }

  lemma {:induction false} RefsOk(cfg: Config, ts: seq<Touch>, data: bool)
    requires AllOk(cfg, ts)
    ensures RefsFit(cfg, Refs(ts, data))
    decreases |ts|
  {
    if ts != [] { RefsOk(cfg, ts[..|ts| - 1], data); }
  }

  /** The first-level caches have seen exactly these references. */
  ghost predicate Saw(cfg: Config, s0: Sim, ts: seq<Touch>, r: Sim)
    requires s0.Ok(cfg) && RefsFit(cfg, Refs(ts, true)) && RefsFit(cfg, Refs(ts, false))
  {
    r.D1 == Run(s0.D1, Refs(ts, true)).0 && r.I1 == if cfg.cacheSim then Run(s0.I1, Refs(ts, false)).0 else s0.I1
  }

  lemma OneSaw(cfg: Config, s: Sim, t: Touch, r: Sim)
    requires s.Ok(cfg) && TouchOk(cfg, t) && Performs(cfg, s, t, r)
    ensures r.D1 == if t.ReadAt? || t.WriteAt? then s.D1.Ref(t.addr, t.size).0 else s.D1
    ensures r.I1 == if t.FetchAt? && cfg.cacheSim then s.I1.Ref(t.addr, t.len).0 else s.I1
  {
    hide AnyMissing, Loads, BlocksOf, Sim.Line, Cache.Ref;
    match t
    case FetchAt(_, a, len) => RefLaw(s.I1, a, len);
    case ReadAt(_, a, size) => RefLaw(s.D1, a, size);
    case WriteAt(_, a, size) => RefLaw(s.D1, a, size);
    case _ =>
  }

  lemma RunSnoc(c: Cache, refs: seq<Access>, m: Access)
    requires c.Wf() && 1 <= m.size <= c.lineSize && forall i :: 0 <= i < |refs| ==> 1 <= refs[i].size <= c.lineSize
    ensures Run(c, refs + [m]).0 == Run(c, refs).0.Ref(m.addr, m.size).0
  {
    hide Cache.Ref;
    assert (refs + [m])[..|refs|] == refs;
  }

  lemma {:induction false} TrailSaw(cfg: Config, s0: Sim, ts: seq<Touch>, trail: seq<Sim>, r: Sim)
    requires IsTrail(cfg, s0, ts, trail, r) && s0.Ok(cfg) && AllOk(cfg, ts)
    ensures RefsFit(cfg, Refs(ts, true)) && RefsFit(cfg, Refs(ts, false)) && Saw(cfg, s0, ts, r)
    decreases |ts|
  {
    hide Performs, Cache.Ref, Run, RefsFit;
    RefsOk(cfg, ts, true);
    RefsOk(cfg, ts, false);
    if ts == [] {
      NothingSeen(s0.D1);
      NothingSeen(s0.I1);
    } else {
      var k, t := |ts| - 1, ts[|ts| - 1];
      TrailSaw(cfg, s0, ts[..k], trail[..k + 1], trail[k]);
      OneSaw(cfg, trail[k], t, r);
      SeenSnoc(cfg, s0, ts);
    }
  }

  lemma NothingSeen(c: Cache)
    requires c.Wf()
    ensures Run(c, []).0 == c
  {
  }

  lemma SeenSnoc(cfg: Config, s0: Sim, ts: seq<Touch>)
    requires s0.Ok(cfg) && AllOk(cfg, ts) && ts != []
    requires RefsFit(cfg, Refs(ts, true)) && RefsFit(cfg, Refs(ts, false))
    requires RefsFit(cfg, Refs(ts[..|ts| - 1], true)) && RefsFit(cfg, Refs(ts[..|ts| - 1], false))
    ensures var t, before := ts[|ts| - 1], ts[..|ts| - 1];
            var d, i := Run(s0.D1, Refs(before, true)).0, Run(s0.I1, Refs(before, false)).0;
            && Run(s0.D1, Refs(ts, true)).0 == (if t.ReadAt? || t.WriteAt? then d.Ref(t.addr, t.size).0 else d)
            && Run(s0.I1, Refs(ts, false)).0 == (if t.FetchAt? then i.Ref(t.addr, t.len).0 else i)
  {
    hide Cache.Ref, Run, Refs, TouchOk;
    var t, before := ts[|ts| - 1], ts[..|ts| - 1];
    assert TouchOk(cfg, t);
    TouchFits(cfg, t);
    RefsLast(ts);
    if t.ReadAt? || t.WriteAt? { RunSnoc(s0.D1, Refs(before, true), Access(t.addr, t.size)); }
    if t.FetchAt? { RunSnoc(s0.I1, Refs(before, false), Access(t.addr, t.len)); }
  }

  lemma TouchFits(cfg: Config, t: Touch)
    requires cfg.Wf() && TouchOk(cfg, t)
    ensures t.ReadAt? || t.WriteAt? ==> 1 <= t.size <= cfg.minLine <= cfg.lineD1
    ensures t.FetchAt? ==> 1 <= t.len <= cfg.minLine <= cfg.lineI1
  {
  }

  lemma RefsLast(ts: seq<Touch>)
    requires ts != []
    ensures var t, before := ts[|ts| - 1], ts[..|ts| - 1];
            && Refs(ts, true) == (if t.ReadAt? || t.WriteAt? then Refs(before, true) + [Access(t.addr, t.size)] else Refs(before, true))
            && Refs(ts, false) == (if t.FetchAt? then Refs(before, false) + [Access(t.addr, t.len)] else Refs(before, false))
  {
    var before := ts[..|ts| - 1];
    assert Refs(before, true) + [] == Refs(before, true) && Refs(before, false) + [] == Refs(before, false);
  }

  // ---------------------------------------------------------------- the emitted block

  /** The guest's own statements in an instrumented block. */
  function Originals(outs: seq<Out>): seq<Stmt> {
    if outs == [] then []
    else Originals(outs[..|outs| - 1]) + if outs[|outs| - 1].Orig? then [outs[|outs| - 1].st] else []
  }

  /** What instrumented code for a block has to do, from any state and for any values of its atoms:
      it can be run, is left by a side exit exactly when the block is, takes the simulator through
      the touches of the block one by one, and so raises each counter of each line by the number of
      its touches and shows the caches their addresses. */
  ghost predicate Simulates(cfg: Config, env: Env, s0: Sim, outs: seq<Out>, b: Block)
    requires s0.Ok(cfg)
  {
    && (forall o | o in outs :: OutOk(cfg, o))
    && var r, ts := RunOuts(cfg, env, Inside(s0), outs), BlockTouches(cfg, env, b);
    && (r.Left? <==> LeftIn(env, b.preamble) || LeftIn(env, b.body))
    && (exists trail :: IsTrail(cfg, s0, ts, trail, r.sim))
    && (forall line: nat :: Rose(ts, line, s0.Line(line), r.sim.Line(line)))
    && RefsFit(cfg, Refs(ts, true)) && RefsFit(cfg, Refs(ts, false)) && Saw(cfg, s0, ts, r.sim)
  }

  /** The pass's output does that, for every queue capacity. */
  lemma EmittedSimulates(cfg: Config, env: Env, s0: Sim, cap: nat, b: Block)
    requires s0.Ok(cfg) && BlockOk(cfg, b)
    ensures Simulates(cfg, env, s0, Compile(cfg, cap, b), b)
  {
    hide BlockTouches, LeftIn, Compile, Reference, RunOuts, BlockOk, OutOk, ItemOk, IsTrail, Rose, Saw, RefsFit, AfterAll, TouchOk;
    BatchingPreservesMeaning(cfg, env, s0, cap, b);
    ReferenceTouches(cfg, env, s0, b);
    var ts := BlockTouches(cfg, env, b);
    var r := AfterAll(cfg, s0, ts);
    var trail := MakeTrail(cfg, s0, ts);
    forall line: nat ensures Rose(ts, line, s0.Line(line), r.Line(line)) { TrailRose(cfg, s0, ts, trail, r, line); }
    TrailSaw(cfg, s0, ts, trail, r);
  }

  lemma {:induction false} OriginalsConcat(a: seq<Out>, b: seq<Out>)
    ensures Originals(a + b) == Originals(a) + Originals(b)
    decreases |b|
  {
    if b == [] {
      assert a + b == a;
    } else {
      assert (a + b)[..|a| + |b| - 1] == a + b[..|b| - 1];
      OriginalsConcat(a, b[..|b| - 1]);
    }
  }

  lemma {:induction false} HelpersAdded(calls: seq<Call>)
    ensures Originals(Helpers(calls)) == []
    decreases |calls|
  {
    if calls != [] {
      var k := |calls| - 1;
      assert Helpers(calls)[..k] == Helpers(calls[..k]);
      HelpersAdded(calls[..k]);
    }
  }

  /** The statements copied by a list of requests. */
  function Copied(acts: seq<Action>): seq<Stmt>
    decreases |acts|
  {
    if acts == [] then [] else (if acts[0].Copy? then [acts[0].st] else []) + Copied(acts[1..])
  }

  lemma HandleOriginals(cfg: Config, cap: nat, p: Pass, a: Action)
    ensures Originals(Handle(cfg, cap, p, a).outs) == Originals(p.outs) + if a.Copy? then [a.st] else []
  {
    hide Batch, Originals;
    FlushOriginals(cfg, p);
    match a
    case Copy(st) => OneOriginal(p.outs, Orig(st));
    case Guard(w, n, ea, sz, g) =>
      OneOriginal(Flush(cfg, p).outs, HelperIf(g, if w then Log0Ir1Dw(n, ea, sz) else Log0Ir1Dr(n, ea, sz)));
    case _ =>
  }

  lemma OneOriginal(outs: seq<Out>, o: Out)
    ensures Originals(outs + [o]) == Originals(outs) + if o.Orig? then [o.st] else []
  {
    assert (outs + [o])[..|outs|] == outs;
  }

  lemma FlushOriginals(cfg: Config, p: Pass)
    ensures Originals(Flush(cfg, p).outs) == Originals(p.outs)
  {
    hide Batch;
    OriginalsConcat(p.outs, Helpers(Batch(cfg, p.queue)));
    HelpersAdded(Batch(cfg, p.queue));
  }

  lemma {:induction false} HandleAllOriginals(cfg: Config, cap: nat, p: Pass, acts: seq<Action>)
    ensures Originals(HandleAll(cfg, cap, p, acts).outs) == Originals(p.outs) + Copied(acts)
    decreases |acts|
  {
    hide Handle, Originals;
    if acts != [] {
      HandleOriginals(cfg, cap, p, acts[0]);
      HandleAllOriginals(cfg, cap, Handle(cfg, cap, p, acts[0]), acts[1..]);
    }
  }

  lemma {:induction false} CopiedConcat(a: seq<Action>, b: seq<Action>)
    ensures Copied(a + b) == Copied(a) + Copied(b)
    decreases |a|
  {
    hide Copied;
    if a == [] {
      assert a + b == b;
      NothingCopied();
    } else {
      assert (a + b)[1..] == a[1..] + b;
      CopiedFirst(a);
      CopiedFirst(a + b);
      CopiedConcat(a[1..], b);
    }
  }

  lemma CopiedFirst(acts: seq<Action>)
    requires acts != []
    ensures Copied(acts) == (if acts[0].Copy? then [acts[0].st] else []) + Copied(acts[1..])
  {
  }

  lemma {:induction false} DecodeCopies(cfg: Config, c: Cursor, stmts: seq<Stmt>)
    requires cfg.Wf()
    ensures Copied(Decode(cfg, c, stmts)) == stmts
    decreases |stmts|
  {
    hide Requests, Copied;
    if stmts != [] {
      var d := Advance(cfg, c, stmts[0]);
      RequestsCopy(cfg, d.inode, stmts[0]);
      CopiedConcat(Requests(cfg, d.inode, stmts[0]) + [Copy(stmts[0])], Decode(cfg, d, stmts[1..]));
      DecodeCopies(cfg, d, stmts[1..]);
      assert [stmts[0]] + stmts[1..] == stmts;
    } else {
      assert Copied([]) == [] by { NothingCopied(); }
    }
  }

  lemma NothingCopied()
    ensures Copied([]) == []
  {
  }

  lemma RequestsCopy(cfg: Config, n: Inode, st: Stmt)
    requires cfg.Wf()
    ensures Copied(Requests(cfg, n, st) + [Copy(st)]) == [st]
  {
    hide IrEvent, Copied;
    var acts := Requests(cfg, n, st);
    CopiedShort(acts);
    CopiedShort([Copy(st)]);
    CopiedConcat(acts, [Copy(st)]);
  }

  lemma CopiedShort(acts: seq<Action>)
    requires |acts| <= 2
    ensures Copied(acts) == (if |acts| > 0 && acts[0].Copy? then [acts[0].st] else []) +
                            (if |acts| > 1 && acts[1].Copy? then [acts[1].st] else [])
  {
    if |acts| == 2 {
      assert acts[1..] == [acts[1]] && [acts[1]][1..] == [];
      assert Copied([acts[1]]) == if acts[1].Copy? then [acts[1].st] else [];
    }
  }

  lemma {:induction false} CopiesCopied(stmts: seq<Stmt>)
    ensures Copied(Copies(stmts)) == stmts
    decreases |stmts|
  {
    if stmts != [] {
      assert Copies(stmts)[1..] == Copies(stmts[1..]);
      CopiesCopied(stmts[1..]);
    }
  }

  /** The guest's statements all stay, in their order. */
  lemma OriginalsKept(cfg: Config, cap: nat, b: Block)
    requires cfg.Wf()
    ensures Originals(Compile(cfg, cap, b)) == b.preamble + b.body
  {
    hide Decode, Copies, HandleAll, Copied, Originals;
    var n := AdvanceAll(cfg, START, b.body).inode;
    var decoded, closing := Decode(cfg, START, b.body), Closing(cfg, n, b);
    HandleAllOriginals(cfg, cap, Pass([], []), Script(cfg, b));
    CopiedConcat(Copies(b.preamble), decoded + closing);
    CopiedConcat(decoded, closing);
    CopiesCopied(b.preamble);
    DecodeCopies(cfg, START, b.body);
    CopiedShort(closing);
    NoOriginals();
  }

  lemma NoOriginals()
    ensures Originals([]) == []
  {
  }
}
