/** What cachegrind's run-time helpers do to the simulator: the `log_*` functions of
cachegrind/cg_main.c over the caches of cachegrind/cg_sim.c. */
module CgSim {
  import opened Lru

  /** An IR atom: a temporary, assigned once per block execution, or a constant. */
  datatype Atom = Tmp(id: nat) | Const(value: nat)

  /** The value each atom has in one execution of the block. */
  type Env = Atom -> nat

  /** The record set up for one guest instruction; `index` is its slot, `line` its line's counters. */
  datatype Inode = Inode(index: nat, addr: nat, len: nat, line: nat)

  datatype Event =
    | IrNoX(inode: Inode)
    | IrGen(inode: Inode)
    | Dr(inode: Inode, ea: Atom, szB: nat)
    | Dw(inode: Inode, ea: Atom, szB: nat)
    | Dm(inode: Inode, ea: Atom, szB: nat)
    | Bc(inode: Inode, guard: Atom, inverted: bool)
    | Bi(inode: Inode, dst: Atom)
  {
    predicate IsIr() { IrNoX? || IrGen? }
    predicate IsData() { Dr? || Dw? || Dm? }
  }

  datatype CacheCC = CacheCC(a: nat, m1: nat, mL: nat) {
    function Add(m1': nat, mL': nat): CacheCC { CacheCC(a + 1, m1 + m1', mL + mL') }
  }
  datatype BranchCC = BranchCC(b: nat, mp: nat)
  datatype LineCC = LineCC(ir: CacheCC, dr: CacheCC, dw: CacheCC, bc: BranchCC, bi: BranchCC)

  /** Command-line switches, line sizes, and the two branch predictors, whose state is opaque:
      given the state, the instruction and the outcome they yield a new state and 0 or 1. */
  datatype Config = Config(cacheSim: bool, branchSim: bool, minLine: nat,
                           lineI1: nat, lineD1: nat, lineLL: nat,
                           cond: (int, nat, nat) -> (int, nat), ind: (int, nat, nat) -> (int, nat),
                           lineOf: nat -> nat, minInstr: nat)
  {
    predicate Wf() {
      1 <= minInstr <= minLine <= lineI1 && minLine <= lineD1 && minLine <= lineLL
    }

    /** cachesim_is_IrNoX */
    predicate IsIrNoX(a: nat, size: nat)
      requires lineI1 > 0
    {
      lineI1 == lineLL && a / lineI1 == (a + size - 1) / lineI1
    }
  }

  datatype Sim = Sim(I1: Cache, D1: Cache, LL: Cache, lines: map<nat, LineCC>, bp: int) {
    ghost predicate Ok(cfg: Config) {
      && cfg.Wf() && I1.Wf() && D1.Wf() && LL.Wf()
      && I1.lineSize == cfg.lineI1 && D1.lineSize == cfg.lineD1 && LL.lineSize == cfg.lineLL
    }

    function Line(i: nat): LineCC {
      if i in lines then lines[i]
      else LineCC(CacheCC(0, 0, 0), CacheCC(0, 0, 0), CacheCC(0, 0, 0), BranchCC(0, 0), BranchCC(0, 0))
    }
  }

  function One(b: bool): nat { if b then 1 else 0 }

  // ---------------------------------------------------------------- cache references

  /** cachesim_I1_doref_Gen: the new caches and the two miss increments. */
  function I1Gen(cfg: Config, s: Sim, a: nat, size: nat): (r: (Sim, nat, nat))
    requires s.Ok(cfg) && 1 <= size <= cfg.minLine
    ensures r.0.Ok(cfg)
  {
    var (i1, miss1) := s.I1.Ref(a, size);
    if miss1 then
      var (ll, missL) := s.LL.Ref(a, size);
      (s.(I1 := i1, LL := ll), 1, One(missL))
    else (s.(I1 := i1), 0, 0)
  }

  /** cachesim_I1_doref_NoX */
  function I1NoX(cfg: Config, s: Sim, a: nat): (r: (Sim, nat, nat))
    requires s.Ok(cfg)
    ensures r.0.Ok(cfg)
  {
    var block := s.I1.Block(a);
    if s.I1.Misses(block) then (s.(I1 := s.I1.Load(block), LL := s.LL.Load(block)), 1, One(s.LL.Misses(block)))
    else (s.(I1 := s.I1.Load(block)), 0, 0)
  }

  /** cachesim_D1_doref */
  function D1Ref(cfg: Config, s: Sim, a: nat, size: nat): (r: (Sim, nat, nat))
    requires s.Ok(cfg) && 1 <= size <= cfg.minLine
    ensures r.0.Ok(cfg)
  {
    var (d1, miss1) := s.D1.Ref(a, size);
    if miss1 then
      var (ll, missL) := s.LL.Ref(a, size);
      (s.(D1 := d1, LL := ll), 1, One(missL))
    else (s.(D1 := d1), 0, 0)
  }

  /** The special path agrees with the generic one wherever instrumentation picks it. */
  lemma NoXIsGen(cfg: Config, s: Sim, a: nat, size: nat)
    requires s.Ok(cfg) && 1 <= size <= cfg.minLine && cfg.IsIrNoX(a, size)
    ensures I1NoX(cfg, s, a) == I1Gen(cfg, s, a, size)
  {
  }

  // ---------------------------------------------------------------- counters

  function LogIr(cfg: Config, n: Inode, r: (Sim, nat, nat)): Sim {
    var l := r.0.Line(n.line);
    r.0.(lines := r.0.lines[n.line := l.(ir := l.ir.Add(r.1, r.2))])
  }

  function LogDr(cfg: Config, n: Inode, r: (Sim, nat, nat)): Sim {
    var l := r.0.Line(n.line);
    r.0.(lines := r.0.lines[n.line := l.(dr := l.dr.Add(r.1, r.2))])
  }

  function LogDw(cfg: Config, n: Inode, r: (Sim, nat, nat)): Sim {
    var l := r.0.Line(n.line);
    r.0.(lines := r.0.lines[n.line := l.(dw := l.dw.Add(r.1, r.2))])
  }

  function LogCond(cfg: Config, s: Sim, n: Inode, taken: nat): Sim {
    var (bp, mp) := cfg.cond(s.bp, n.addr, taken);
    var l := s.Line(n.line);
    s.(bp := bp, lines := s.lines[n.line := l.(bc := BranchCC(l.bc.b + 1, l.bc.mp + mp % 2))])
  }

  function LogInd(cfg: Config, s: Sim, n: Inode, dst: nat): Sim {
    var (bp, mp) := cfg.ind(s.bp, n.addr, dst);
    var l := s.Line(n.line);
    s.(bp := bp, lines := s.lines[n.line := l.(bi := BranchCC(l.bi.b + 1, l.bi.mp + mp % 2))])
  }

  // ---------------------------------------------------------------- one reference with its counters

  function CountIr(cfg: Config, s: Sim, n: Inode): (r: Sim)
    requires s.Ok(cfg)
    ensures r.Ok(cfg)
  {
    LogIr(cfg, n, (s, 0, 0))
  }

  function FetchGen(cfg: Config, s: Sim, n: Inode): (r: Sim)
    requires s.Ok(cfg) && 1 <= n.len <= cfg.minLine
    ensures r.Ok(cfg)
  {
    LogIr(cfg, n, I1Gen(cfg, s, n.addr, n.len))
  }

  function FetchNoX(cfg: Config, s: Sim, n: Inode): (r: Sim)
    requires s.Ok(cfg)
    ensures r.Ok(cfg)
  {
    LogIr(cfg, n, I1NoX(cfg, s, n.addr))
  }

  function ReadData(cfg: Config, s: Sim, n: Inode, a: nat, size: nat): (r: Sim)
    requires s.Ok(cfg) && 1 <= size <= cfg.minLine
    ensures r.Ok(cfg)
  {
    LogDr(cfg, n, D1Ref(cfg, s, a, size))
  }

  function WriteData(cfg: Config, s: Sim, n: Inode, a: nat, size: nat): (r: Sim)
    requires s.Ok(cfg) && 1 <= size <= cfg.minLine
    ensures r.Ok(cfg)
  {
    LogDw(cfg, n, D1Ref(cfg, s, a, size))
  }

  /** The guard as the predictor sees it: inverted when the exit leads to the next instruction. */
  function Taken(guard: nat, inverted: bool): nat {
    if inverted then One(guard == 0) else One(guard != 0)
  }

  // ---------------------------------------------------------------- events one at a time

  /** An event the simulator can take: sizes within a line, and IrNoX only where it applies. */
  predicate Good(cfg: Config, e: Event)
    requires cfg.Wf()
  {
    && (e.IsIr() ==> 1 <= e.inode.len <= cfg.minLine)
    && (e.IrNoX? ==> cfg.IsIrNoX(e.inode.addr, e.inode.len))
    && (e.IsData() ==> 1 <= e.szB <= cfg.minLine && cfg.cacheSim)
  }

  /** One event on its own, instruction reads always by the generic path.  A modify counts as
      one read. */
  function Do(cfg: Config, env: Env, s: Sim, e: Event): (r: Sim)
    requires s.Ok(cfg) && Good(cfg, e)
    ensures r.Ok(cfg)
  {
    match e
    case IrNoX(n) => if cfg.cacheSim then FetchGen(cfg, s, n) else CountIr(cfg, s, n)
    case IrGen(n) => if cfg.cacheSim then FetchGen(cfg, s, n) else CountIr(cfg, s, n)
    case Dr(n, ea, sz) => ReadData(cfg, s, n, env(ea), sz)
    case Dm(n, ea, sz) => ReadData(cfg, s, n, env(ea), sz)
    case Dw(n, ea, sz) => WriteData(cfg, s, n, env(ea), sz)
    case Bc(n, guard, inverted) => LogCond(cfg, s, n, Taken(env(guard), inverted))
    case Bi(n, dst) => LogInd(cfg, s, n, env(dst))
  }

  // ---------------------------------------------------------------- helper calls

  /** The calls instrumentation can emit. */
  datatype Call =
    | Log1Ir(n: Inode)
    | Log2Ir(n: Inode, n2: Inode)
    | Log3Ir(n: Inode, n2: Inode, n3: Inode)
    | Log1IrGen0D(n: Inode)
    | Log1IrNoX0D(n: Inode)
    | Log2IrNoX0D(n: Inode, n2: Inode)
    | Log3IrNoX0D(n: Inode, n2: Inode, n3: Inode)
    | Log1IrNoX1Dr(n: Inode, ea: Atom, szB: nat)
    | Log1IrNoX1Dw(n: Inode, ea: Atom, szB: nat)
    | Log0Ir1Dr(n: Inode, ea: Atom, szB: nat)
    | Log0Ir1Dw(n: Inode, ea: Atom, szB: nat)
    | LogCondBranch(n: Inode, guard: Atom, inverted: bool)
    | LogIndBranch(n: Inode, dst: Atom)

  predicate CallOk(cfg: Config, c: Call) {
    && (c.Log1IrGen0D? ==> 1 <= c.n.len <= cfg.minLine)
    && (c.Log1IrNoX1Dr? || c.Log1IrNoX1Dw? || c.Log0Ir1Dr? || c.Log0Ir1Dw? ==> 1 <= c.szB <= cfg.minLine)
  }

  /** What a helper does when it is called. */
  function Perform(cfg: Config, env: Env, s: Sim, c: Call): (r: Sim)
    requires s.Ok(cfg) && CallOk(cfg, c)
    ensures r.Ok(cfg)
  {
    match c
    case Log1Ir(n) => CountIr(cfg, s, n)
    case Log2Ir(n, n2) => CountIr(cfg, CountIr(cfg, s, n), n2)
    case Log3Ir(n, n2, n3) => CountIr(cfg, CountIr(cfg, CountIr(cfg, s, n), n2), n3)
    case Log1IrGen0D(n) => FetchGen(cfg, s, n)
    case Log1IrNoX0D(n) => FetchNoX(cfg, s, n)
    case Log2IrNoX0D(n, n2) => FetchNoX(cfg, FetchNoX(cfg, s, n), n2)
    case Log3IrNoX0D(n, n2, n3) => FetchNoX(cfg, FetchNoX(cfg, FetchNoX(cfg, s, n), n2), n3)
    case Log1IrNoX1Dr(n, ea, sz) => ReadData(cfg, FetchNoX(cfg, s, n), n, env(ea), sz)
    case Log1IrNoX1Dw(n, ea, sz) => WriteData(cfg, FetchNoX(cfg, s, n), n, env(ea), sz)
    case Log0Ir1Dr(n, ea, sz) => ReadData(cfg, s, n, env(ea), sz)
    case Log0Ir1Dw(n, ea, sz) => WriteData(cfg, s, n, env(ea), sz)
    case LogCondBranch(n, guard, inverted) => LogCond(cfg, s, n, Taken(env(guard), inverted))
    case LogIndBranch(n, dst) => LogInd(cfg, s, n, env(dst))
  }
}
