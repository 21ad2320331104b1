/** The run-time helpers of cachegrind/cg_main.c on the in-place caches: each leaves the
simulator in the state `CgSim.Perform` gives. */
module CgHelpers {
  import opened Lru
  import opened CacheSim
  import opened CgSim
  import opened CgLaws

  class Simulator {
    const cfg: Config
    const I1: CacheT
    const D1: CacheT
    const LL: CacheT
    var lines: map<nat, LineCC>
    var bp: int

    ghost predicate Valid()
      reads this, I1, D1, LL
    {
      && cfg.Wf() && I1.Valid() && D1.Valid() && LL.Valid()
      && I1.lineSize == cfg.lineI1 && D1.lineSize == cfg.lineD1 && LL.lineSize == cfg.lineLL
      && I1.tags != D1.tags && I1.tags != LL.tags && D1.tags != LL.tags
    }

    ghost function State(): (s: Sim)
      requires Valid()
      reads this, I1, D1, LL, I1.tags, D1.tags, LL.tags
      ensures s.Ok(cfg)
    {
      Sim(I1.View(), D1.View(), LL.View(), lines, bp)
    }

    constructor (cfg: Config, i1: CacheT, d1: CacheT, ll: CacheT)
      requires cfg.Wf() && i1.Valid() && d1.Valid() && ll.Valid()
      requires i1.lineSize == cfg.lineI1 && d1.lineSize == cfg.lineD1 && ll.lineSize == cfg.lineLL
      requires i1.tags != d1.tags && i1.tags != ll.tags && d1.tags != ll.tags
      ensures Valid() && State() == Sim(i1.View(), d1.View(), ll.View(), map[], 0)
    {
      this.cfg, I1, D1, LL, lines, bp := cfg, i1, d1, ll, map[], 0;
    }

    function LineOf(n: Inode): LineCC
      reads this
    {
      if n.line in lines then lines[n.line]
      else LineCC(CacheCC(0, 0, 0), CacheCC(0, 0, 0), CacheCC(0, 0, 0), BranchCC(0, 0), BranchCC(0, 0))
    }

    method CountIrs(n: Inode)
      requires Valid()
      modifies this`lines
      ensures Valid() && State() == CountIr(cfg, old(State()), n)
    {
      var l := LineOf(n);
      lines := lines[n.line := l.(ir := CacheCC(l.ir.a + 1, l.ir.m1, l.ir.mL))];
    }

    /** cachesim_I1_doref_Gen: the two miss increments. */
    method I1DorefGen(a: nat, size: nat) returns (m1: nat, mL: nat)
      requires Valid() && 1 <= size <= cfg.minLine
      modifies I1.tags, LL.tags
      ensures Valid() && (State(), m1, mL) == I1Gen(cfg, old(State()), a, size)
    {
      hide Touch;
      m1, mL := 0, 0;
      var miss := I1.RefIsMiss(a, size);
      if miss {
        m1 := 1;
        var missL := LL.RefIsMiss(a, size);
        if missL { mL := 1; }
      }
    }

    /** cachesim_I1_doref_NoX: the two miss increments. */
    method I1DorefNoX(a: nat) returns (m1: nat, mL: nat)
      requires Valid()
      modifies I1.tags, LL.tags
      ensures Valid() && (State(), m1, mL) == I1NoX(cfg, old(State()), a)
    {
      hide Touch;
      m1, mL := 0, 0;
      var block := a / I1.lineSize;
      var miss := I1.SetrefIsMiss(block);
      if miss {
        m1 := 1;
        var missL := LL.SetrefIsMiss(block);
        if missL { mL := 1; }
      }
    }

    method IrGen(n: Inode)
      requires Valid() && 1 <= n.len <= cfg.minLine
      modifies this`lines, I1.tags, LL.tags
      ensures Valid() && State() == FetchGen(cfg, old(State()), n)
    {
      hide I1Gen;
      var m1, mL := I1DorefGen(n.addr, n.len);
      var l := LineOf(n);
      lines := lines[n.line := l.(ir := CacheCC(l.ir.a + 1, l.ir.m1 + m1, l.ir.mL + mL))];
    }

    method IrNoX(n: Inode)
      requires Valid()
      modifies this`lines, I1.tags, LL.tags
      ensures Valid() && State() == FetchNoX(cfg, old(State()), n)
    {
      hide I1NoX;
      var m1, mL := I1DorefNoX(n.addr);
      var l := LineOf(n);
      lines := lines[n.line := l.(ir := CacheCC(l.ir.a + 1, l.ir.m1 + m1, l.ir.mL + mL))];
    }

    /** cachesim_D1_doref: the two miss increments. */
    method D1Doref(a: nat, size: nat) returns (m1: nat, mL: nat)
      requires Valid() && 1 <= size <= cfg.minLine
      modifies D1.tags, LL.tags
      ensures Valid() && (State(), m1, mL) == D1Ref(cfg, old(State()), a, size)
    {
      hide Touch;
      m1, mL := 0, 0;
      var miss := D1.RefIsMiss(a, size);
      if miss {
        m1 := 1;
        var missL := LL.RefIsMiss(a, size);
        if missL { mL := 1; }
      }
    }

    method Dr(n: Inode, a: nat, size: nat)
      requires Valid() && 1 <= size <= cfg.minLine
      modifies this`lines, D1.tags, LL.tags
      ensures Valid() && State() == ReadData(cfg, old(State()), n, a, size)
    {
      hide D1Ref;
      var m1, mL := D1Doref(a, size);
      var l := LineOf(n);
      lines := lines[n.line := l.(dr := CacheCC(l.dr.a + 1, l.dr.m1 + m1, l.dr.mL + mL))];
    }

    method Dw(n: Inode, a: nat, size: nat)
      requires Valid() && 1 <= size <= cfg.minLine
      modifies this`lines, D1.tags, LL.tags
      ensures Valid() && State() == WriteData(cfg, old(State()), n, a, size)
    {
      hide D1Ref;
      var m1, mL := D1Doref(a, size);
      var l := LineOf(n);
      lines := lines[n.line := l.(dw := CacheCC(l.dw.a + 1, l.dw.m1 + m1, l.dw.mL + mL))];
    }

    method CondBranch(n: Inode, taken: nat)
      requires Valid()
      modifies this`lines, this`bp
      ensures Valid() && State() == LogCond(cfg, old(State()), n, taken)
    {
      var (bp', mp) := cfg.cond(bp, n.addr, taken);
      var l := LineOf(n);
      bp, lines := bp', lines[n.line := l.(bc := BranchCC(l.bc.b + 1, l.bc.mp + mp % 2))];
    }

    method IndBranch(n: Inode, dst: nat)
      requires Valid()
      modifies this`lines, this`bp
      ensures Valid() && State() == LogInd(cfg, old(State()), n, dst)
    {
      var (bp', mp) := cfg.ind(bp, n.addr, dst);
      var l := LineOf(n);
      bp, lines := bp', lines[n.line := l.(bi := BranchCC(l.bi.b + 1, l.bi.mp + mp % 2))];
    }

    /** A helper call as emitted by instrumentation: one call of `Perform`, which obeys the laws of
        the helper's name. */
    method Execute(env: Env, c: Call)
      requires Valid() && CallOk(cfg, c)
      modifies this`lines, this`bp, I1.tags, D1.tags, LL.tags
      ensures Valid() && State() == Perform(cfg, env, old(State()), c)
      ensures Obeys(cfg, env, old(State()), c, State())
    {
      hide CountIr, FetchGen, FetchNoX, ReadData, WriteData, LogCond, LogInd, State, Taken, Obeys;
      HelpersObey(cfg, env, State(), c);
      match c
      case Log1Ir(n) => CountIrs(n);
      case Log2Ir(n, n2) => CountIrs(n); CountIrs(n2);
      case Log3Ir(n, n2, n3) => CountIrs(n); CountIrs(n2); CountIrs(n3);
      case Log1IrGen0D(n) => IrGen(n);
      case Log1IrNoX0D(n) => IrNoX(n);
      case Log2IrNoX0D(n, n2) => IrNoX(n); IrNoX(n2);
      case Log3IrNoX0D(n, n2, n3) => IrNoX(n); IrNoX(n2); IrNoX(n3);
      case Log1IrNoX1Dr(n, ea, sz) => IrNoX(n); Dr(n, env(ea), sz);
      case Log1IrNoX1Dw(n, ea, sz) => IrNoX(n); Dw(n, env(ea), sz);
      case Log0Ir1Dr(n, ea, sz) => Dr(n, env(ea), sz);
      case Log0Ir1Dw(n, ea, sz) => Dw(n, env(ea), sz);
      case LogCondBranch(n, g, inverted) => CondBranch(n, Taken(env(g), inverted));
      case LogIndBranch(n, dst) => IndBranch(n, env(dst));
    }
  }
}
