/** What each run-time helper of cachegrind/cg_main.c does, said through hits, misses and counter
differences: which caches see which blocks, which counters rise and by how much, and that nothing
else changes. */
module CgLaws {
  import opened Lru
  import opened CgSim

  // ---------------------------------------------------------------- caches

  /** The blocks of a reference: one line or two. */
  function BlocksOf(lineSize: nat, a: nat, size: nat): (b: seq<nat>)
    requires lineSize > 0 && size > 0
    ensures 1 <= |b| <= 2 && b[0] == a / lineSize && b[|b| - 1] == (a + size - 1) / lineSize
  {
    if a / lineSize == (a + size - 1) / lineSize then [a / lineSize] else [a / lineSize, (a + size - 1) / lineSize]
  }

  /** Some of the blocks is not in the cache. */
  ghost predicate AnyMissing(c: Cache, blocks: seq<nat>)
    requires c.Wf()
  {
    exists i :: 0 <= i < |blocks| && blocks[i] !in c.ways[blocks[i] % |c.ways|]
  }

  lemma OneBlock(c: Cache, b: nat)
    requires c.Wf()
    ensures AnyMissing(c, [b]) <==> b !in c.ways[b % |c.ways|]
    ensures Loads(c, [b]) == c.Load(b)
  {
    assert [b][0] == b;
    assert [b][..0] == [];
    assert Loads(c, []) == c;
  }

  lemma TwoBlocks(c: Cache, b1: nat, b2: nat)
    requires c.Wf()
    ensures AnyMissing(c, [b1, b2]) <==> b1 !in c.ways[b1 % |c.ways|] || b2 !in c.ways[b2 % |c.ways|]
    ensures Loads(c, [b1, b2]) == c.Load(b1).Load(b2)
  {
    assert [b1, b2][0] == b1 && [b1, b2][1] == b2;
    OneBlock(c, b1);
    assert [b1, b2][..1] == [b1];
  }

  /** Making a block that is present the most recent one evicts nothing. */
  lemma HitKeepsAll(c: Cache, b: nat, other: nat)
    requires c.Wf() && !c.Misses(b)
    ensures c.Load(b).Misses(other) <==> c.Misses(other)
  {
    var w := c.ways[c.SetOf(b)];
    var i := IndexOf(w, b);
    assert w == w[..i] + [b] + w[i + 1..];
    assert forall x :: x in Touch(w, b) <==> x in w;
  }

  /** A reference loads its blocks and misses exactly when one of them was missing. */
  lemma RefLaw(c: Cache, a: nat, size: nat)
    requires c.Wf() && 1 <= size <= c.lineSize
    ensures var blocks := BlocksOf(c.lineSize, a, size);
            c.Ref(a, size).0 == Loads(c, blocks) && (c.Ref(a, size).1 <==> AnyMissing(c, blocks))
  {
    hide Cache.Ref, Cache.Load, Cache.Misses, Loads, AnyMissing;
    RefByBlocks(c, a, size, c.Block(a), c.Block(a + size - 1));
  }

  lemma RefByBlocks(c: Cache, a: nat, size: nat, b1: nat, b2: nat)
    requires c.Wf() && 1 <= size <= c.lineSize && b1 == c.Block(a) && b2 == c.Block(a + size - 1)
    ensures var blocks := if b1 == b2 then [b1] else [b1, b2];
            c.Ref(a, size).0 == Loads(c, blocks) && (c.Ref(a, size).1 <==> AnyMissing(c, blocks))
  {
    hide Cache.Block, Cache.Load, Cache.Misses, Loads, AnyMissing;
    InTurn(c, b1, b2);
  }

  lemma InTurn(c: Cache, b1: nat, b2: nat)
    requires c.Wf()
    ensures AnyMissing(c, [b1]) <==> c.Misses(b1)
    ensures AnyMissing(c, [b1, b2]) <==> c.Misses(b1) || c.Load(b1).Misses(b2)
    ensures Loads(c, [b1]) == c.Load(b1) && Loads(c, [b1, b2]) == c.Load(b1).Load(b2)
  {
    hide Cache.Load, Loads, AnyMissing;
    OneBlock(c, b1);
    TwoBlocks(c, b1, b2);
    if !c.Misses(b1) { HitKeepsAll(c, b1, b2); }
  }

  // ---------------------------------------------------------------- counters

  function Plus(c: CacheCC, first: bool, last: bool): CacheCC {
    CacheCC(c.a + 1, c.m1 + One(first), c.mL + One(last))
  }

  /** All lines but one count as before. */
  ghost predicate OnlyLine(s: Sim, r: Sim, line: nat) {
    forall k: nat :: k != line ==> r.Line(k) == s.Line(k)
  }

  /** One instruction executed without cache simulation. */
  ghost predicate Counted(s: Sim, line: nat, r: Sim) {
    var old_, new_ := s.Line(line), r.Line(line);
    && r.I1 == s.I1 && r.D1 == s.D1 && r.LL == s.LL && r.bp == s.bp && OnlyLine(s, r, line)
    && new_ == old_.(ir := Plus(old_.ir, false, false))
  }

  /** One instruction read: the first-level cache sees its blocks; the last-level cache sees its own
      only if one of those was missing, and that counts one miss at each level that lacked one. */
  ghost predicate Fetched(s: Sim, line: nat, first: seq<nat>, last: seq<nat>, r: Sim)
    requires s.I1.Wf() && s.LL.Wf()
  {
    var old_, new_ := s.Line(line), r.Line(line);
    var miss1 := AnyMissing(s.I1, first);
    && r.I1 == Loads(s.I1, first) && r.LL == (if miss1 then Loads(s.LL, last) else s.LL)
    && r.D1 == s.D1 && r.bp == s.bp && OnlyLine(s, r, line)
    && new_ == old_.(ir := Plus(old_.ir, miss1, miss1 && AnyMissing(s.LL, last)))
  }

  /** One data access, counted as a read or as a write. */
  ghost predicate Accessed(s: Sim, line: nat, isWrite: bool, a: nat, size: nat, r: Sim)
    requires s.D1.Wf() && s.LL.Wf() && size > 0
  {
    var old_, new_ := s.Line(line), r.Line(line);
    var first, last := BlocksOf(s.D1.lineSize, a, size), BlocksOf(s.LL.lineSize, a, size);
    var miss1 := AnyMissing(s.D1, first);
    var missL := miss1 && AnyMissing(s.LL, last);
    && r.D1 == Loads(s.D1, first) && r.LL == (if miss1 then Loads(s.LL, last) else s.LL)
    && r.I1 == s.I1 && r.bp == s.bp && OnlyLine(s, r, line)
    && (isWrite ==> new_ == old_.(dw := Plus(old_.dw, miss1, missL)))
    && (!isWrite ==> new_ == old_.(dr := Plus(old_.dr, miss1, missL)))
  }

  /** One conditional branch of the guest: the predictor learns whether it is taken. */
  ghost predicate Branched(cfg: Config, s: Sim, line: nat, at: nat, taken: bool, r: Sim) {
    var old_, new_ := s.Line(line), r.Line(line);
    var (bp, mp) := cfg.cond(s.bp, at, if taken then 1 else 0);
    && r.I1 == s.I1 && r.D1 == s.D1 && r.LL == s.LL && r.bp == bp && OnlyLine(s, r, line)
    && new_ == old_.(bc := BranchCC(old_.bc.b + 1, old_.bc.mp + mp % 2))
  }

  ghost predicate Jumped(cfg: Config, s: Sim, line: nat, at: nat, dst: nat, r: Sim) {
    var old_, new_ := s.Line(line), r.Line(line);
    var (bp, mp) := cfg.ind(s.bp, at, dst);
    && r.I1 == s.I1 && r.D1 == s.D1 && r.LL == s.LL && r.bp == bp && OnlyLine(s, r, line)
    && new_ == old_.(bi := BranchCC(old_.bi.b + 1, old_.bi.mp + mp % 2))
  }

  // ---------------------------------------------------------------- the laws hold

  lemma CountIrLaw(cfg: Config, s: Sim, n: Inode)
    requires s.Ok(cfg)
    ensures Counted(s, n.line, CountIr(cfg, s, n))
  {
  }

  /** The caches after an instruction read, and its miss increments. */
  lemma I1GenLaw(cfg: Config, s: Sim, a: nat, size: nat)
    requires s.Ok(cfg) && 1 <= size <= cfg.minLine
    ensures var first, last := BlocksOf(cfg.lineI1, a, size), BlocksOf(cfg.lineLL, a, size);
            var miss1 := AnyMissing(s.I1, first);
            I1Gen(cfg, s, a, size) ==
            (s.(I1 := Loads(s.I1, first), LL := if miss1 then Loads(s.LL, last) else s.LL),
             One(miss1), One(miss1 && AnyMissing(s.LL, last)))
  {
    hide Cache.Ref, AnyMissing, Loads, BlocksOf;
    RefLaw(s.I1, a, size);
    RefLaw(s.LL, a, size);
  }

  lemma D1RefLaw(cfg: Config, s: Sim, a: nat, size: nat)
    requires s.Ok(cfg) && 1 <= size <= cfg.minLine
    ensures var first, last := BlocksOf(cfg.lineD1, a, size), BlocksOf(cfg.lineLL, a, size);
            var miss1 := AnyMissing(s.D1, first);
            D1Ref(cfg, s, a, size) ==
            (s.(D1 := Loads(s.D1, first), LL := if miss1 then Loads(s.LL, last) else s.LL),
             One(miss1), One(miss1 && AnyMissing(s.LL, last)))
  {
    hide Cache.Ref, AnyMissing, Loads, BlocksOf;
    RefLaw(s.D1, a, size);
    RefLaw(s.LL, a, size);
  }

  lemma I1NoXLaw(cfg: Config, s: Sim, a: nat)
    requires s.Ok(cfg)
    ensures var b := [a / cfg.lineI1];
            var miss1 := AnyMissing(s.I1, b);
            I1NoX(cfg, s, a) ==
            (s.(I1 := Loads(s.I1, b), LL := if miss1 then Loads(s.LL, b) else s.LL),
             One(miss1), One(miss1 && AnyMissing(s.LL, b)))
  {
    hide Cache.Load, AnyMissing, Loads;
    OneBlock(s.I1, a / cfg.lineI1);
    OneBlock(s.LL, a / cfg.lineI1);
  }

  /** Counting touches one counter of one line. */
  lemma LogLaw(cfg: Config, n: Inode, s: Sim, t: Sim, m1: nat, mL: nat)
    requires t.lines == s.lines
    ensures var r, l, c := LogIr(cfg, n, (t, m1, mL)), n.line, s.Line(n.line);
            r == t.(lines := r.lines) && OnlyLine(s, r, l) && r.Line(l) == c.(ir := CacheCC(c.ir.a + 1, c.ir.m1 + m1, c.ir.mL + mL))
    ensures var r, l, c := LogDr(cfg, n, (t, m1, mL)), n.line, s.Line(n.line);
            r == t.(lines := r.lines) && OnlyLine(s, r, l) && r.Line(l) == c.(dr := CacheCC(c.dr.a + 1, c.dr.m1 + m1, c.dr.mL + mL))
    ensures var r, l, c := LogDw(cfg, n, (t, m1, mL)), n.line, s.Line(n.line);
            r == t.(lines := r.lines) && OnlyLine(s, r, l) && r.Line(l) == c.(dw := CacheCC(c.dw.a + 1, c.dw.m1 + m1, c.dw.mL + mL))
  {
  }

  lemma FetchGenLaw(cfg: Config, s: Sim, n: Inode)
    requires s.Ok(cfg) && 1 <= n.len <= cfg.minLine
    ensures Fetched(s, n.line, BlocksOf(cfg.lineI1, n.addr, n.len), BlocksOf(cfg.lineLL, n.addr, n.len), FetchGen(cfg, s, n))
  {
    hide I1Gen, AnyMissing, Loads, BlocksOf, LogIr, OnlyLine, Sim.Line;
    I1GenLaw(cfg, s, n.addr, n.len);
    var (t, m1, mL) := I1Gen(cfg, s, n.addr, n.len);
    LogLaw(cfg, n, s, t, m1, mL);
  }

  /** The special path for reads known to stay within a line looks at one block in each cache. */
  lemma FetchNoXLaw(cfg: Config, s: Sim, n: Inode)
    requires s.Ok(cfg)
    ensures Fetched(s, n.line, [n.addr / cfg.lineI1], [n.addr / cfg.lineI1], FetchNoX(cfg, s, n))
  {
    hide I1NoX, AnyMissing, Loads, LogIr, OnlyLine, Sim.Line;
    I1NoXLaw(cfg, s, n.addr);
    var (t, m1, mL) := I1NoX(cfg, s, n.addr);
    LogLaw(cfg, n, s, t, m1, mL);
  }

  lemma DataLaw(cfg: Config, s: Sim, n: Inode, a: nat, size: nat)
    requires s.Ok(cfg) && 1 <= size <= cfg.minLine
    ensures Accessed(s, n.line, false, a, size, ReadData(cfg, s, n, a, size))
    ensures Accessed(s, n.line, true, a, size, WriteData(cfg, s, n, a, size))
  {
    hide D1Ref, AnyMissing, Loads, BlocksOf, LogDr, LogDw, OnlyLine, Sim.Line;
    D1RefLaw(cfg, s, a, size);
    var (t, m1, mL) := D1Ref(cfg, s, a, size);
    LogLaw(cfg, n, s, t, m1, mL);
  }

  lemma CondLaw(cfg: Config, s: Sim, n: Inode, guard: nat, inverted: bool)
    ensures Branched(cfg, s, n.line, n.addr, (guard != 0) != inverted, LogCond(cfg, s, n, Taken(guard, inverted)))
  {
  }

  lemma IndLaw(cfg: Config, s: Sim, n: Inode, dst: nat)
    ensures Jumped(cfg, s, n.line, n.addr, dst, LogInd(cfg, s, n, dst))
  {
  }

  // ---------------------------------------------------------------- helper calls

  /** The instruction read of a helper for reads within a line. */
  ghost predicate FetchedNoX(cfg: Config, s: Sim, n: Inode, r: Sim)
    requires s.Ok(cfg)
  {
    r.Ok(cfg) && Fetched(s, n.line, [n.addr / cfg.lineI1], [n.addr / cfg.lineI1], r)
  }

  /** What a helper call does, by its name: it counts or reads its instructions in turn, then
      performs its data access or informs its predictor. */
  ghost predicate Obeys(cfg: Config, env: Env, s: Sim, c: Call, r: Sim)
    requires s.Ok(cfg) && CallOk(cfg, c)
  {
    match c
    case Log1Ir(n) => Counted(s, n.line, r)
    case Log2Ir(n, n2) => exists m :: Counted(s, n.line, m) && Counted(m, n2.line, r)
    case Log3Ir(n, n2, n3) => exists m, m2 :: Counted(s, n.line, m) && Counted(m, n2.line, m2) && Counted(m2, n3.line, r)
    case Log1IrGen0D(n) =>
      Fetched(s, n.line, BlocksOf(cfg.lineI1, n.addr, n.len), BlocksOf(cfg.lineLL, n.addr, n.len), r)
    case Log1IrNoX0D(n) => FetchedNoX(cfg, s, n, r)
    case Log2IrNoX0D(n, n2) => exists m :: FetchedNoX(cfg, s, n, m) && FetchedNoX(cfg, m, n2, r)
    case Log3IrNoX0D(n, n2, n3) =>
      exists m, m2 :: FetchedNoX(cfg, s, n, m) && FetchedNoX(cfg, m, n2, m2) && FetchedNoX(cfg, m2, n3, r)
    case Log1IrNoX1Dr(n, ea, sz) => exists m :: FetchedNoX(cfg, s, n, m) && Accessed(m, n.line, false, env(ea), sz, r)
    case Log1IrNoX1Dw(n, ea, sz) => exists m :: FetchedNoX(cfg, s, n, m) && Accessed(m, n.line, true, env(ea), sz, r)
    case Log0Ir1Dr(n, ea, sz) => Accessed(s, n.line, false, env(ea), sz, r)
    case Log0Ir1Dw(n, ea, sz) => Accessed(s, n.line, true, env(ea), sz, r)
    case LogCondBranch(n, guard, inverted) => Branched(cfg, s, n.line, n.addr, (env(guard) != 0) != inverted, r)
    case LogIndBranch(n, dst) => Jumped(cfg, s, n.line, n.addr, env(dst), r)
  }

  /** Every helper call obeys. */
  lemma HelpersObey(cfg: Config, env: Env, s: Sim, c: Call)
    requires s.Ok(cfg) && CallOk(cfg, c)
    ensures Obeys(cfg, env, s, c, Perform(cfg, env, s, c))
  {
    hide Counted, Fetched, Accessed, Branched, Jumped, CountIr, FetchGen, FetchNoX, ReadData, WriteData, LogCond, LogInd;
    hide BlocksOf, Taken;
    match c
    case Log1Ir(n) => CountIrLaw(cfg, s, n);
    case Log2Ir(n, n2) =>
      CountIrLaw(cfg, s, n);
      CountIrLaw(cfg, CountIr(cfg, s, n), n2);
    case Log3Ir(n, n2, n3) =>
      var m := CountIr(cfg, s, n);
      CountIrLaw(cfg, s, n);
      CountIrLaw(cfg, m, n2);
      CountIrLaw(cfg, CountIr(cfg, m, n2), n3);
    case Log1IrGen0D(n) => FetchGenLaw(cfg, s, n);
    case Log1IrNoX0D(n) => FetchNoXLaw(cfg, s, n);
    case Log2IrNoX0D(n, n2) =>
      var m := FetchNoX(cfg, s, n);
      FetchNoXLaw(cfg, s, n);
      FetchNoXLaw(cfg, m, n2);
      assert FetchedNoX(cfg, s, n, m);
    case Log3IrNoX0D(n, n2, n3) =>
      var m := FetchNoX(cfg, s, n);
      var m2 := FetchNoX(cfg, m, n2);
      FetchNoXLaw(cfg, s, n);
      FetchNoXLaw(cfg, m, n2);
      FetchNoXLaw(cfg, m2, n3);
      assert FetchedNoX(cfg, s, n, m) && FetchedNoX(cfg, m, n2, m2);
    case Log1IrNoX1Dr(n, ea, sz) =>
      FetchNoXLaw(cfg, s, n);
      DataLaw(cfg, FetchNoX(cfg, s, n), n, env(ea), sz);
    case Log1IrNoX1Dw(n, ea, sz) =>
      FetchNoXLaw(cfg, s, n);
      DataLaw(cfg, FetchNoX(cfg, s, n), n, env(ea), sz);
    case Log0Ir1Dr(n, ea, sz) => DataLaw(cfg, s, n, env(ea), sz);
    case Log0Ir1Dw(n, ea, sz) => DataLaw(cfg, s, n, env(ea), sz);
    case LogCondBranch(n, guard, inverted) => CondLaw(cfg, s, n, env(guard), inverted);
    case LogIndBranch(n, dst) => IndLaw(cfg, s, n, env(dst));
  }
}
