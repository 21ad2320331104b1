/** What the cache-use simulator of callgrind/sim.c reports, said through plain caches: the outcome
of every read at both levels, and what the use records hold. */
module UseLaws {
  import SortedList
  import opened Lru
  import opened WriteBack
  import opened CacheUse
  import opened WbLimits

  // ---------------------------------------------------------------- a run, line by line

  /** The part of a read that lies in one line, with the use-mask bits of the bytes read. */
  datatype Piece = Piece(addr: nat, mask: set<nat>, here: Place)

  function PiecesOf(g: Geometry, masks: Masks, m: Access, here: Place): (r: seq<Piece>)
    requires g.lineSize > 0 && MasksFor(g, masks) && m.size >= 1
    ensures 1 <= |r| <= 2
  {
    var last := m.addr + m.size - 1;
    var from, to := masks.start[m.addr % g.lineSize], masks.end[last % g.lineSize];
    if m.addr / g.lineSize == last / g.lineSize then [Piece(m.addr, from * to, here)]
    else [Piece(m.addr, from, here), Piece(last, to, here)]
  }

  function Pieces(g: Geometry, masks: Masks, steps: seq<Step>): seq<Piece>
    requires g.lineSize > 0 && MasksFor(g, masks) && StepsFit(g, steps)
  {
    if steps == [] then []
    else
      var k := |steps| - 1;
      Pieces(g, masks, steps[..k]) + PiecesOf(g, masks, steps[k].access, steps[k].here)
  }

  // ---------------------------------------------------------------- two plain caches

  /** A first-level cache, and a last-level cache that sees the lines the first level missed. */
  datatype Plain = Plain(first: Cache, last: Cache) {
    ghost predicate Wf() { first.Wf() && last.Wf() }

    /** The first byte of the line. */
    function Start(a: nat): nat requires first.lineSize > 0 { a / first.lineSize * first.lineSize }

    predicate Misses(a: nat)
      requires first.lineSize > 0 && |first.ways| > 0
    {
      first.Misses(a / first.lineSize)
    }

    /** The line is in neither cache; the line at address 0 is never looked up in the last level. */
    predicate ToMemory(a: nat)
      requires first.lineSize > 0 && |first.ways| > 0 && last.lineSize > 0 && |last.ways| > 0
    {
      Misses(a) && Start(a) != 0 && last.Misses(Start(a) / last.lineSize)
    }

    function Feed(a: nat): (p: Plain)
      requires first.Wf() && last.Wf()
      ensures p.first.Wf() && p.last.Wf() && p.first.lineSize == first.lineSize && p.last.lineSize == last.lineSize
      ensures |p.first.ways| == |first.ways| && |p.last.ways| == |last.ways|
    {
      Plain(first.Load(a / first.lineSize),
            if Misses(a) && Start(a) != 0 then last.Load(Start(a) / last.lineSize) else last)
    }
  }

  /** Both plain caches after a run, from empty ones. */
  function Fed(g1: Geometry, gl: Geometry, ps: seq<Piece>): (p: Plain)
    requires g1.lineSize > 0 && g1.sets > 0 && g1.assoc > 0 && gl.lineSize > 0 && gl.sets > 0 && gl.assoc > 0
    ensures p.first.Wf() && p.last.Wf() && p.first.lineSize == g1.lineSize && p.last.lineSize == gl.lineSize
    ensures |p.first.ways| == g1.sets && |p.last.ways| == gl.sets
  {
    if ps == [] then Plain(Empty(g1.lineSize, g1.sets, g1.assoc), Empty(gl.lineSize, gl.sets, gl.assoc))
    else Fed(g1, gl, ps[..|ps| - 1]).Feed(ps[|ps| - 1].addr)
  }

  /** Blocks at both levels whose tags tell them apart. */
  datatype Apart = Apart(first: iset<nat>, last: iset<nat>)

  ghost predicate Sound(g1: Geometry, gl: Geometry, b: Apart) {
    UseWf(g1) && UseWf(gl) && Distinguishes(g1, b.first) && Distinguishes(gl, b.last)
  }

  ghost predicate Covers(g1: Geometry, gl: Geometry, b: Apart, a: nat)
    requires g1.lineSize > 0 && gl.lineSize > 0
  {
    a / g1.lineSize in b.first && a / g1.lineSize * g1.lineSize / gl.lineSize in b.last
  }

  // ---------------------------------------------------------------- one level against its plain cache

  lemma FitsToo(g: Geometry)
    requires UseWf(g)
    ensures Fits(g)
  {
  }

  /** One reference at one level. */
  lemma LevelStep(g: Geometry, blocks: iset<nat>, c: Cache, sets: seq<UseSet>, a: nat, use: Use, loaded: Loaded)
    requires UseWf(g) && Distinguishes(g, blocks) && LevelOk(g, sets) && Alike(g, blocks, c, AllHighs(g, sets))
    requires a / g.lineSize in blocks
    ensures var s, tag := SetNo(g, a), MaskedTag(g, a);
            var t := TagStep(g.Span(), sets[s].words, tag);
            && t.1 < |sets[s].use| && |sets[s].use| == |sets[s].loaded|
            && (t.2 <==> !c.Misses(a / g.lineSize))
            && var next := sets[s := Refer(g, sets[s], tag, use, loaded)];
               LevelOk(g, next) ==> Alike(g, blocks, c.Load(a / g.lineSize), AllHighs(g, next))
  {
    hide Geometry.Span, Permuted, MaskedTag, TagStep, RecordOf, TouchWb, Distinguishes, Alike, Cache.Load, Cache.Misses, BlockTag;
    hide Refer;
    var b, s, tag := a / g.lineSize, SetNo(g, a), MaskedTag(g, a);
    FitsToo(g);
    SlotInRange(g, s, sets[s], a);
    TagOfBlock(g, a);
    BlockStep(g, blocks, c, AllHighs(g, sets), b, false);
    HighsFollow(g, sets[s], a, use, loaded);
    var next := sets[s := Refer(g, sets[s], tag, use, loaded)];
    if LevelOk(g, next) {
      assert AllHighs(g, next) == AllHighs(g, sets)[s := Highs(g, Refer(g, sets[s], tag, use, loaded))];
    }
  }

  // ---------------------------------------------------------------- both levels against the plain caches

  ghost predicate Tracks(g1: Geometry, gl: Geometry, b: Apart, p: Plain, lv: Levels) {
    && Sound(g1, gl, b) && UseInv(g1, gl, lv) && p.first.Wf() && p.last.Wf()
    && Alike(g1, b.first, p.first, AllHighs(g1, lv.l1)) && Alike(gl, b.last, p.last, AllHighs(gl, lv.ll))
  }

  /** Charging a record reorders nothing. */
  lemma ChargeSame(g: Geometry, ll: seq<UseSet>, dep: (nat, nat), use: Use)
    requires LevelOk(g, ll) && dep.0 < g.sets && dep.1 < g.assoc
    ensures AllHighs(g, Charge(g, ll, dep, use)) == AllHighs(g, ll)
  {
    hide SetOk, Geometry.Span;
    var c := Charge(g, ll, dep, use);
    forall s | 0 <= s < g.sets ensures AllHighs(g, c)[s] == AllHighs(g, ll)[s] { SameHighs(g, c[s], ll[s]); }
  }

  /** The last level: in memory exactly when its plain cache lacks the line. */
  lemma LLTracks(g: Geometry, blocks: iset<nat>, c: Cache, ll: seq<UseSet>, line: nat, here: Place)
    requires UseWf(g) && Distinguishes(g, blocks) && LevelOk(g, ll) && Alike(g, blocks, c, AllHighs(g, ll))
    requires line / g.lineSize in blocks
    ensures var r := LLAccess(g, ll, line, here);
            && Alike(g, blocks, c.Load(line / g.lineSize), AllHighs(g, r.0))
            && (r.2 == MemAccess <==> c.Misses(line / g.lineSize))
  {
    hide Geometry.Span, Permuted, MaskedTag, TagStep, SetNo, SetOk, Distinguishes, Alike, Cache.Load, Cache.Misses;
    var s, tag := SetNo(g, line), MaskedTag(g, line);
    SetShape(g, s, ll[s]);
    SlotInRange(g, s, ll[s], line);
    var (_, slot, hit) := TagStep(g.Span(), ll[s].words, tag);
    var use := if hit then ll[s].use[slot] else Use(0, {});
    var loaded := if hit then ll[s].loaded[slot] else ll[s].loaded[slot].(memline := line, base := here.base);
    LevelStep(g, blocks, c, ll, line, use, loaded);
  }

  lemma UpdateTracks(g1: Geometry, gl: Geometry, b: Apart, p: Plain, ll: seq<UseSet>, old_: Use, ld: Loaded, line: nat,
                     here: Place)
    requires UseWf(gl) && Distinguishes(gl, b.last) && LevelOk(gl, ll) && Alike(gl, b.last, p.last, AllHighs(gl, ll))
    requires Linked(gl, ld) && (line == 0 ==> ld.dep.Some?) && line / gl.lineSize in b.last
    ensures var r := UpdateUse(gl, ll, old_, ld, line, here);
            && Alike(gl, b.last, if line != 0 then p.last.Load(line / gl.lineSize) else p.last, AllHighs(gl, r.0))
            && (r.2 == MemAccess <==> line != 0 && p.last.Misses(line / gl.lineSize))
  {
    hide Geometry.Span, SetOk, Distinguishes, Alike, Cache.Load, Cache.Misses, Charge, LLAccess, AllHighs;
    if old_.count > 0 && here.collect && ld.base.Some? { ChargeSame(gl, ll, ld.dep.value, old_); }
    var charged := if old_.count > 0 && here.collect && ld.base.Some? then Charge(gl, ll, ld.dep.value, old_) else ll;
    if line != 0 { LLTracks(gl, b.last, p.last, charged, line, here); }
  }

  lemma StartIsMemLine(p: Plain, g1: Geometry, a: nat)
    requires g1.lineSize > 0 && p.first.lineSize == g1.lineSize
    ensures MemLine(g1, a) == p.Start(a) == a / g1.lineSize * g1.lineSize
  {
    assert a == g1.lineSize * (a / g1.lineSize) + a % g1.lineSize;
  }

  /** One line of a read: the outcome is what the plain caches say, and they stay in step. */
  lemma LineTracks(g1: Geometry, gl: Geometry, b: Apart, p: Plain, lv: Levels, a: nat, mask: set<nat>, here: Place)
    requires Tracks(g1, gl, b, p, lv) && Covers(g1, gl, b, a)
    ensures var r := LineUse(g1, gl, lv, a, mask, here);
            && Tracks(g1, gl, b, p.Feed(a), r.0)
            && (r.1 == L1Hit <==> !p.Misses(a)) && (r.1 == MemAccess <==> p.ToMemory(a))
  {
    hide Geometry.Span, Permuted, MaskedTag, TagStep, SetNo, MemLine, Linked, SetOk, UpdateUse, Alike, Distinguishes;
    hide Cache.Load, Cache.Misses, AllHighs, Plain.Start;
    var s, tag, line := SetNo(g1, a), MaskedTag(g1, a), MemLine(g1, a);
    var u := lv.l1[s];
    SetShape(g1, s, u);
    VictimFilled(g1, gl, s, u, a);
    SameLine(g1, a);
    AlikeShape(g1, b.first, p.first, AllHighs(g1, lv.l1));
    AlikeShape(gl, b.last, p.last, AllHighs(gl, lv.ll));
    StartIsMemLine(p, g1, a);
    var (_, slot, hit) := TagStep(g1.Span(), u.words, tag);
    var r := LineUse(g1, gl, lv, a, mask, here);
    if hit {
      LevelStep(g1, b.first, p.first, lv.l1, a, Use(u.use[slot].count + 1, u.use[slot].mask + mask), u.loaded[slot]);
    } else {
      UpdateTracks(g1, gl, b, p, lv.ll, u.use[slot], u.loaded[slot], line, here);
      LevelStep(g1, b.first, p.first, lv.l1, a, Use(1, mask), UpdateUse(gl, lv.ll, u.use[slot], u.loaded[slot], line, here).1);
    }
  }

  // ---------------------------------------------------------------- whole reads and runs

  /** The read's lines are told apart at both levels; with a single set it stays within one. */
  ghost predicate Told(g1: Geometry, gl: Geometry, b: Apart, m: Access)
    requires g1.lineSize > 0 && gl.lineSize > 0
  {
    && 1 <= m.size <= g1.lineSize && Covers(g1, gl, b, m.addr) && Covers(g1, gl, b, m.addr + m.size - 1)
    && (g1.sets >= 2 || m.addr / g1.lineSize == (m.addr + m.size - 1) / g1.lineSize)
  }

  ghost predicate AllTold(g1: Geometry, gl: Geometry, b: Apart, steps: seq<Step>)
    requires g1.lineSize > 0 && gl.lineSize > 0
  {
    forall i :: 0 <= i < |steps| ==> Told(g1, gl, b, steps[i].access)
  }

  /** A read takes its lines one after the other. */
  lemma ReadIsPieces(g1: Geometry, gl: Geometry, masks: Masks, lv: Levels, m: Access, here: Place)
    requires UseInv(g1, gl, lv) && MasksFor(g1, masks) && 1 <= m.size <= g1.lineSize && g1.Wf()
    requires g1.sets >= 2 || m.addr / g1.lineSize == (m.addr + m.size - 1) / g1.lineSize
    ensures var q := PiecesOf(g1, masks, m, here);
            var r1 := LineUse(g1, gl, lv, q[0].addr, q[0].mask, here);
            ReadUse(g1, gl, masks, lv, m, here) ==
            if |q| == 1 then r1
            else
              var r2 := LineUse(g1, gl, r1.0, q[1].addr, q[1].mask, here);
              (r2.0, if r2.1 == L1Hit then r1.1 else if r1.1 == MemAccess || r2.1 == MemAccess then MemAccess else LLHit)
  {
    hide LineUse, SetOk, AllLinked, SetNo, Geometry.Span;
    SetsOfRef(g1, MemRef(m.addr, m.size, false));
  }

  /** Both levels, piece by piece. */
  ghost function FeedAll(p: Plain, q: seq<Piece>): (r: Plain)
    requires p.Wf()
    ensures r.Wf()
    decreases |q|
  {
    if q == [] then p else FeedAll(p.Feed(q[0].addr), q[1..])
  }

  ghost predicate AnyMisses(p: Plain, q: seq<Piece>)
    requires p.Wf()
    decreases |q|
  {
    q != [] && (p.Misses(q[0].addr) || AnyMisses(p.Feed(q[0].addr), q[1..]))
  }

  ghost predicate AnyToMemory(p: Plain, q: seq<Piece>)
    requires p.Wf()
    decreases |q|
  {
    q != [] && (p.ToMemory(q[0].addr) || AnyToMemory(p.Feed(q[0].addr), q[1..]))
  }

  lemma Unfold(p: Plain, q: seq<Piece>)
    requires p.Wf() && 1 <= |q| <= 2
    ensures var p1 := p.Feed(q[0].addr);
            && (|q| == 1 ==> FeedAll(p, q) == p1)
            && (|q| == 1 ==> (AnyMisses(p, q) <==> p.Misses(q[0].addr)) && (AnyToMemory(p, q) <==> p.ToMemory(q[0].addr)))
            && (|q| == 2 ==> FeedAll(p, q) == p1.Feed(q[1].addr))
            && (|q| == 2 ==> (AnyMisses(p, q) <==> p.Misses(q[0].addr) || p1.Misses(q[1].addr)))
            && (|q| == 2 ==> (AnyToMemory(p, q) <==> p.ToMemory(q[0].addr) || p1.ToMemory(q[1].addr)))
  {
    hide Plain.Feed, Plain.Misses, Plain.ToMemory;
    var p1 := p.Feed(q[0].addr);
    if |q| == 1 {
      assert q[1..] == [];
    } else {
      assert q[1..] == [q[1]] && [q[1]][1..] == [];
      var p2 := p1.Feed(q[1].addr);
      assert FeedAll(p1, [q[1]]) == FeedAll(p2, []) == p2;
      assert AnyMisses(p1, [q[1]]) <==> p1.Misses(q[1].addr) || AnyMisses(p2, []);
      assert AnyToMemory(p1, [q[1]]) <==> p1.ToMemory(q[1].addr) || AnyToMemory(p2, []);
    }
  }

  lemma ReadTracks(g1: Geometry, gl: Geometry, masks: Masks, b: Apart, p: Plain, lv: Levels, m: Access, here: Place)
    requires Tracks(g1, gl, b, p, lv) && MasksFor(g1, masks) && Told(g1, gl, b, m)
    ensures var r, q := ReadUse(g1, gl, masks, lv, m, here), PiecesOf(g1, masks, m, here);
            && Tracks(g1, gl, b, FeedAll(p, q), r.0)
            && (r.1 == L1Hit <==> !AnyMisses(p, q)) && (r.1 == MemAccess <==> AnyToMemory(p, q))
  {
    hide LineUse, ReadUse, UseInv, Alike, Distinguishes, AllHighs, Plain.Feed, Plain.Misses, Plain.ToMemory, FeedAll;
    hide AnyMisses, AnyToMemory, Geometry.Span;
    var q := PiecesOf(g1, masks, m, here);
    ReadIsPieces(g1, gl, masks, lv, m, here);
    Unfold(p, q);
    LineTracks(g1, gl, b, p, lv, q[0].addr, q[0].mask, here);
    if |q| == 2 {
      LineTracks(g1, gl, b, p.Feed(q[0].addr), LineUse(g1, gl, lv, q[0].addr, q[0].mask, here).0, q[1].addr, q[1].mask, here);
    }
  }

  lemma {:induction false} FedConcat(g1: Geometry, gl: Geometry, ps: seq<Piece>, q: seq<Piece>)
    requires g1.lineSize > 0 && g1.sets > 0 && g1.assoc > 0 && gl.lineSize > 0 && gl.sets > 0 && gl.assoc > 0
    ensures Fed(g1, gl, ps + q) == FeedAll(Fed(g1, gl, ps), q)
    decreases |q|
  {
    hide Plain.Feed;
    if q == [] {
      assert ps + q == ps;
    } else {
      assert (ps + [q[0]])[..|ps|] == ps && ps + q == ps + [q[0]] + q[1..];
      FedConcat(g1, gl, ps + [q[0]], q[1..]);
    }
  }

  lemma ToldFits(g1: Geometry, gl: Geometry, b: Apart, steps: seq<Step>)
    requires g1.lineSize > 0 && gl.lineSize > 0 && AllTold(g1, gl, b, steps)
    ensures StepsFit(g1, steps)
  {
    forall i | 0 <= i < |steps| ensures 1 <= steps[i].access.size <= g1.lineSize {
      assert Told(g1, gl, b, steps[i].access);
    }
  }

  lemma StartTracks(g1: Geometry, gl: Geometry, masks: Masks, b: Apart)
    requires Sound(g1, gl, b) && MasksFor(g1, masks)
    ensures Tracks(g1, gl, b, Fed(g1, gl, []), UseRun(g1, gl, masks, []))
  {
    hide SetOk, Distinguishes, Alike, AllHighs, Geometry.Span;
    var lv := UseRun(g1, gl, masks, []);
    ClearedHighs(g1, lv.l1);
    ClearedHighs(gl, lv.ll);
    FitsToo(g1);
    FitsToo(gl);
    ClearedTracks(g1, b.first);
    ClearedTracks(gl, b.last);
  }

  lemma ClearedTracks(g: Geometry, blocks: iset<nat>)
    requires Fits(g)
    ensures Alike(g, blocks, Empty(g.lineSize, g.sets, g.assoc), seq(g.sets, i => Zeros(g.assoc)))
  {
    hide Alike;
    ClearedAlike(g, blocks);
  }

  /** Throughout a run, the two levels stay in step with the plain caches. */
  lemma {:induction false} RunTracks(g1: Geometry, gl: Geometry, masks: Masks, b: Apart, steps: seq<Step>)
    requires Sound(g1, gl, b) && MasksFor(g1, masks) && AllTold(g1, gl, b, steps)
    ensures StepsFit(g1, steps)
    ensures Tracks(g1, gl, b, Fed(g1, gl, Pieces(g1, masks, steps)), UseRun(g1, gl, masks, steps))
  {
    hide Distinguishes, ReadUse, Tracks, Told, PiecesOf;
    ToldFits(g1, gl, b, steps);
    if steps == [] {
      StartTracks(g1, gl, masks, b);
    } else {
      var k := |steps| - 1;
      RunTracks(g1, gl, masks, b, steps[..k]);
      var lv, ps := UseRun(g1, gl, masks, steps[..k]), Pieces(g1, masks, steps[..k]);
      ReadTracks(g1, gl, masks, b, Fed(g1, gl, ps), lv, steps[k].access, steps[k].here);
      FedConcat(g1, gl, ps, PiecesOf(g1, masks, steps[k].access, steps[k].here));
    }
  }

  /** After every run of reads the levels tell apart, a read is a first-level hit exactly when no line
      of it is missing in the plain first-level cache, and goes to memory exactly when a line missing
      there is also missing in a plain last-level cache that has seen just the lines missed. */
  lemma OutcomeLikePlain(g1: Geometry, gl: Geometry, masks: Masks, b: Apart, steps: seq<Step>, m: Access, here: Place)
    requires Sound(g1, gl, b) && MasksFor(g1, masks) && AllTold(g1, gl, b, steps) && Told(g1, gl, b, m)
    ensures StepsFit(g1, steps)
    ensures var p, q := Fed(g1, gl, Pieces(g1, masks, steps)), PiecesOf(g1, masks, m, here);
            var outcome := ReadUse(g1, gl, masks, UseRun(g1, gl, masks, steps), m, here).1;
            (outcome == L1Hit <==> !AnyMisses(p, q)) && (outcome == MemAccess <==> AnyToMemory(p, q))
  {
    hide Distinguishes, ReadUse, UseRun, Fed, Pieces, PiecesOf, AnyMisses, AnyToMemory, Told, Tracks;
    RunTracks(g1, gl, masks, b, steps);
    ReadTracks(g1, gl, masks, b, Fed(g1, gl, Pieces(g1, masks, steps)), UseRun(g1, gl, masks, steps), m, here);
  }

  // ---------------------------------------------------------------- within the range of the encoding

  /** The blocks from the first span up to the reach of the 32-bit mask. */
  ghost function FarBlocks(g: Geometry): iset<nat> { iset b: nat | g.sets <= b && b * g.lineSize < ADDR_LIMIT }

  lemma FarApart(g: Geometry)
    requires UseWf(g)
    ensures Distinguishes(g, FarBlocks(g))
  {
    hide MaskedTag, Geometry.Span, Geometry.Tag;
    forall b | b in FarBlocks(g) ensures BlockTag(g, b) == g.Tag(b) {
      MaskedIsTag(g, b * g.lineSize);
      DivUnique(b * g.lineSize, g.lineSize, b, 0);
    }
    forall b, c | b in FarBlocks(g) && c in FarBlocks(g) && b % g.sets == c % g.sets && BlockTag(g, b) == BlockTag(g, c)
      ensures b == c
    {
      TagFacts(g, b, c);
    }
    forall b | b in FarBlocks(g) ensures BlockTag(g, b) != 0 { TagFacts(g, b, b); }
  }

  /** Reads past the first span of either level, below 4 GiB. */
  ghost predicate FarRead(g1: Geometry, gl: Geometry, m: Access)
    requires g1.lineSize > 0
  {
    InRange(g1, AsRead(m)) && gl.Span() <= m.addr / g1.lineSize * g1.lineSize
  }

  lemma FarCovered(g1: Geometry, gl: Geometry, a: nat)
    requires UseWf(g1) && UseWf(gl) && g1.Span() <= a < ADDR_LIMIT && gl.Span() <= a / g1.lineSize * g1.lineSize
    ensures Covers(g1, gl, Apart(FarBlocks(g1), FarBlocks(gl)), a)
  {
    hide Geometry.Span;
    var start := a / g1.lineSize * g1.lineSize;
    assert a == g1.lineSize * (a / g1.lineSize) + a % g1.lineSize;
    assert start <= a;
    BlockFacts(g1, a, 1);
    BlockFacts(gl, start, 1);
    assert start == gl.lineSize * (start / gl.lineSize) + start % gl.lineSize;
  }

  lemma FarTold(g1: Geometry, gl: Geometry, m: Access)
    requires UseWf(g1) && UseWf(gl) && g1.sets >= 2 && FarRead(g1, gl, m)
    ensures Told(g1, gl, Apart(FarBlocks(g1), FarBlocks(gl)), m)
  {
    hide Geometry.Span, Covers;
    var last := m.addr + m.size - 1;
    BlockFacts(g1, m.addr, m.size);
    MulMonotone(g1.lineSize, m.addr / g1.lineSize, last / g1.lineSize);
    FarCovered(g1, gl, m.addr);
    FarCovered(g1, gl, last);
  }

  /** In particular, for every run of reads within that range. */
  lemma OutcomeInRange(g1: Geometry, gl: Geometry, masks: Masks, steps: seq<Step>, m: Access, here: Place)
    requires UseWf(g1) && UseWf(gl) && g1.sets >= 2 && MasksFor(g1, masks)
    requires FarRead(g1, gl, m) && forall i :: 0 <= i < |steps| ==> FarRead(g1, gl, steps[i].access)
    ensures StepsFit(g1, steps)
    ensures var p, q := Fed(g1, gl, Pieces(g1, masks, steps)), PiecesOf(g1, masks, m, here);
            var outcome := ReadUse(g1, gl, masks, UseRun(g1, gl, masks, steps), m, here).1;
            (outcome == L1Hit <==> !AnyMisses(p, q)) && (outcome == MemAccess <==> AnyToMemory(p, q))
  {
    hide ReadUse, UseRun, Fed, Pieces, PiecesOf, AnyMisses, AnyToMemory, Told, Distinguishes, Geometry.Span, InRange, FarBlocks;
    hide FarRead;
    var b := Apart(FarBlocks(g1), FarBlocks(gl));
    FarApart(g1);
    FarApart(gl);
    FarTold(g1, gl, m);
    forall i | 0 <= i < |steps| ensures Told(g1, gl, b, steps[i].access) { FarTold(g1, gl, steps[i].access); }
    OutcomeLikePlain(g1, gl, masks, b, steps, m, here);
  }

  // ---------------------------------------------------------------- what the use records hold

  predicate OnLine(g: Geometry, q: Piece, line: nat)
    requires g.lineSize > 0
  {
    q.addr / g.lineSize * g.lineSize == line
  }

  /** Piece i brought the line in, and it has been there since: the latest of its references that the
      plain first-level cache misses. */
  ghost predicate InstalledAt(g1: Geometry, gl: Geometry, ps: seq<Piece>, line: nat, i: nat)
    requires UseWf(g1) && UseWf(gl)
  {
    && i < |ps| && OnLine(g1, ps[i], line) && Fed(g1, gl, ps[..i]).Misses(ps[i].addr)
    && forall j :: i < j < |ps| && OnLine(g1, ps[j], line) ==> !Fed(g1, gl, ps[..j]).Misses(ps[j].addr)
  }

  /** How many pieces from the i-th on are on the line. */
  function UsesFrom(g: Geometry, ps: seq<Piece>, line: nat, i: nat): nat
    requires g.lineSize > 0
  {
    if |ps| <= i then 0
    else UsesFrom(g, ps[..|ps| - 1], line, i) + if OnLine(g, ps[|ps| - 1], line) then 1 else 0
  }

  /** Which use-mask bits they set. */
  function BitsFrom(g: Geometry, ps: seq<Piece>, line: nat, i: nat): set<nat>
    requires g.lineSize > 0
  {
    if |ps| <= i then {}
    else BitsFrom(g, ps[..|ps| - 1], line, i) + if OnLine(g, ps[|ps| - 1], line) then ps[|ps| - 1].mask else {}
  }

  /** The record counts the references to the line since it was brought in, and unites their masks. */
  ghost predicate Entered(g1: Geometry, gl: Geometry, ps: seq<Piece>, line: nat, use: Use)
    requires UseWf(g1) && UseWf(gl)
  {
    exists i :: InstalledAt(g1, gl, ps, line, i) && use == Use(UsesFrom(g1, ps, line, i), BitsFrom(g1, ps, line, i))
  }

  lemma FromSnoc(g: Geometry, ps: seq<Piece>, q: Piece, line: nat, i: nat)
    requires g.lineSize > 0 && i <= |ps|
    ensures UsesFrom(g, ps + [q], line, i) == UsesFrom(g, ps, line, i) + if OnLine(g, q, line) then 1 else 0
    ensures BitsFrom(g, ps + [q], line, i) == BitsFrom(g, ps, line, i) + if OnLine(g, q, line) then q.mask else {}
  {
    hide OnLine;
    assert (ps + [q])[..|ps|] == ps;
  }

  lemma InstalledSnoc(g1: Geometry, gl: Geometry, ps: seq<Piece>, q: Piece, line: nat, i: nat)
    requires UseWf(g1) && UseWf(gl) && InstalledAt(g1, gl, ps, line, i)
    requires OnLine(g1, q, line) ==> !Fed(g1, gl, ps).Misses(q.addr)
    ensures InstalledAt(g1, gl, ps + [q], line, i)
  {
    hide Fed, OnLine, Geometry.Span, Plain.Misses;
    var r := ps + [q];
    assert r[..i] == ps[..i] && r[i] == ps[i];
    forall j | i < j < |r| && OnLine(g1, r[j], line) ensures !Fed(g1, gl, r[..j]).Misses(r[j].addr) {
      if j < |ps| { assert r[..j] == ps[..j] && r[j] == ps[j]; } else { assert r[..j] == ps; }
    }
  }

  lemma EnteredSnoc(g1: Geometry, gl: Geometry, ps: seq<Piece>, q: Piece, line: nat, use: Use)
    requires UseWf(g1) && UseWf(gl) && Entered(g1, gl, ps, line, use)
    requires OnLine(g1, q, line) ==> !Fed(g1, gl, ps).Misses(q.addr)
    ensures Entered(g1, gl, ps + [q], line, if OnLine(g1, q, line) then Use(use.count + 1, use.mask + q.mask) else use)
  {
    hide InstalledAt, UsesFrom, BitsFrom, OnLine, Fed, Geometry.Span, Plain.Misses;
    var i: nat :| InstalledAt(g1, gl, ps, line, i) && use == Use(UsesFrom(g1, ps, line, i), BitsFrom(g1, ps, line, i));
    assert i < |ps| by { InstalledBefore(g1, gl, ps, line, i); }
    InstalledSnoc(g1, gl, ps, q, line, i);
    FromSnoc(g1, ps, q, line, i);
  }

  lemma InstalledBefore(g1: Geometry, gl: Geometry, ps: seq<Piece>, line: nat, i: nat)
    requires UseWf(g1) && UseWf(gl) && InstalledAt(g1, gl, ps, line, i)
    ensures i < |ps|
  {
  }

  lemma EnteredAt(g1: Geometry, gl: Geometry, ps: seq<Piece>, q: Piece, line: nat)
    requires UseWf(g1) && UseWf(gl) && Fed(g1, gl, ps).Misses(q.addr) && OnLine(g1, q, line)
    ensures Entered(g1, gl, ps + [q], line, Use(1, q.mask))
  {
    hide Fed, Geometry.Span, Plain.Misses, OnLine;
    var r := ps + [q];
    assert r[..|ps|] == ps && r[|ps|] == q;
    assert InstalledAt(g1, gl, r, line, |ps|);
    FromSnoc(g1, ps, q, line, |ps|);
    assert {} + q.mask == q.mask;
  }

  /** The start of a line of this set that the tags tell apart. */
  ghost predicate LineOf(g1: Geometry, blocks: iset<nat>, s: nat, line: nat)
    requires g1.lineSize > 0 && g1.sets > 0
  {
    line == line / g1.lineSize * g1.lineSize && line / g1.lineSize in blocks && SetNo(g1, line) == s
  }

  /** One set's books: every slot in use holds a line of its own, and counts it rightly. */
  ghost predicate Books(g1: Geometry, gl: Geometry, blocks: iset<nat>, ps: seq<Piece>, s: nat, u: UseSet)
    requires UseWf(g1) && UseWf(gl)
  {
    && SetOk(g1, s, u)
    && (forall x :: 0 <= x < g1.assoc && u.loaded[x].memline != 0 ==>
          LineOf(g1, blocks, s, u.loaded[x].memline) && Entered(g1, gl, ps, u.loaded[x].memline, u.use[x]))
    && (forall x, y :: 0 <= x < g1.assoc && 0 <= y < g1.assoc && x != y && u.loaded[x].memline != 0 ==>
          u.loaded[x].memline != u.loaded[y].memline)
  }

  lemma LineTag(g: Geometry, blocks: iset<nat>, s: nat, l: nat, m: nat)
    requires UseWf(g) && Distinguishes(g, blocks) && LineOf(g, blocks, s, l) && (m == 0 || LineOf(g, blocks, s, m))
    requires MaskedTag(g, l) == MaskedTag(g, m)
    ensures l == m
  {
    hide BlockTag, MaskedTag, Geometry.Span;
    FitsToo(g);
    TagOfBlock(g, l);
    TagOfBlock(g, m);
    TagEven(g, 0);
    DivUnique(0, g.lineSize, 0, 0);
  }

  /** The slot a reference uses: on a hit it holds the line already, on a miss no slot does. */
  lemma SlotOfLine(g1: Geometry, gl: Geometry, blocks: iset<nat>, ps: seq<Piece>, s: nat, u: UseSet, line: nat, x: nat)
    requires UseWf(g1) && UseWf(gl) && Distinguishes(g1, blocks) && Books(g1, gl, blocks, ps, s, u)
    requires LineOf(g1, blocks, s, line) && x < g1.assoc
    ensures var (_, slot, hit) := TagStep(g1.Span(), u.words, MaskedTag(g1, line));
            && slot < g1.assoc && (hit ==> u.loaded[slot].memline == line)
            && (line != 0 && x != slot ==> u.loaded[x].memline != line)
            && (line != 0 && !hit ==> u.loaded[x].memline != line)
  {
    hide Geometry.Span, Permuted, MaskedTag, High, Low, Distinguishes, LineOf, Entered;
    var span, tag := g1.Span(), MaskedTag(g1, line);
    var (_, slot, hit) := TagStep(span, u.words, tag);
    var i := Taken(span, u.words, tag);
    SlotInRange(g1, s, u, line);
    PermutedSlots(span, u.words);
    assert RecordOf(g1, s, u, i);
    if hit { LineTag(g1, blocks, s, line, u.loaded[slot].memline); }
    assert x in Slots(span, u.words);
    var j :| 0 <= j < |u.words| && Slots(span, u.words)[j] == x;
    assert RecordOf(g1, s, u, j);
    assert High(span, u.words[j]) == MaskedTag(g1, u.loaded[x].memline);
  }

  /** A reference keeps the books of its set. */
  lemma BooksStep(g1: Geometry, gl: Geometry, blocks: iset<nat>, ps: seq<Piece>, s: nat, u: UseSet, q: Piece, line: nat,
                  loaded: Loaded)
    requires UseWf(g1) && UseWf(gl) && Distinguishes(g1, blocks) && Books(g1, gl, blocks, ps, s, u)
    requires LineOf(g1, blocks, s, line) && OnLine(g1, q, line)
    requires var (_, slot, hit) := TagStep(g1.Span(), u.words, MaskedTag(g1, line));
             && (hit <==> !Fed(g1, gl, ps).Misses(q.addr)) && slot < g1.assoc
             && loaded.memline == line && (hit ==> loaded == u.loaded[slot])
    ensures var (_, slot, hit) := TagStep(g1.Span(), u.words, MaskedTag(g1, line));
            var use := if hit then Use(u.use[slot].count + 1, u.use[slot].mask + q.mask) else Use(1, q.mask);
            Books(g1, gl, blocks, ps + [q], s, Refer(g1, u, MaskedTag(g1, line), use, loaded))
  {
    hide Geometry.Span, Permuted, MaskedTag, TagStep, Distinguishes, Entered, RecordOf, Fed, Plain.Misses, Low, High;
    var (words, slot, hit) := TagStep(g1.Span(), u.words, MaskedTag(g1, line));
    var use := if hit then Use(u.use[slot].count + 1, u.use[slot].mask + q.mask) else Use(1, q.mask);
    var v := Refer(g1, u, MaskedTag(g1, line), use, loaded);
    ReferKeeps(g1, s, u, line, use, loaded);
    hide OnLine, LineOf;
    forall x | 0 <= x < g1.assoc ensures x == slot || (line != 0 ==> u.loaded[x].memline != line) {
      SlotOfLine(g1, gl, blocks, ps, s, u, line, x);
    }
    forall x | 0 <= x < g1.assoc && v.loaded[x].memline != 0
      ensures LineOf(g1, blocks, s, v.loaded[x].memline) && Entered(g1, gl, ps + [q], v.loaded[x].memline, v.use[x])
    {
      if x != slot {
        OtherLine(g1, q, line, u.loaded[x].memline);
        EnteredSnoc(g1, gl, ps, q, u.loaded[x].memline, u.use[x]);
      } else if hit {
        SlotOfLine(g1, gl, blocks, ps, s, u, line, x);
        EnteredSnoc(g1, gl, ps, q, line, u.use[x]);
      } else {
        EnteredAt(g1, gl, ps, q, line);
      }
    }
  }

  lemma OtherLine(g: Geometry, q: Piece, l: nat, m: nat)
    requires g.lineSize > 0 && OnLine(g, q, l) && l != m
    ensures !OnLine(g, q, m)
  {
  }

  /** A reference to another set leaves a set's books as they are. */
  lemma OtherBooks(g1: Geometry, gl: Geometry, blocks: iset<nat>, ps: seq<Piece>, s: nat, u: UseSet, q: Piece)
    requires UseWf(g1) && UseWf(gl) && Books(g1, gl, blocks, ps, s, u) && SetNo(g1, q.addr) != s
    ensures Books(g1, gl, blocks, ps + [q], s, u)
  {
    hide Geometry.Span, Entered, SetOk, Fed, Plain.Misses;
    SetShape(g1, s, u);
    forall x | 0 <= x < g1.assoc && u.loaded[x].memline != 0 ensures Entered(g1, gl, ps + [q], u.loaded[x].memline, u.use[x]) {
      var line := u.loaded[x].memline;
      OffLine(g1, q, line);
      EnteredSnoc(g1, gl, ps, q, line, u.use[x]);
    }
  }

  lemma OffLine(g: Geometry, q: Piece, line: nat)
    requires UseWf(g) && SetNo(g, q.addr) != SetNo(g, line)
    ensures !OnLine(g, q, line)
  {
    hide Geometry.Span;
    DivUnique(q.addr / g.lineSize * g.lineSize, g.lineSize, q.addr / g.lineSize, 0);
  }

  ghost predicate AllBooks(g1: Geometry, gl: Geometry, blocks: iset<nat>, ps: seq<Piece>, l1: seq<UseSet>)
    requires UseWf(g1) && UseWf(gl)
  {
    |l1| == g1.sets && forall s :: 0 <= s < g1.sets ==> Books(g1, gl, blocks, ps, s, l1[s])
  }

  lemma PieceLine(g: Geometry, blocks: iset<nat>, q: Piece)
    requires UseWf(g) && q.addr / g.lineSize in blocks
    ensures var line := MemLine(g, q.addr);
            && OnLine(g, q, line) && LineOf(g, blocks, SetNo(g, q.addr), line)
            && MaskedTag(g, line) == MaskedTag(g, q.addr)
  {
    hide Geometry.Span;
    SameLine(g, q.addr);
    assert q.addr == g.lineSize * (q.addr / g.lineSize) + q.addr % g.lineSize;
    DivUnique(MemLine(g, q.addr), g.lineSize, q.addr / g.lineSize, 0);
  }

  /** Everything known of a state after these pieces. */
  ghost predicate Kept(g1: Geometry, gl: Geometry, b: Apart, ps: seq<Piece>, lv: Levels) {
    Sound(g1, gl, b) && Tracks(g1, gl, b, Fed(g1, gl, ps), lv) && AllBooks(g1, gl, b.first, ps, lv.l1)
  }

  /** One line of a read keeps all books. */
  lemma LineBooks(g1: Geometry, gl: Geometry, b: Apart, ps: seq<Piece>, lv: Levels, q: Piece)
    requires Kept(g1, gl, b, ps, lv) && Covers(g1, gl, b, q.addr)
    ensures Kept(g1, gl, b, ps + [q], LineUse(g1, gl, lv, q.addr, q.mask, q.here).0)
  {
    hide Geometry.Span, Permuted, MaskedTag, TagStep, SetNo, MemLine, Linked, SetOk, UpdateUse, Alike, Distinguishes;
    hide Plain.Feed, Plain.Misses, AllHighs, Books, OnLine, LineOf;
    var s, tag, line, u := SetNo(g1, q.addr), MaskedTag(g1, q.addr), MemLine(g1, q.addr), lv.l1[SetNo(g1, q.addr)];
    assert (ps + [q])[..|ps|] == ps;
    LineTracks(g1, gl, b, Fed(g1, gl, ps), lv, q.addr, q.mask, q.here);
    SetShape(g1, s, u);
    VictimFilled(g1, gl, s, u, q.addr);
    SameLine(g1, q.addr);
    PieceLine(g1, b.first, q);
    SlotOfLine(g1, gl, b.first, ps, s, u, line, 0);
    var (_, slot, hit) := TagStep(g1.Span(), u.words, tag);
    var loaded := if hit then u.loaded[slot] else UpdateUse(gl, lv.ll, u.use[slot], u.loaded[slot], line, q.here).1;
    BooksStep(g1, gl, b.first, ps, s, u, q, line, loaded);
    forall t | 0 <= t < g1.sets && t != s ensures Books(g1, gl, b.first, ps + [q], t, lv.l1[t]) {
      OtherBooks(g1, gl, b.first, ps, t, lv.l1[t], q);
    }
  }

  lemma KeptFacts(g1: Geometry, gl: Geometry, b: Apart, ps: seq<Piece>, lv: Levels)
    requires Kept(g1, gl, b, ps, lv)
    ensures UseInv(g1, gl, lv) && g1.Wf() && gl.Wf()
  {
  }

  lemma ReadBooks(g1: Geometry, gl: Geometry, masks: Masks, b: Apart, ps: seq<Piece>, lv: Levels, m: Access, here: Place)
    requires Kept(g1, gl, b, ps, lv) && UseInv(g1, gl, lv) && g1.Wf() && gl.Wf() && MasksFor(g1, masks) && Told(g1, gl, b, m)
    ensures Kept(g1, gl, b, ps + PiecesOf(g1, masks, m, here), ReadUse(g1, gl, masks, lv, m, here).0)
  {
    hide LineUse, ReadUse, UseInv, Kept;
    var q := PiecesOf(g1, masks, m, here);
    ReadIsPieces(g1, gl, masks, lv, m, here);
    LineBooks(g1, gl, b, ps, lv, q[0]);
    if |q| == 1 {
      assert q == [q[0]];
    } else {
      assert ps + q == ps + [q[0]] + [q[1]];
      LineBooks(g1, gl, b, ps + [q[0]], LineUse(g1, gl, lv, q[0].addr, q[0].mask, here).0, q[1]);
    }
  }

  lemma StartBooks(g1: Geometry, gl: Geometry, masks: Masks, b: Apart)
    requires Sound(g1, gl, b) && MasksFor(g1, masks)
    ensures Kept(g1, gl, b, [], UseRun(g1, gl, masks, []))
  {
    hide SetOk, Tracks, Geometry.Span, Entered, LineOf, Distinguishes;
    StartTracks(g1, gl, masks, b);
    var l1 := UseRun(g1, gl, masks, []).l1;
    forall s | 0 <= s < g1.sets ensures Books(g1, gl, b.first, [], s, l1[s]) { ClearedOk(g1, s); }
  }

  lemma {:induction false} RunBooks(g1: Geometry, gl: Geometry, masks: Masks, b: Apart, steps: seq<Step>)
    requires Sound(g1, gl, b) && MasksFor(g1, masks) && AllTold(g1, gl, b, steps)
    ensures StepsFit(g1, steps)
    ensures Kept(g1, gl, b, Pieces(g1, masks, steps), UseRun(g1, gl, masks, steps))
  {
    hide Distinguishes, ReadUse, Kept, Told, PiecesOf;
    ToldFits(g1, gl, b, steps);
    if steps == [] {
      StartBooks(g1, gl, masks, b);
    } else {
      var k := |steps| - 1;
      RunBooks(g1, gl, masks, b, steps[..k]);
      var lv, ps := UseRun(g1, gl, masks, steps[..k]), Pieces(g1, masks, steps[..k]);
      KeptFacts(g1, gl, b, ps, lv);
      ReadBooks(g1, gl, masks, b, ps, lv, steps[k].access, steps[k].here);
    }
  }

  /** After every run of reads the levels tell apart, each first-level record in use belongs to one
      line, counts the references to it since it was brought in, and holds the union of their masks. */
  lemma RecordsCountUses(g1: Geometry, gl: Geometry, masks: Masks, b: Apart, steps: seq<Step>, s: nat, x: nat)
    requires Sound(g1, gl, b) && MasksFor(g1, masks) && AllTold(g1, gl, b, steps) && s < g1.sets && x < g1.assoc
    ensures StepsFit(g1, steps)
    ensures var ps, u := Pieces(g1, masks, steps), UseRun(g1, gl, masks, steps).l1[s];
            && |u.loaded| == |u.use| == g1.assoc
            && var line := u.loaded[x].memline;
               line != 0 ==>
                 && line / g1.lineSize % g1.sets == s
                 && (forall y :: 0 <= y < g1.assoc && y != x ==> u.loaded[y].memline != line)
                 && exists i :: InstalledAt(g1, gl, ps, line, i) &&
                      u.use[x] == Use(UsesFrom(g1, ps, line, i), BitsFrom(g1, ps, line, i))
  {
    hide Distinguishes, InstalledAt, UsesFrom, BitsFrom, Pieces, Tracks, SetOk;
    RunBooks(g1, gl, masks, b, steps);
    var u := UseRun(g1, gl, masks, steps).l1[s];
    SetShape(g1, s, u);
    assert Books(g1, gl, b.first, Pieces(g1, masks, steps), s, u);
  }

  // ---------------------------------------------------------------- what an eviction does

  ghost predicate HasTag(g: Geometry, words: seq<nat>, tag: nat)
    requires g.Span() > 0
  {
    exists i :: 0 <= i < |words| && High(g.Span(), words[i]) == tag
  }

  /** The slot that the least recently used way of a set points to. */
  function Oldest(g: Geometry, words: seq<nat>): nat
    requires g.Span() > 0 && |words| > 0
  {
    Low(g.Span(), words[|words| - 1])
  }

  lemma StepOf(g: Geometry, s: nat, u: UseSet, a: nat)
    requires SetOk(g, s, u)
    ensures |u.words| > 0 && g.Span() > 0
    ensures var tag := MaskedTag(g, a);
            var (words, slot, hit) := TagStep(g.Span(), u.words, tag);
            && (hit <==> HasTag(g, u.words, tag)) && (!hit ==> slot == Oldest(g, u.words)) && slot < g.assoc
            && |words| > 0 && High(g.Span(), words[0]) == tag && Low(g.Span(), words[0]) == slot
  {
    hide Geometry.Span, Permuted, MaskedTag, High, Low, RecordOf;
    SlotInRange(g, s, u, a);
    MaskedParts(g, a, TagStep(g.Span(), u.words, MaskedTag(g, a)).1);
    var i := UseWay(g.Span(), u.words, MaskedTag(g, a));
    if i < |u.words| { assert High(g.Span(), u.words[i]) == MaskedTag(g, a); }
  }

  lemma MaskedParts(g: Geometry, a: nat, slot: nat)
    requires UseWf(g) && slot < g.assoc
    ensures High(g.Span(), MaskedTag(g, a) + slot) == MaskedTag(g, a) && Low(g.Span(), MaskedTag(g, a) + slot) == slot
  {
    WordParts(g.Span(), a % ADDR_LIMIT / g.Span(), slot);
  }

  /** Last-level slot y of set t takes in the line. */
  ghost predicate Incoming(gl: Geometry, ll: seq<UseSet>, line: nat, t: nat, y: nat)
    requires LevelOk(gl, ll)
  {
    && line != 0 && t == SetNo(gl, line) && !HasTag(gl, ll[t].words, MaskedTag(gl, line))
    && |ll[t].words| > 0 && y == Oldest(gl, ll[t].words)
  }

  /** The last level after a line is looked up in it. */
  lemma LookedUp(gl: Geometry, ll: seq<UseSet>, line: nat, here: Place, t: nat, y: nat)
    requires LevelOk(gl, ll) && line != 0 && t < gl.sets && y < gl.assoc
    ensures var r := LLAccess(gl, ll, line, here);
            && UseShape(gl, ll[t]) && UseShape(gl, r.0[t])
            && (Incoming(gl, ll, line, t, y) ==>
                  r.0[t].use[y] == Use(0, {}) && r.0[t].loaded[y] == Loaded(line, here.base, ll[t].loaded[y].dep))
            && (!Incoming(gl, ll, line, t, y) ==> r.0[t].use[y] == ll[t].use[y] && r.0[t].loaded[y] == ll[t].loaded[y])
            && r.1.0 == SetNo(gl, line) && |r.0[r.1.0].words| > 0
            && High(gl.Span(), r.0[r.1.0].words[0]) == MaskedTag(gl, line) && Low(gl.Span(), r.0[r.1.0].words[0]) == r.1.1
  {
    hide Geometry.Span, Permuted, MaskedTag, TagStep, SetNo, RecordOf, High, Low, HasTag, Oldest;
    var s := SetNo(gl, line);
    SetShape(gl, s, ll[s]);
    SetShape(gl, t, ll[t]);
    SlotInRange(gl, s, ll[s], line);
    StepOf(gl, s, ll[s], line);
  }

  /** What a line of a read does to the records.  A line that is present in the first level leaves
      the last level alone.  Otherwise the least recently used slot starts a new count; what it had
      counted for another line is added to the last-level record that line came from, if costs are
      collected, and the incoming line is linked to its own last-level slot, which starts at zero if
      the line was not there.  No other last-level record changes. */
  lemma EvictionCharged(g1: Geometry, gl: Geometry, lv: Levels, q: Piece, t: nat, y: nat)
    requires g1.Wf() && gl.Wf() && UseInv(g1, gl, lv) && t < gl.sets && y < gl.assoc
    ensures EvictionLaw(g1, gl, lv, LineUse(g1, gl, lv, q.addr, q.mask, q.here).0, q, t, y)
  {
    hide Geometry.Span, Permuted, MaskedTag, TagStep, SetNo, MemLine, Linked, SetOk, UpdateUse, HasTag, Oldest, Replaced;
    hide LevelOk, AllLinked, LineUse;
    var s := SetNo(g1, q.addr);
    LevelFacts(g1, lv.l1, s);
    LevelFacts(gl, lv.ll, t);
    var u := lv.l1[s];
    SetShape(g1, s, u);
    LinkedFacts(g1, gl, lv, s);
    VictimFilled(g1, gl, s, u, q.addr);
    StepOf(g1, s, u, q.addr);
    LineStart(g1, q.addr);
    SetOfAddress(g1, q.addr);
    LineUseParts(g1, gl, lv, q.addr, q.mask, q.here);
    var (_, slot, hit) := TagStep(g1.Span(), u.words, MaskedTag(g1, q.addr));
    if !hit { UpdateReplaces(gl, lv.ll, u.use[slot], u.loaded[slot], MemLine(g1, q.addr), q, t, y); }
  }

  /** The law, for one first-level set and one last-level slot. */
  ghost predicate EvictionLaw(g1: Geometry, gl: Geometry, lv: Levels, after: Levels, q: Piece, t: nat, y: nat)
    requires g1.Wf() && gl.Wf() && UseInv(g1, gl, lv) && UseInv(g1, gl, after) && t < gl.sets && y < gl.assoc
  {
    hide SetOk, LevelOk, AllLinked, Linked, Geometry.Span, Replaced, HasTag, Oldest, MaskedTag;
    var line, s := q.addr / g1.lineSize * g1.lineSize, q.addr / g1.lineSize % g1.sets;
    LevelFacts(g1, lv.l1, s);
    LevelFacts(g1, after.l1, s);
    var u, w := lv.l1[s], after.l1[s];
    SetShape(g1, s, u);
    SetShape(g1, s, w);
    && |u.words| == |u.use| == |u.loaded| == |w.use| == |w.loaded| == g1.assoc
    && (HasTag(g1, u.words, MaskedTag(g1, q.addr)) ==> after.ll == lv.ll)
    && (!HasTag(g1, u.words, MaskedTag(g1, q.addr)) ==>
          var v := Oldest(g1, u.words);
          v < g1.assoc && Replaced(gl, lv.ll, after.ll, u.use[v], u.loaded[v], w.use[v], w.loaded[v], line, q, t, y))
  }

  lemma LineUseParts(g1: Geometry, gl: Geometry, lv: Levels, a: nat, mask: set<nat>, here: Place)
    requires UseInv(g1, gl, lv) && g1.lineSize > 0 && g1.sets > 0 && g1.Span() > 0
    ensures var s, tag, line := SetNo(g1, a), MaskedTag(g1, a), MemLine(g1, a);
            var r, u := LineUse(g1, gl, lv, a, mask, here).0, lv.l1[s];
            && |u.words| > 0
            && var (_, slot, hit) := TagStep(g1.Span(), u.words, tag);
            && slot < |u.use| == |u.loaded| == |r.l1[s].use| == |r.l1[s].loaded|
            && (hit ==> r.ll == lv.ll)
            && (!hit ==>
                  && LevelOk(gl, lv.ll) && Linked(gl, u.loaded[slot]) && (line == 0 ==> u.loaded[slot].dep.Some?)
                  && var n := UpdateUse(gl, lv.ll, u.use[slot], u.loaded[slot], line, here);
                     r.ll == n.0 && r.l1[s].use[slot] == Use(1, mask) && r.l1[s].loaded[slot] == n.1)
  {
    hide Geometry.Span, Permuted, MaskedTag, TagStep, SetNo, MemLine, Linked, SetOk, UpdateUse;
    var s, u := SetNo(g1, a), lv.l1[SetNo(g1, a)];
    SetShape(g1, s, u);
    VictimFilled(g1, gl, s, u, a);
    SameLine(g1, a);
  }

  lemma SetOfAddress(g: Geometry, a: nat)
    requires g.lineSize > 0 && g.sets > 0
    ensures SetNo(g, a) == a / g.lineSize % g.sets
  {
  }

  lemma LineStart(g: Geometry, a: nat)
    requires g.lineSize > 0
    ensures MemLine(g, a) == a / g.lineSize * g.lineSize
  {
    assert a == g.lineSize * (a / g.lineSize) + a % g.lineSize;
  }

  lemma LevelFacts(g: Geometry, sets: seq<UseSet>, s: nat)
    requires LevelOk(g, sets) && s < g.sets
    ensures UseWf(g) && g.lineSize > 0 && g.sets > 0 && g.Span() > 0 && |sets| == g.sets && SetOk(g, s, sets[s])
  {
  }

  lemma LinkedFacts(g1: Geometry, gl: Geometry, lv: Levels, s: nat)
    requires UseInv(g1, gl, lv) && s < g1.sets
    ensures |lv.l1| == g1.sets && forall x :: 0 <= x < |lv.l1[s].loaded| ==> Linked(gl, lv.l1[s].loaded[x])
  {
  }

  /** From a record in use for one line to a record for another, and one last-level slot meanwhile. */
  ghost predicate Replaced(gl: Geometry, ll: seq<UseSet>, after: seq<UseSet>, oldUse: Use, oldLine: Loaded, newUse: Use,
                           newLine: Loaded, line: nat, q: Piece, t: nat, y: nat)
    requires LevelOk(gl, ll) && LevelOk(gl, after) && t < gl.sets && y < gl.assoc
  {
    var charged := oldUse.count > 0 && q.here.collect && oldLine.base.Some? && oldLine.dep == SortedList.Some((t, y));
    && newUse == Use(1, q.mask) && newLine.memline == line && newLine.base == q.here.base
    && UseShape(gl, ll[t]) && UseShape(gl, after[t])
    && (Incoming(gl, ll, line, t, y) ==>
          after[t].use[y] == Use(0, {}) && after[t].loaded[y].memline == line && after[t].loaded[y].base == q.here.base)
    && (!Incoming(gl, ll, line, t, y) ==>
          && after[t].loaded[y] == ll[t].loaded[y]
          && after[t].use[y] == if charged then Use(ll[t].use[y].count + oldUse.count, ll[t].use[y].mask + oldUse.mask)
                                else ll[t].use[y])
    && (line == 0 ==> newLine.dep == oldLine.dep)
    && (line != 0 ==>
          && |after[SetNo(gl, line)].words| > 0
          && newLine.dep == SortedList.Some((SetNo(gl, line), Low(gl.Span(), after[SetNo(gl, line)].words[0])))
          && High(gl.Span(), after[SetNo(gl, line)].words[0]) == MaskedTag(gl, line))
  }

  lemma UpdateReplaces(gl: Geometry, ll: seq<UseSet>, old_: Use, ld: Loaded, line: nat, q: Piece, t: nat, y: nat)
    requires LevelOk(gl, ll) && Linked(gl, ld) && (line == 0 ==> ld.dep.Some?) && t < gl.sets && y < gl.assoc
    ensures var r := UpdateUse(gl, ll, old_, ld, line, q.here);
            Replaced(gl, ll, r.0, old_, ld, Use(1, q.mask), r.1, line, q, t, y)
  {
    hide Geometry.Span, Permuted, MaskedTag, SetNo, SetOk, High, Low, Oldest, LLAccess, Incoming, Charge;
    var charges := old_.count > 0 && q.here.collect && ld.base.Some?;
    var charged := if charges then Charge(gl, ll, ld.dep.value, old_) else ll;
    SetShape(gl, t, ll[t]);
    if charges { ChargedRecord(gl, ll, ld.dep.value, old_, line, t, y); }
    if line != 0 { LookedUp(gl, charged, line, q.here, t, y); } else { NotIncoming(gl, ll, t, y); }
  }

  lemma NotIncoming(gl: Geometry, ll: seq<UseSet>, t: nat, y: nat)
    requires LevelOk(gl, ll)
    ensures !Incoming(gl, ll, 0, t, y)
  {
  }

  lemma ChargedRecord(g: Geometry, ll: seq<UseSet>, dep: (nat, nat), use: Use, line: nat, t: nat, y: nat)
    requires LevelOk(g, ll) && dep.0 < g.sets && dep.1 < g.assoc && t < g.sets && y < g.assoc
    ensures var c := Charge(g, ll, dep, use);
            && UseShape(g, ll[t]) && UseShape(g, c[t])
            && c[t].loaded[y] == ll[t].loaded[y]
            && c[t].use[y] == (if dep == (t, y) then Use(ll[t].use[y].count + use.count, ll[t].use[y].mask + use.mask)
                               else ll[t].use[y])
            && (Incoming(g, c, line, t, y) <==> Incoming(g, ll, line, t, y))
  {
    hide Geometry.Span, Permuted, MaskedTag, SetNo, RecordOf, High, Low, Oldest, HasTag;
    SetShape(g, t, ll[t]);
  }
}
