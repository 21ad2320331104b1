/** Callgrind's write-back cache (callgrind/sim.c): the dirty flag of a line is bit 0 of its tag.

The reference is a cache of lines with an explicit flag.  The plain cache of `Lru` and the
tag words with flags are both encodings of it, as long as no reference has tag 0, the mark of
an empty way, and no address exceeds the 32 bits the tag mask keeps. */
module WriteBack {
  import opened Lru

  datatype Result = Hit | Miss | MissDirty
  datatype Line = Line(block: nat, dirty: bool)

  function Bit(b: bool): nat { if b then 1 else 0 }

  // ---------------------------------------------------------------- the reference

  /** The first way holding a block; the number of lines if there is none. */
  function Way(lines: seq<Line>, block: nat): (i: nat)
    ensures i <= |lines|
    ensures i < |lines| ==> lines[i].block == block
    ensures forall k :: 0 <= k < i ==> lines[k].block != block
  {
    if lines == [] || lines[0].block == block then 0 else 1 + Way(lines[1..], block)
  }

  function Access(lines: seq<Line>, assoc: nat, block: nat, isWrite: bool): (r: (seq<Line>, Result))
    requires |lines| <= assoc && assoc > 0
    ensures 0 < |r.0| <= assoc && r.0[0].block == block
  {
    var i := Way(lines, block);
    if i < |lines| then ([Line(block, lines[i].dirty || isWrite)] + lines[..i] + lines[i + 1..], Hit)
    else if |lines| < assoc then ([Line(block, isWrite)] + lines, Miss)
    else ([Line(block, isWrite)] + lines[..assoc - 1], if lines[assoc - 1].dirty then MissDirty else Miss)
  }

  // ---------------------------------------------------------------- what the flag means

  datatype Ref = Ref(block: nat, isWrite: bool)

  /** The lines of one set after a trace of references to it. */
  function Lines(trace: seq<Ref>, assoc: nat): (r: seq<Line>)
    requires assoc > 0
    ensures |r| <= assoc
  {
    if trace == [] then []
    else
      var last := trace[|trace| - 1];
      Access(Lines(trace[..|trace| - 1], assoc), assoc, last.block, last.isWrite).0
  }

  predicate Holds(lines: seq<Line>, block: nat) { Way(lines, block) < |lines| }

  /** When the copy of a block now in the set was brought in: the last reference that missed. */
  function Installed(trace: seq<Ref>, assoc: nat, block: nat): (i: nat)
    requires assoc > 0
    ensures i <= |trace|
  {
    if trace == [] then 0
    else
      var n := |trace| - 1;
      if trace[n].block == block && !Holds(Lines(trace[..n], assoc), block) then n
      else Installed(trace[..n], assoc, block)
  }

  ghost predicate WrittenSince(trace: seq<Ref>, from: nat, block: nat) {
    exists i :: from <= i < |trace| && trace[i] == Ref(block, true)
  }

  lemma AccessKeepsOthers(lines: seq<Line>, assoc: nat, block: nat, isWrite: bool, k: nat)
    requires |lines| <= assoc && assoc > 0 && 0 < k < |Access(lines, assoc, block, isWrite).0|
    requires forall i, j :: 0 <= i < j < |lines| ==> lines[i].block != lines[j].block
    ensures var l := Access(lines, assoc, block, isWrite).0[k]; l in lines && l.block != block
  {
  }

  lemma {:induction false} LinesDistinct(trace: seq<Ref>, assoc: nat)
    requires assoc > 0
    ensures forall i, j :: 0 <= i < j < |Lines(trace, assoc)| ==> Lines(trace, assoc)[i].block != Lines(trace, assoc)[j].block
  {
    if trace != [] {
      LinesDistinct(trace[..|trace| - 1], assoc);
      var last := trace[|trace| - 1];
      AccessDistinct(Lines(trace[..|trace| - 1], assoc), assoc, last.block, last.isWrite);
    }
  }

  lemma AccessDistinct(lines: seq<Line>, assoc: nat, block: nat, isWrite: bool)
    requires |lines| <= assoc && assoc > 0
    requires forall i, j :: 0 <= i < j < |lines| ==> lines[i].block != lines[j].block
    ensures var r := Access(lines, assoc, block, isWrite).0;
            forall i, j :: 0 <= i < j < |r| ==> r[i].block != r[j].block
  {
  }

  lemma WrittenSnoc(trace: seq<Ref>, from: nat, block: nat)
    requires trace != [] && from < |trace|
    ensures WrittenSince(trace, from, block) <==>
            WrittenSince(trace[..|trace| - 1], from, block) || trace[|trace| - 1] == Ref(block, true)
  {
    var n := |trace| - 1;
    if WrittenSince(trace, from, block) && trace[n] != Ref(block, true) {
      var i :| from <= i < |trace| && trace[i] == Ref(block, true);
      assert trace[..n][i] == Ref(block, true);
    }
    if WrittenSince(trace[..n], from, block) {
      var i :| from <= i < n && trace[..n][i] == Ref(block, true);
      assert trace[i] == Ref(block, true);
    }
  }

  /** A line is flagged exactly when it has been written since it was brought in. */
  lemma {:induction false} DirtyMeansWritten(trace: seq<Ref>, assoc: nat, k: nat)
    requires assoc > 0 && k < |Lines(trace, assoc)|
    ensures var l := Lines(trace, assoc)[k];
            Installed(trace, assoc, l.block) < |trace| &&
            (l.dirty <==> WrittenSince(trace, Installed(trace, assoc, l.block), l.block))
  {
    var n := |trace| - 1;
    var before, last := trace[..n], trace[n];
    var old_ := Lines(before, assoc);
    var l := Lines(trace, assoc)[k];
    LinesDistinct(before, assoc);
    if k == 0 {
      var i := Way(old_, last.block);
      if i < |old_| {
        DirtyMeansWritten(before, assoc, i);
        WrittenSnoc(trace, Installed(trace, assoc, l.block), l.block);
      } else {
        assert Installed(trace, assoc, l.block) == n;
        WrittenSnoc(trace, n, l.block);
        assert !WrittenSince(before, n, l.block);
      }
    } else {
      AccessKeepsOthers(old_, assoc, last.block, last.isWrite, k);
      var j :| 0 <= j < |old_| && old_[j] == l;
      DirtyMeansWritten(before, assoc, j);
      WrittenSnoc(trace, Installed(trace, assoc, l.block), l.block);
    }
  }

  /** A miss is reported dirty exactly when the line pushed out had been written since it was
      brought in. */
  lemma MissDirtyMeansWritten(trace: seq<Ref>, assoc: nat, block: nat, isWrite: bool)
    requires assoc > 0
    ensures var lines := Lines(trace, assoc);
            Access(lines, assoc, block, isWrite).1 == MissDirty <==>
              && !Holds(lines, block) && |lines| == assoc
              && WrittenSince(trace, Installed(trace, assoc, lines[assoc - 1].block), lines[assoc - 1].block)
  {
    var lines := Lines(trace, assoc);
    if |lines| == assoc { DirtyMeansWritten(trace, assoc, assoc - 1); }
  }

  // ---------------------------------------------------------------- tag words

  function Clear(x: nat): nat { x - x % 2 }
  predicate Flag(x: nat) { x % 2 == 1 }
  function Mark(x: nat, isWrite: bool): nat { Clear(x) + Bit(Flag(x) || isWrite) }

  /** The first way whose tag matches, flag aside; the number of ways if there is none. */
  function WbWay(ways: seq<nat>, tag: nat): (i: nat)
    ensures i <= |ways|
    ensures i < |ways| ==> Clear(ways[i]) == tag
    ensures forall k :: 0 <= k < i ==> Clear(ways[k]) != tag
  {
    if ways == [] || Clear(ways[0]) == tag then 0 else 1 + WbWay(ways[1..], tag)
  }

  /** cachesim_setref_wb on one set. */
  function TouchWb(ways: seq<nat>, tag: nat, isWrite: bool): (r: (seq<nat>, Result))
    requires |ways| > 0
    ensures |r.0| == |ways|
  {
    var i := WbWay(ways, tag);
    if i < |ways| then ([Mark(ways[i], isWrite)] + ways[..i] + ways[i + 1..], Hit)
    else ([tag + Bit(isWrite)] + ways[..|ways| - 1], if Flag(ways[|ways| - 1]) then MissDirty else Miss)
  }

  /** Sets and line size; one tag spans `sets * lineSize` bytes. */
  datatype Geometry = Geometry(lineSize: nat, sets: nat, assoc: nat) {
    function Span(): nat { lineSize * sets }

    ghost predicate Wf() { lineSize > 0 && sets > 0 && assoc > 0 && Span() % 2 == 0 }

    /** The tag word of a block. */
    function Tag(block: nat): nat
      requires sets > 0
    {
      (block / sets) * Span()
    }
  }

  lemma MulEven(k: nat, span: nat)
    requires span % 2 == 0
    ensures (k * span) % 2 == 0
  {
    var h := span / 2;
    assert k * span == 2 * (k * h);
  }

  lemma MulOrder(j: nat, k: nat, span: nat)
    requires span > 0
    ensures j < k ==> j * span < k * span
  {
    if j < k {
      Multiple(span, k - j);
      assert k * span == j * span + span * (k - j);
    }
  }

  lemma MulInjective(j: nat, k: nat, span: nat)
    requires span > 0 && j * span == k * span
    ensures j == k
  {
    MulOrder(j, k, span);
    MulOrder(k, j, span);
  }

  lemma DivModEqual(b: nat, c: nat, n: nat)
    requires n > 0 && b % n == c % n && b / n == c / n
    ensures b == c
  {
    assert b == n * (b / n) + b % n;
    assert c == n * (c / n) + c % n;
  }

  /** Within a set the tag word determines the block; it is even, and zero only for the blocks
      of the first `Span()` bytes. */
  lemma TagFacts(g: Geometry, b: nat, c: nat)
    requires g.Wf() && b % g.sets == c % g.sets
    ensures g.Tag(b) % 2 == 0
    ensures g.Tag(b) == g.Tag(c) ==> b == c
    ensures g.Tag(b) == 0 <==> b < g.sets
  {
    hide Geometry.Span;
    var p, q, span := b / g.sets, c / g.sets, g.Span();
    SpanPositive(g);
    MulEven(p, span);
    assert g.Tag(b) == g.Tag(c) ==> b == c by {
      if p * span == q * span {
        MulInjective(p, q, span);
        DivModEqual(b, c, g.sets);
      }
    }
    assert p == 0 <==> b < g.sets by { DivZero(b, g.sets); }
    if p > 0 { Multiple(span, p); }
  }

  lemma DivZero(b: nat, n: nat)
    requires n > 0
    ensures b / n == 0 <==> b < n
  {
    if b < n { DivUnique(b, n, 0, b); }
  }

  lemma SpanPositive(g: Geometry)
    requires g.lineSize > 0 && g.sets > 0
    ensures g.Span() > 0
  {
    Multiple(g.lineSize, g.sets);
  }

  // ---------------------------------------------------------------- the two encodings

  /** Blocks that map to set `s` and are told apart from an empty way. */
  ghost predicate InSet(g: Geometry, lines: seq<Line>, s: nat) {
    g.Wf() && |lines| <= g.assoc && forall i :: 0 <= i < |lines| ==> lines[i].block % g.sets == s && lines[i].block >= g.sets
  }

  function Word(g: Geometry, l: Line): nat
    requires g.sets > 0
  {
    g.Tag(l.block) + Bit(l.dirty)
  }

  /** The tag words of a set, empty ways zero. */
  ghost function Words(g: Geometry, lines: seq<Line>): (r: seq<nat>)
    requires g.Wf() && |lines| <= g.assoc
    ensures |r| == g.assoc
    ensures forall i :: 0 <= i < g.assoc ==> r[i] == if i < |lines| then Word(g, lines[i]) else 0
  {
    seq(g.assoc, i requires 0 <= i < g.assoc => if i < |lines| then Word(g, lines[i]) else 0)
  }

  /** The blocks of a set, empty ways zero: the plain cache's tags. */
  ghost function Blocks(g: Geometry, lines: seq<Line>): (r: seq<nat>)
    requires |lines| <= g.assoc
    ensures |r| == g.assoc
    ensures forall i :: 0 <= i < g.assoc ==> r[i] == if i < |lines| then lines[i].block else 0
  {
    seq(g.assoc, i requires 0 <= i < g.assoc => if i < |lines| then lines[i].block else 0)
  }

  lemma AccessInSet(g: Geometry, lines: seq<Line>, s: nat, block: nat, isWrite: bool)
    requires InSet(g, lines, s) && block % g.sets == s && block >= g.sets
    ensures InSet(g, Access(lines, g.assoc, block, isWrite).0, s)
  {
  }

  lemma WordFacts(g: Geometry, l: Line, block: nat)
    requires g.Wf() && l.block % g.sets == block % g.sets
    ensures Clear(Word(g, l)) == g.Tag(l.block) && (Flag(Word(g, l)) <==> l.dirty)
    ensures Clear(Word(g, l)) == g.Tag(block) <==> l.block == block
  {
    TagFacts(g, l.block, block);
  }

  /** The search over tag words finds the way the search over lines finds. */
  lemma SameWay(g: Geometry, lines: seq<Line>, s: nat, block: nat)
    requires InSet(g, lines, s) && block % g.sets == s && block >= g.sets
    ensures WbWay(Words(g, lines), g.Tag(block)) == if Holds(lines, block) then Way(lines, block) else g.assoc
  {
    hide Word, Clear;
    var ways, tag := Words(g, lines), g.Tag(block);
    TagFacts(g, block, block);
    forall k | 0 <= k < g.assoc ensures Clear(ways[k]) == tag <==> k < |lines| && lines[k].block == block {
      if k < |lines| { WordFacts(g, lines[k], block); } else { ClearZero(); }
    }
  }

  lemma ClearZero()
    ensures Clear(0) == 0 && !Flag(0)
  {
  }

  lemma WordsHit(g: Geometry, lines: seq<Line>, i: nat, isWrite: bool)
    requires g.Wf() && |lines| <= g.assoc && i < |lines|
    ensures var ways := Words(g, lines);
            [Mark(ways[i], isWrite)] + ways[..i] + ways[i + 1..] ==
            Words(g, [Line(lines[i].block, lines[i].dirty || isWrite)] + lines[..i] + lines[i + 1..])
  {
    hide Word, Mark;
    MarkWord(g, lines[i], isWrite);
  }

  lemma WordsMiss(g: Geometry, lines: seq<Line>, block: nat, isWrite: bool)
    requires g.Wf() && |lines| <= g.assoc
    ensures var ways, l := Words(g, lines), Line(block, isWrite);
            [g.Tag(block) + Bit(isWrite)] + ways[..g.assoc - 1] ==
            Words(g, if |lines| < g.assoc then [l] + lines else [l] + lines[..g.assoc - 1])
  {
    hide Word, Words, Bit, Mark, Geometry.Span, Geometry.Tag;
    var ls := if |lines| < g.assoc then [Line(block, isWrite)] + lines else [Line(block, isWrite)] + lines[..g.assoc - 1];
    MarkWord(g, Line(block, false), isWrite);
    var w := [g.Tag(block) + Bit(isWrite)] + Words(g, lines)[..g.assoc - 1];
    forall k | 0 <= k < g.assoc ensures w[k] == Words(g, ls)[k] {
      if k > 0 { assert w[k] == Words(g, lines)[k - 1]; }
    }
  }

  /** The tag words after a reference are those of the reference's lines, and the reported
      results agree. */
  lemma WordsRefine(g: Geometry, lines: seq<Line>, s: nat, block: nat, isWrite: bool)
    requires InSet(g, lines, s) && block % g.sets == s && block >= g.sets
    ensures var r := Access(lines, g.assoc, block, isWrite);
            TouchWb(Words(g, lines), g.Tag(block), isWrite) == (Words(g, r.0), r.1)
  {
    hide Word, Clear, Flag, Mark, Geometry.Tag, Geometry.Span, Words, WbWay;
    SameWay(g, lines, s, block);
    var i := Way(lines, block);
    if i < |lines| {
      WordsHit(g, lines, i, isWrite);
    } else {
      WordsMiss(g, lines, block, isWrite);
      LastFlag(g, lines, s);
    }
  }

  lemma LastFlag(g: Geometry, lines: seq<Line>, s: nat)
    requires InSet(g, lines, s)
    ensures Flag(Words(g, lines)[g.assoc - 1]) <==> |lines| == g.assoc && lines[g.assoc - 1].dirty
  {
    if |lines| == g.assoc { WordFacts(g, lines[g.assoc - 1], lines[g.assoc - 1].block); }
  }

  lemma MarkWord(g: Geometry, l: Line, isWrite: bool)
    requires g.Wf()
    ensures Mark(Word(g, l), isWrite) == Word(g, Line(l.block, l.dirty || isWrite))
    ensures Word(g, Line(l.block, isWrite)) == g.Tag(l.block) + Bit(isWrite)
  {
    WordFacts(g, l, l.block);
  }

  lemma BlocksHit(g: Geometry, lines: seq<Line>, i: nat, dirty: bool)
    requires |lines| <= g.assoc && i < |lines| && forall k :: 0 <= k < i ==> lines[k].block != lines[i].block
    ensures var ways, block := Blocks(g, lines), lines[i].block;
            block in ways && Touch(ways, block) == Blocks(g, [Line(block, dirty)] + lines[..i] + lines[i + 1..])
  {
    hide Blocks;
    var ways, block := Blocks(g, lines), lines[i].block;
    IndexUnique(ways, block, i);
    var a, b := [block] + ways[..i] + ways[i + 1..], [Line(block, dirty)] + lines[..i] + lines[i + 1..];
    forall k | 0 <= k < g.assoc ensures a[k] == Blocks(g, b)[k] {
      if k < |lines| { assert b[k] == if k == 0 then Line(block, dirty) else if k <= i then lines[k - 1] else lines[k]; }
    }
    assert a == Blocks(g, b);
  }

  lemma BlocksMiss(g: Geometry, lines: seq<Line>, block: nat, dirty: bool)
    requires |lines| <= g.assoc && g.assoc > 0 && block > 0 && forall k :: 0 <= k < |lines| ==> lines[k].block != block
    ensures var ways, l := Blocks(g, lines), Line(block, dirty);
            && block !in ways
            && Touch(ways, block) == Blocks(g, if |lines| < g.assoc then [l] + lines else [l] + lines[..g.assoc - 1])
  {
    var ways, l := Blocks(g, lines), Line(block, dirty);
    assert block !in ways;
    var next := if |lines| < g.assoc then [l] + lines else [l] + lines[..g.assoc - 1];
    assert [block] + ways[..g.assoc - 1] == Blocks(g, next);
  }

  /** The plain cache after the same reference holds the blocks of the reference's lines, and
      hits exactly when it does. */
  lemma BlocksRefine(g: Geometry, lines: seq<Line>, s: nat, block: nat, isWrite: bool)
    requires InSet(g, lines, s) && block % g.sets == s && block >= g.sets
    ensures var r := Access(lines, g.assoc, block, isWrite);
            && Touch(Blocks(g, lines), block) == Blocks(g, r.0)
            && (block in Blocks(g, lines) <==> r.1 == Hit)
  {
    hide Touch, Blocks;
    var i := Way(lines, block);
    if i < |lines| {
      BlocksHit(g, lines, i, lines[i].dirty || isWrite);
    } else {
      BlocksMiss(g, lines, block, isWrite);
    }
  }

  // ---------------------------------------------------------------- whole caches

  const ADDR_LIMIT: nat := 0x1_0000_0000

  /** A data reference. */
  datatype MemRef = MemRef(addr: nat, size: nat, isWrite: bool)

  /** `a & tag_mask`: the mask is computed in 32 bits, so higher address bits are lost. */
  function MaskedTag(g: Geometry, a: nat): nat
    requires g.lineSize > 0 && g.sets > 0
  {
    SpanPositive(g);
    (a % ADDR_LIMIT / g.Span()) * g.Span()
  }

  function Join(r1: Result, r2: Result): Result {
    if r1 == MissDirty || r2 == MissDirty then MissDirty
    else if r1 == Miss || r2 == Miss then Miss
    else Hit
  }

  ghost predicate WbShape(g: Geometry, ways: seq<seq<nat>>) {
    g.Wf() && |ways| == g.sets && forall i :: 0 <= i < |ways| ==> |ways[i]| == g.assoc
  }

  function WbSet(ways: seq<seq<nat>>, set_: nat, tag: nat, isWrite: bool): (r: (seq<seq<nat>>, Result))
    requires set_ < |ways| && |ways[set_]| > 0
  {
    var t := TouchWb(ways[set_], tag, isWrite);
    (ways[set_ := t.0], t.1)
  }

  /** The set an address maps to. */
  function SetNo(g: Geometry, a: nat): (s: nat)
    requires g.lineSize > 0 && g.sets > 0
    ensures s < g.sets
  {
    a / g.lineSize % g.sets
  }

  /** cachesim_ref_wb.  The source compares set numbers, not blocks. */
  ghost function RefWb(g: Geometry, ways: seq<seq<nat>>, m: MemRef): (r: (seq<seq<nat>>, Result))
    requires WbShape(g, ways) && m.size >= 1
    ensures WbShape(g, r.0)
  {
    var set1, set2 := SetNo(g, m.addr), SetNo(g, m.addr + m.size - 1);
    if set1 == set2 then WbSet(ways, set1, MaskedTag(g, m.addr), m.isWrite)
    else
      var r1 := WbSet(ways, set1, MaskedTag(g, m.addr), m.isWrite);
      var r2 := WbSet(r1.0, set2, MaskedTag(g, m.addr + m.size - 1), m.isWrite);
      (r2.0, Join(r1.1, r2.1))
  }

  /** References the encoding is faithful for. */
  predicate InRange(g: Geometry, m: MemRef) {
    1 <= m.size <= g.lineSize && g.Span() <= m.addr && m.addr + m.size <= ADDR_LIMIT
  }

  ghost predicate LinesOk(g: Geometry, ls: seq<seq<Line>>) {
    g.Wf() && g.sets >= 2 && |ls| == g.sets && forall s :: 0 <= s < g.sets ==> InSet(g, ls[s], s)
  }

  /** One block of a reference against the cache of flagged lines. */
  ghost function LineRef(g: Geometry, ls: seq<seq<Line>>, block: nat, isWrite: bool): (r: (seq<seq<Line>>, Result))
    requires LinesOk(g, ls) && block >= g.sets
    ensures LinesOk(g, r.0)
  {
    var s := block % g.sets;
    AccessInSet(g, ls[s], s, block, isWrite);
    var a := Access(ls[s], g.assoc, block, isWrite);
    (ls[s := a.0], a.1)
  }

  ghost function LinesRef(g: Geometry, ls: seq<seq<Line>>, m: MemRef): (r: (seq<seq<Line>>, Result))
    requires LinesOk(g, ls) && InRange(g, m)
    ensures LinesOk(g, r.0)
  {
    BlockFacts(g, m.addr, m.size);
    var b1, b2 := m.addr / g.lineSize, (m.addr + m.size - 1) / g.lineSize;
    if b1 == b2 then LineRef(g, ls, b1, m.isWrite)
    else
      var r1 := LineRef(g, ls, b1, m.isWrite);
      var r2 := LineRef(g, r1.0, b2, m.isWrite);
      (r2.0, Join(r1.1, r2.1))
  }

  lemma Nested(m: nat, n: nat, p: nat, t: nat, r: nat)
    requires r < m && t < n
    ensures m * (n * p + t) + r == (m * n) * p + (m * t + r)
    ensures m * t + r < m * n
  {
    Distribute(m, n * p, t);
    Assoc(m, n, p);
    Distribute(m, t, n - t);
    Multiple(m, n - t);
  }

  lemma Distribute(a: nat, b: nat, c: nat)
    ensures a * (b + c) == a * b + a * c
  {
  }

  lemma Assoc(a: nat, b: nat, c: nat)
    ensures a * (b * c) == (a * b) * c
  {
  }

  lemma NestedDiv(a: nat, m: nat, n: nat, q: nat, r: nat, p: nat, t: nat)
    requires a == m * q + r && q == n * p + t && r < m && t < n
    ensures m * n > 0 && a / (m * n) == p
  {
    Nested(m, n, p, t, r);
    DivUnique(a, m * n, p, m * t + r);
  }

  lemma DivTwice(a: nat, m: nat, n: nat)
    requires m > 0 && n > 0
    ensures m * n > 0 && a / (m * n) == a / m / n
  {
    NestedDiv(a, m, n, a / m, a % m, a / m / n, a / m % n);
  }

  /** The first block is past the ambiguous ones, the second is the same or the next. */
  lemma BlockFacts(g: Geometry, a: nat, size: nat)
    requires g.Wf() && 1 <= size <= g.lineSize && g.Span() <= a
    ensures var b1, b2 := a / g.lineSize, (a + size - 1) / g.lineSize;
            g.sets <= b1 <= b2 <= b1 + 1
  {
    var c := Cache(g.lineSize, [[0]]);
    assert c.Wf();
    AtMostTwoBlocks(c, a, size);
    assert a / g.lineSize >= g.sets by {
      var q := a / g.lineSize;
      assert a == g.lineSize * q + a % g.lineSize;
      if q < g.sets {
        MulMonotone(g.lineSize, q + 1, g.sets);
      }
    }
  }

  lemma MulMonotone(m: nat, j: nat, k: nat)
    requires j <= k
    ensures m * j <= m * k
  {
    assert m * k == m * j + m * (k - j);
  }

  lemma MaskedIsTag(g: Geometry, a: nat)
    requires g.Wf() && a < ADDR_LIMIT
    ensures MaskedTag(g, a) == g.Tag(a / g.lineSize)
  {
    DivTwice(a, g.lineSize, g.sets);
    ModUnique(a, ADDR_LIMIT, 0, a);
  }

  ghost function AllWords(g: Geometry, ls: seq<seq<Line>>): (r: seq<seq<nat>>)
    requires LinesOk(g, ls)
    ensures WbShape(g, r) && forall s :: 0 <= s < g.sets ==> r[s] == Words(g, ls[s])
  {
    seq(g.sets, s requires 0 <= s < g.sets => Words(g, ls[s]))
  }

  ghost function AllBlocks(g: Geometry, ls: seq<seq<Line>>): (c: Cache)
    requires LinesOk(g, ls)
    ensures c.Wf() && c.lineSize == g.lineSize && |c.ways| == g.sets
    ensures forall s :: 0 <= s < g.sets ==> c.ways[s] == Blocks(g, ls[s])
  {
    Cache(g.lineSize, seq(g.sets, s requires 0 <= s < g.sets => Blocks(g, ls[s])))
  }

  lemma LineRefWords(g: Geometry, ls: seq<seq<Line>>, block: nat, isWrite: bool)
    requires LinesOk(g, ls) && block >= g.sets
    ensures var r := LineRef(g, ls, block, isWrite);
            WbSet(AllWords(g, ls), block % g.sets, g.Tag(block), isWrite) == (AllWords(g, r.0), r.1)
  {
    hide Words, TouchWb, Access, Geometry.Tag;
    var s := block % g.sets;
    WordsRefine(g, ls[s], s, block, isWrite);
    assert AllWords(g, ls)[s := Words(g, Access(ls[s], g.assoc, block, isWrite).0)]
        == AllWords(g, LineRef(g, ls, block, isWrite).0);
  }

  lemma LineRefBlocks(g: Geometry, ls: seq<seq<Line>>, block: nat, isWrite: bool)
    requires LinesOk(g, ls) && block >= g.sets
    ensures var r := LineRef(g, ls, block, isWrite);
            AllBlocks(g, ls).Load(block) == AllBlocks(g, r.0) && (AllBlocks(g, ls).Misses(block) <==> r.1 != Hit)
  {
    hide Blocks, Touch, Access;
    var s := block % g.sets;
    BlocksRefine(g, ls[s], s, block, isWrite);
    assert AllBlocks(g, ls).ways[s := Blocks(g, Access(ls[s], g.assoc, block, isWrite).0)]
        == AllBlocks(g, LineRef(g, ls, block, isWrite).0).ways;
  }

  lemma SetsApart(b: nat, n: nat)
    requires n >= 2
    ensures b % n != (b + 1) % n && (b % n + 1) % n == (b + 1) % n
  {
    var q, r := b / n, b % n;
    assert b == n * q + r;
    if r + 1 < n {
      ModUnique(b + 1, n, q, r + 1);
      ModUnique(r + 1, n, 0, r + 1);
    } else {
      ModUnique(b + 1, n, q + 1, 0);
      ModUnique(r + 1, n, 1, 0);
    }
  }

  /** A write-back reference does to the tag words what the reference does to the lines. */
  lemma RefWbRefines(g: Geometry, ls: seq<seq<Line>>, m: MemRef)
    requires LinesOk(g, ls) && InRange(g, m)
    ensures var r := LinesRef(g, ls, m); RefWb(g, AllWords(g, ls), m) == (AllWords(g, r.0), r.1)
  {
    hide AllWords, WbSet, LineRef, MaskedTag, Geometry.Tag, Geometry.Span;
    var b1, b2 := m.addr / g.lineSize, (m.addr + m.size - 1) / g.lineSize;
    BlockFacts(g, m.addr, m.size);
    MaskedIsTag(g, m.addr);
    MaskedIsTag(g, m.addr + m.size - 1);
    LineRefWords(g, ls, b1, m.isWrite);
    if b1 != b2 {
      SetsApart(b1, g.sets);
      LineRefWords(g, LineRef(g, ls, b1, m.isWrite).0, b2, m.isWrite);
    }
  }

  lemma RefPlainRefines(g: Geometry, ls: seq<seq<Line>>, m: MemRef)
    requires LinesOk(g, ls) && InRange(g, m)
    ensures var r := LinesRef(g, ls, m);
            var p := AllBlocks(g, ls).Ref(m.addr, m.size);
            p.0 == AllBlocks(g, r.0) && (p.1 <==> r.1 != Hit)
  {
    hide AllBlocks, LineRef, Geometry.Span, Cache.Load, Cache.Misses;
    var b1, b2 := m.addr / g.lineSize, (m.addr + m.size - 1) / g.lineSize;
    BlockFacts(g, m.addr, m.size);
    LineRefBlocks(g, ls, b1, m.isWrite);
    if b1 != b2 { LineRefBlocks(g, LineRef(g, ls, b1, m.isWrite).0, b2, m.isWrite); }
  }

  // ---------------------------------------------------------------- reference streams

  ghost predicate AllInRange(g: Geometry, refs: seq<MemRef>) {
    g.Wf() && g.sets >= 2 && forall i :: 0 <= i < |refs| ==> InRange(g, refs[i])
  }

  /** The tag words after a stream, from a cleared cache. */
  ghost function WbRun(g: Geometry, refs: seq<MemRef>): (r: seq<seq<nat>>)
    requires AllInRange(g, refs)
    ensures WbShape(g, r)
  {
    if refs == [] then seq(g.sets, i => Zeros(g.assoc))
    else RefWb(g, WbRun(g, refs[..|refs| - 1]), refs[|refs| - 1]).0
  }

  ghost function LinesRun(g: Geometry, refs: seq<MemRef>): (r: seq<seq<Line>>)
    requires AllInRange(g, refs)
    ensures LinesOk(g, r)
  {
    if refs == [] then seq(g.sets, i => [])
    else LinesRef(g, LinesRun(g, refs[..|refs| - 1]), refs[|refs| - 1]).0
  }

  ghost function PlainRun(g: Geometry, refs: seq<MemRef>): (c: Cache)
    requires AllInRange(g, refs)
    ensures c.Wf() && c.lineSize == g.lineSize
  {
    if refs == [] then Empty(g.lineSize, g.sets, g.assoc)
    else PlainRun(g, refs[..|refs| - 1]).Ref(refs[|refs| - 1].addr, refs[|refs| - 1].size).0
  }

  lemma ClearedEncodings(g: Geometry)
    requires g.Wf()
    ensures Words(g, []) == Zeros(g.assoc) && Blocks(g, []) == Zeros(g.assoc)
  {
  }

  lemma {:induction false} StreamsAgree(g: Geometry, refs: seq<MemRef>)
    requires AllInRange(g, refs)
    ensures WbRun(g, refs) == AllWords(g, LinesRun(g, refs))
    ensures PlainRun(g, refs) == AllBlocks(g, LinesRun(g, refs))
  {
    hide RefWb, LinesRef, Cache.Ref;
    if refs == [] {
      ClearedEncodings(g);
      assert forall s :: 0 <= s < g.sets ==> LinesRun(g, refs)[s] == [];
      assert WbRun(g, refs) == AllWords(g, LinesRun(g, refs));
      assert PlainRun(g, refs).ways == AllBlocks(g, LinesRun(g, refs)).ways;
    } else {
      var before, m := refs[..|refs| - 1], refs[|refs| - 1];
      StreamsAgree(g, before);
      RefWbRefines(g, LinesRun(g, before), m);
      RefPlainRefines(g, LinesRun(g, before), m);
    }
  }

  /** After any stream, the write-back cache hits exactly when the plain cache does. */
  lemma WriteBackHitsLikePlain(g: Geometry, refs: seq<MemRef>, m: MemRef)
    requires AllInRange(g, refs) && InRange(g, m)
    ensures RefWb(g, WbRun(g, refs), m).1 == Hit <==> !PlainRun(g, refs).Ref(m.addr, m.size).1
  {
    hide RefWb, LinesRef, Cache.Ref;
    StreamsAgree(g, refs);
    RefWbRefines(g, LinesRun(g, refs), m);
    RefPlainRefines(g, LinesRun(g, refs), m);
  }

  // ---------------------------------------------------------------- what a dirty miss means for a stream

  ghost function FirstBlock(g: Geometry, m: MemRef): nat requires g.lineSize > 0 { m.addr / g.lineSize }
  ghost function LastBlock(g: Geometry, m: MemRef): nat requires g.lineSize > 0 && m.size >= 1 { (m.addr + m.size - 1) / g.lineSize }

  /** The references to blocks of one set, in order. */
  ghost function SetTrace(g: Geometry, refs: seq<MemRef>, s: nat): seq<Ref>
    requires AllInRange(g, refs)
  {
    if refs == [] then []
    else
      var m := refs[|refs| - 1];
      var b1, b2 := FirstBlock(g, m), LastBlock(g, m);
      SetTrace(g, refs[..|refs| - 1], s)
      + (if b1 % g.sets == s then [Ref(b1, m.isWrite)] else [])
      + (if b1 != b2 && b2 % g.sets == s then [Ref(b2, m.isWrite)] else [])
  }

  lemma LinesSnoc(trace: seq<Ref>, assoc: nat, r: Ref)
    requires assoc > 0
    ensures Lines(trace + [r], assoc) == Access(Lines(trace, assoc), assoc, r.block, r.isWrite).0
  {
    assert (trace + [r])[..|trace|] == trace;
  }

  lemma {:induction false} SetSeesItsTrace(g: Geometry, refs: seq<MemRef>, s: nat)
    requires AllInRange(g, refs) && s < g.sets
    ensures LinesRun(g, refs)[s] == Lines(SetTrace(g, refs, s), g.assoc)
  {
    hide Access, Lines;
    if refs == [] {
      LinesEmpty(g.assoc);
    } else {
      var before, m := refs[..|refs| - 1], refs[|refs| - 1];
      SetSeesItsTrace(g, before, s);
      BlockFacts(g, m.addr, m.size);
      var b1, b2, t := FirstBlock(g, m), LastBlock(g, m), SetTrace(g, before, s);
      if b1 != b2 { SetsApart(b1, g.sets); }
      assert t + [] + [] == t;
      if b1 % g.sets == s {
        LinesSnoc(t, g.assoc, Ref(b1, m.isWrite));
        assert t + [Ref(b1, m.isWrite)] + [] == t + [Ref(b1, m.isWrite)];
      } else if b1 != b2 && b2 % g.sets == s {
        LinesSnoc(t, g.assoc, Ref(b2, m.isWrite));
        assert t + [] + [Ref(b2, m.isWrite)] == t + [Ref(b2, m.isWrite)];
      }
    }
  }

  lemma LinesEmpty(assoc: nat)
    requires assoc > 0
    ensures Lines([], assoc) == []
  {
  }

  /** Bringing in the block pushes out a line that was written since it was brought in. */
  ghost predicate EvictsWritten(g: Geometry, refs: seq<MemRef>, block: nat)
    requires AllInRange(g, refs)
  {
    var t := SetTrace(g, refs, block % g.sets);
    var lines := Lines(t, g.assoc);
    && !Holds(lines, block) && |lines| == g.assoc
    && WrittenSince(t, Installed(t, g.assoc, lines[g.assoc - 1].block), lines[g.assoc - 1].block)
  }

  lemma BlockMissDirty(g: Geometry, refs: seq<MemRef>, block: nat, isWrite: bool)
    requires AllInRange(g, refs) && block >= g.sets
    ensures LineRef(g, LinesRun(g, refs), block, isWrite).1 == MissDirty <==> EvictsWritten(g, refs, block)
  {
    hide LinesRun, Lines, Holds, WrittenSince, Access, SetTrace;
    SetSeesItsTrace(g, refs, block % g.sets);
    MissDirtyMeansWritten(SetTrace(g, refs, block % g.sets), g.assoc, block, isWrite);
  }

  lemma OtherSetUnmoved(g: Geometry, ls: seq<seq<Line>>, b1: nat, b2: nat, isWrite: bool)
    requires LinesOk(g, ls) && b1 >= g.sets && b2 >= g.sets && b1 % g.sets != b2 % g.sets
    ensures LineRef(g, LineRef(g, ls, b1, isWrite).0, b2, isWrite).1 == LineRef(g, ls, b2, isWrite).1
  {
    hide Access, InSet;
  }

  /** After any stream, a reference reports a dirty miss exactly when one of its blocks pushes
      out a line written since it was brought in. */
  lemma MissDirtyExactly(g: Geometry, refs: seq<MemRef>, m: MemRef)
    requires AllInRange(g, refs) && InRange(g, m)
    ensures var b1, b2 := FirstBlock(g, m), LastBlock(g, m);
            RefWb(g, WbRun(g, refs), m).1 == MissDirty <==>
              EvictsWritten(g, refs, b1) || (b1 != b2 && EvictsWritten(g, refs, b2))
  {
    hide RefWb, AllWords, LineRef, LinesRun, EvictsWritten, WbRun;
    var b1, b2, ls := FirstBlock(g, m), LastBlock(g, m), LinesRun(g, refs);
    StreamsAgree(g, refs);
    RefWbRefines(g, ls, m);
    BlockFacts(g, m.addr, m.size);
    BlockMissDirty(g, refs, b1, m.isWrite);
    if b1 != b2 {
      SetsApart(b1, g.sets);
      BlockMissDirty(g, refs, b2, m.isWrite);
      OtherSetUnmoved(g, ls, b1, b2, m.isWrite);
    }
  }

  // ---------------------------------------------------------------- where the encoding fails

  /** Reference within one line, on either cache. */
  lemma OneLine(g: Geometry, ways: seq<seq<nat>>, c: Cache, m: MemRef)
    requires WbShape(g, ways) && 1 <= m.size <= g.lineSize && FirstBlock(g, m) == LastBlock(g, m)
    requires c.Wf() && c.lineSize == g.lineSize && |c.ways| == g.sets
    ensures var b := FirstBlock(g, m);
            && RefWb(g, ways, m) == WbSet(ways, b % g.sets, MaskedTag(g, m.addr), m.isWrite)
            && c.Ref(m.addr, m.size) == (c.Load(b), b !in c.ways[b % g.sets])
  {
    hide MaskedTag, WbSet, Cache.Load;
  }

  /** Below one tag span: a cleared write-back cache hits, a cleared plain cache misses. */
  lemma LowAddressesDiffer(g: Geometry, m: MemRef)
    requires g.Wf() && g.sets >= 2 && 1 <= m.size <= g.lineSize && g.Span() <= ADDR_LIMIT
    requires g.lineSize <= m.addr < g.Span() && FirstBlock(g, m) == LastBlock(g, m)
    ensures RefWb(g, WbRun(g, []), m).1 == Hit && PlainRun(g, []).Ref(m.addr, m.size).1
  {
    hide MaskedTag, RefWb, Cache.Ref, Cache.Load, Geometry.Span, WbRun, PlainRun, TouchWb;
    var b := FirstBlock(g, m);
    Cleared(g);
    OneLine(g, WbRun(g, []), PlainRun(g, []), m);
    LowTag(g, m.addr);
    ZeroHit(g.assoc, m.isWrite);
    DivZero(m.addr, g.lineSize);
    assert b !in Zeros(g.assoc);
  }

  lemma Cleared(g: Geometry)
    requires g.Wf() && g.sets >= 2
    ensures AllInRange(g, []) && |PlainRun(g, []).ways| == g.sets
    ensures forall s :: 0 <= s < g.sets ==> WbRun(g, [])[s] == Zeros(g.assoc) && PlainRun(g, []).ways[s] == Zeros(g.assoc)
  {
  }

  lemma ZeroHit(n: nat, isWrite: bool)
    requires n > 0
    ensures TouchWb(Zeros(n), 0, isWrite).1 == Hit
  {
  }

  lemma LowTag(g: Geometry, a: nat)
    requires g.Wf() && a < g.Span() <= ADDR_LIMIT
    ensures MaskedTag(g, a) == 0
  {
    ModUnique(a, ADDR_LIMIT, 0, a);
    DivZero(a, g.Span());
  }

  lemma ShiftedBlock(a: nat, lineSize: nat, sets: nat, k: nat)
    requires lineSize > 0 && sets > 0
    ensures (a + lineSize * sets * k) / lineSize == a / lineSize + sets * k
    ensures (a / lineSize + sets * k) % sets == a / lineSize % sets
  {
    var q, r := a / lineSize, a % lineSize;
    Assoc(lineSize, sets, k);
    Distribute(lineSize, q, sets * k);
    DivUnique(a + lineSize * sets * k, lineSize, q + sets * k, r);
    Distribute(sets, q / sets, k);
    ModUnique(q + sets * k, sets, q / sets + k, q % sets);
  }

  lemma FarTag(g: Geometry, a: nat)
    requires g.Wf()
    ensures MaskedTag(g, a + ADDR_LIMIT) == MaskedTag(g, a)
  {
    ModUnique(a + ADDR_LIMIT, ADDR_LIMIT, a / ADDR_LIMIT + 1, a % ADDR_LIMIT);
  }

  /** Above 32 bits: two addresses 2^32 apart are one line to the write-back cache and two to
      the plain cache. */
  lemma HighAddressesDiffer(g: Geometry, m: MemRef, k: nat)
    requires g.Wf() && g.sets >= 2 && InRange(g, m) && g.Span() * k == ADDR_LIMIT
    requires FirstBlock(g, m) == LastBlock(g, m)
    ensures var far := MemRef(m.addr + ADDR_LIMIT, m.size, m.isWrite);
            RefWb(g, WbRun(g, [m]), far).1 == Hit && PlainRun(g, [m]).Ref(far.addr, far.size).1
  {
    hide MaskedTag, RefWb, Cache.Ref, Geometry.Span, WbRun, PlainRun, WbSet, Cache.Load;
    var far := MemRef(m.addr + ADDR_LIMIT, m.size, m.isWrite);
    var b, ways, c := FirstBlock(g, m), WbRun(g, []), PlainRun(g, []);
    BlockFacts(g, m.addr, m.size);
    FarLines(g, m, k);
    FirstStep(g, m);
    OneLine(g, ways, c, m);
    OneLine(g, WbRun(g, [m]), PlainRun(g, [m]), far);
    FarTag(g, m.addr);
    FarOutcome(g, ways, c, m, k);
  }

  lemma FarLines(g: Geometry, m: MemRef, k: nat)
    requires g.Wf() && m.size >= 1 && g.Span() * k == ADDR_LIMIT && FirstBlock(g, m) == LastBlock(g, m)
    ensures var far := MemRef(m.addr + ADDR_LIMIT, m.size, m.isWrite);
            && FirstBlock(g, far) == LastBlock(g, far) == FirstBlock(g, m) + g.sets * k
            && FirstBlock(g, far) % g.sets == FirstBlock(g, m) % g.sets
    ensures k > 0
  {
    ShiftedBlock(m.addr, g.lineSize, g.sets, k);
    ShiftedBlock(m.addr + m.size - 1, g.lineSize, g.sets, k);
  }

  lemma FirstStep(g: Geometry, m: MemRef)
    requires AllInRange(g, [m])
    ensures AllInRange(g, []) && |PlainRun(g, []).ways| == g.sets && |PlainRun(g, [m]).ways| == g.sets
    ensures WbRun(g, [m]) == RefWb(g, WbRun(g, []), m).0
    ensures PlainRun(g, [m]) == PlainRun(g, []).Ref(m.addr, m.size).0
    ensures forall s :: 0 <= s < g.sets ==> PlainRun(g, []).ways[s] == Zeros(g.assoc)
  {
    hide RefWb;
    assert [m][..0] == [];
  }

  lemma FarOutcome(g: Geometry, ways: seq<seq<nat>>, c: Cache, m: MemRef, k: nat)
    requires WbShape(g, ways) && c.Wf() && |c.ways| == g.sets && m.size >= 1 && k > 0
    requires g.lineSize > 0 && FirstBlock(g, m) > 0
    requires c.ways[FirstBlock(g, m) % g.sets] == Zeros(g.assoc)
    ensures var b, tag := FirstBlock(g, m), MaskedTag(g, m.addr);
            var s := b % g.sets;
            && WbSet(WbSet(ways, s, tag, m.isWrite).0, s, tag, m.isWrite).1 == Hit
            && b + g.sets * k !in c.Load(b).ways[s]
  {
    hide Geometry.Span;
    var b, tag := FirstBlock(g, m), MaskedTag(g, m.addr);
    SpanPositive(g);
    MulEven(m.addr % ADDR_LIMIT / g.Span(), g.Span());
    TouchWbKeeps(ways[b % g.sets], tag, m.isWrite);
    Multiple(g.sets, k);
  }

  lemma TouchWbKeeps(ways: seq<nat>, tag: nat, isWrite: bool)
    requires |ways| > 0 && tag % 2 == 0
    ensures TouchWb(TouchWb(ways, tag, isWrite).0, tag, isWrite).1 == Hit
  {
    var r := TouchWb(ways, tag, isWrite).0;
    assert Clear(r[0]) == tag;
  }
}
