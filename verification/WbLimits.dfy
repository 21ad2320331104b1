/** Exactly which blocks callgrind's write-back cache (callgrind/sim.c) tells apart as the plain cache does. */
module WbLimits {
  import opened Lru
  import opened WriteBack
  import opened CacheUse

  /** Power-of-two geometries whose tag mask fits 32 bits. */
  ghost predicate Fits(g: Geometry) { g.Wf() && g.Span() > 0 && ADDR_LIMIT % g.Span() == 0 }

  /** The tag word of a block, as the 32-bit mask leaves it. */
  function BlockTag(g: Geometry, b: nat): nat
    requires g.lineSize > 0 && g.sets > 0
  {
    MaskedTag(g, b * g.lineSize)
  }

  lemma TagOfBlock(g: Geometry, a: nat)
    requires Fits(g)
    ensures MaskedTag(g, a) == BlockTag(g, a / g.lineSize)
  {
    var q, k := a / g.lineSize, ADDR_LIMIT / g.Span();
    assert ADDR_LIMIT == g.Span() * k;
    LineParts(a, g.lineSize, g.sets, k);
    assert a == g.lineSize * q + a % g.lineSize;
    assert a - a % g.lineSize == q * g.lineSize;
  }

  lemma TagEven(g: Geometry, b: nat)
    requires Fits(g)
    ensures BlockTag(g, b) % 2 == 0 && BlockTag(g, 0) == 0
  {
    MulEven(b * g.lineSize % ADDR_LIMIT / g.Span(), g.Span());
    DivZero(0, g.Span());
  }

  // ---------------------------------------------------------------- one set

  /** Different blocks of a set have different tags, and only block 0 has the tag of an empty way. */
  ghost predicate Distinguishes(g: Geometry, blocks: iset<nat>)
    requires g.lineSize > 0 && g.sets > 0
  {
    && (forall b, c :: b in blocks && c in blocks && b % g.sets == c % g.sets && BlockTag(g, b) == BlockTag(g, c) ==> b == c)
    && (forall b :: b in blocks && BlockTag(g, b) == 0 ==> b == 0)
  }

  /** A plain set and a write-back set that hold the same blocks in the same ways. */
  ghost predicate SameSet(g: Geometry, blocks: iset<nat>, s: nat, plain: seq<nat>, words: seq<nat>)
    requires g.lineSize > 0 && g.sets > 0
  {
    && |plain| == |words| > 0
    && forall i :: 0 <= i < |plain| ==>
         Clear(words[i]) == BlockTag(g, plain[i]) && (plain[i] == 0 || (plain[i] in blocks && plain[i] % g.sets == s))
  }

  lemma SameMatch(g: Geometry, blocks: iset<nat>, s: nat, plain: seq<nat>, words: seq<nat>, b: nat, i: nat)
    requires Fits(g) && Distinguishes(g, blocks) && SameSet(g, blocks, s, plain, words)
    requires b in blocks && b % g.sets == s && i < |plain|
    ensures Clear(words[i]) == BlockTag(g, b) <==> plain[i] == b
  {
    hide BlockTag, Clear;
    TagEven(g, b);
  }

  /** A reference finds the block in the same way of both sets, or in neither. */
  lemma SameFound(g: Geometry, blocks: iset<nat>, s: nat, plain: seq<nat>, words: seq<nat>, b: nat)
    requires Fits(g) && Distinguishes(g, blocks) && SameSet(g, blocks, s, plain, words) && b in blocks && b % g.sets == s
    ensures WbWay(words, BlockTag(g, b)) == if b in plain then IndexOf(plain, b) else |plain|
  {
    hide BlockTag, Clear, SameSet, Distinguishes, Geometry.Span;
    assert |plain| == |words| by { SameLength(g, blocks, s, plain, words); }
    forall i | 0 <= i < |plain| ensures Clear(words[i]) == BlockTag(g, b) <==> plain[i] == b {
      SameMatch(g, blocks, s, plain, words, b, i);
    }
    if b in plain { IndexUnique(plain, b, IndexOf(plain, b)); FirstIndex(plain, b); }
  }

  lemma SameLength(g: Geometry, blocks: iset<nat>, s: nat, plain: seq<nat>, words: seq<nat>)
    requires g.lineSize > 0 && g.sets > 0 && SameSet(g, blocks, s, plain, words)
    ensures |plain| == |words| > 0
  {
  }

  lemma FirstIndex(ways: seq<nat>, tag: nat)
    requires tag in ways
    ensures forall k :: 0 <= k < IndexOf(ways, tag) ==> ways[k] != tag
  {
    forall k | 0 <= k < IndexOf(ways, tag) ensures ways[k] != tag { assert ways[k] == ways[..IndexOf(ways, tag)][k]; }
  }

  lemma ClearMarked(x: nat, isWrite: bool)
    ensures Clear(Mark(x, isWrite)) == Clear(x)
  {
  }

  lemma ClearNew(tag: nat, isWrite: bool)
    requires tag % 2 == 0
    ensures Clear(tag + Bit(isWrite)) == tag
  {
  }

  /** References keep the two sets alike and hit alike. */
  lemma SameTouch(g: Geometry, blocks: iset<nat>, s: nat, plain: seq<nat>, words: seq<nat>, b: nat, isWrite: bool)
    requires Fits(g) && Distinguishes(g, blocks) && SameSet(g, blocks, s, plain, words) && b in blocks && b % g.sets == s
    ensures var t := TouchWb(words, BlockTag(g, b), isWrite);
            SameSet(g, blocks, s, Touch(plain, b), t.0) && (t.1 == Hit <==> b in plain)
  {
    hide BlockTag, Clear, Mark, Flag, Distinguishes, Bit, WbWay, SameSet, Geometry.Span, Touch;
    SameLength(g, blocks, s, plain, words);
    SameFound(g, blocks, s, plain, words, b);
    TagEven(g, b);
    if b in plain {
      SameFront(g, blocks, s, plain, words, b, IndexOf(plain, b), Mark(words[IndexOf(plain, b)], isWrite), isWrite);
      TouchHit(plain, b);
    } else {
      ClearNew(BlockTag(g, b), isWrite);
      SameFront(g, blocks, s, plain, words, b, |plain| - 1, BlockTag(g, b) + Bit(isWrite), isWrite);
      TouchMiss(plain, b);
      assert words[|plain| - 1 + 1..] == [];
      assert [BlockTag(g, b) + Bit(isWrite)] + words[..|plain| - 1] + [] == [BlockTag(g, b) + Bit(isWrite)] + words[..|plain| - 1];
    }
  }

  lemma TouchHit(plain: seq<nat>, b: nat)
    requires b in plain
    ensures Touch(plain, b) == [b] + plain[..IndexOf(plain, b)] + plain[IndexOf(plain, b) + 1..]
  {
  }

  lemma TouchMiss(plain: seq<nat>, b: nat)
    requires b !in plain && |plain| > 0
    ensures Touch(plain, b) == [b] + plain[..|plain| - 1] + plain[|plain| - 1 + 1..]
  {
  }

  /** Way i taken out of both sets and the block put in front. */
  lemma SameFront(g: Geometry, blocks: iset<nat>, s: nat, plain: seq<nat>, words: seq<nat>, b: nat, i: nat, word: nat, isWrite: bool)
    requires g.lineSize > 0 && g.sets > 0 && SameSet(g, blocks, s, plain, words) && b in blocks && b % g.sets == s
    requires i < |plain| && BlockTag(g, b) % 2 == 0
    requires (i < |words| && Clear(words[i]) == BlockTag(g, b) && word == Mark(words[i], isWrite)) || Clear(word) == BlockTag(g, b)
    ensures SameSet(g, blocks, s, [b] + plain[..i] + plain[i + 1..], [word] + words[..i] + words[i + 1..])
  {
    hide BlockTag, Clear, Mark, Bit;
    if word == Mark(words[i], isWrite) { ClearMarked(words[i], isWrite); }
    var p, w := [b] + plain[..i] + plain[i + 1..], [word] + words[..i] + words[i + 1..];
    forall j | 0 <= j < |p| ensures Clear(w[j]) == BlockTag(g, p[j]) && (p[j] == 0 || (p[j] in blocks && p[j] % g.sets == s)) {
      if j > 0 {
        var o := if j <= i then j - 1 else j;
        assert p[j] == plain[o] && w[j] == words[o];
      }
    }
  }

  // ---------------------------------------------------------------- whole caches

  ghost predicate Alike(g: Geometry, blocks: iset<nat>, c: Cache, ways: seq<seq<nat>>) {
    && WbShape(g, ways) && c.Wf() && c.lineSize == g.lineSize && |c.ways| == g.sets
    && forall s :: 0 <= s < g.sets ==> SameSet(g, blocks, s, c.ways[s], ways[s])
  }

  lemma AlikeShape(g: Geometry, blocks: iset<nat>, c: Cache, ways: seq<seq<nat>>)
    requires Alike(g, blocks, c, ways)
    ensures WbShape(g, ways) && c.Wf() && c.lineSize == g.lineSize && |c.ways| == g.sets
  {
  }

  lemma BlockStep(g: Geometry, blocks: iset<nat>, c: Cache, ways: seq<seq<nat>>, b: nat, isWrite: bool)
    requires Fits(g) && Distinguishes(g, blocks) && Alike(g, blocks, c, ways) && b in blocks
    ensures var w := WbSet(ways, b % g.sets, BlockTag(g, b), isWrite);
            Alike(g, blocks, c.Load(b), w.0) && (w.1 == Hit <==> !c.Misses(b))
  {
    hide Distinguishes, SameSet, BlockTag, TouchWb, Touch, Geometry.Span;
    var s := b % g.sets;
    SameTouch(g, blocks, s, c.ways[s], ways[s], b, isWrite);
  }

  /** References the two caches treat block by block: with one set, the write-back cache takes a
      reference to two lines for a reference to one. */
  ghost predicate Allowed(g: Geometry, blocks: iset<nat>, m: MemRef) {
    && 1 <= m.size <= g.lineSize && FirstBlock(g, m) in blocks && LastBlock(g, m) in blocks
    && (g.sets >= 2 || FirstBlock(g, m) == LastBlock(g, m))
  }

  lemma SetsOfRef(g: Geometry, m: MemRef)
    requires g.Wf() && 1 <= m.size <= g.lineSize && (g.sets >= 2 || FirstBlock(g, m) == LastBlock(g, m))
    ensures SetNo(g, m.addr) == FirstBlock(g, m) % g.sets && SetNo(g, m.addr + m.size - 1) == LastBlock(g, m) % g.sets
    ensures FirstBlock(g, m) == LastBlock(g, m) <==> SetNo(g, m.addr) == SetNo(g, m.addr + m.size - 1)
  {
    var c := Cache(g.lineSize, [[0]]);
    assert c.Wf();
    AtMostTwoBlocks(c, m.addr, m.size);
    if FirstBlock(g, m) != LastBlock(g, m) { SetsApart(FirstBlock(g, m), g.sets); }
  }

  /** A reference, block by block. */
  lemma RefByBlocks(g: Geometry, ways: seq<seq<nat>>, c: Cache, m: MemRef)
    requires Fits(g) && WbShape(g, ways) && c.Wf() && c.lineSize == g.lineSize && |c.ways| == g.sets
    requires 1 <= m.size <= g.lineSize && (g.sets >= 2 || FirstBlock(g, m) == LastBlock(g, m))
    ensures var b1, b2 := FirstBlock(g, m), LastBlock(g, m);
            var w1 := WbSet(ways, b1 % g.sets, BlockTag(g, b1), m.isWrite);
            && WbShape(g, w1.0)
            && RefWb(g, ways, m) ==
               (if b1 == b2 then w1
                else var w2 := WbSet(w1.0, b2 % g.sets, BlockTag(g, b2), m.isWrite); (w2.0, Join(w1.1, w2.1)))
            && c.Ref(m.addr, m.size) ==
               (if b1 == b2 then (c.Load(b1), c.Misses(b1))
                else (c.Load(b1).Load(b2), c.Misses(b1) || c.Load(b1).Misses(b2)))
  {
    SetsOfRef(g, m);
    TagOfBlock(g, m.addr);
    TagOfBlock(g, m.addr + m.size - 1);
    hide BlockTag, MaskedTag, TouchWb, Geometry.Span, SetNo, Cache.Load, Cache.Misses;
  }

  lemma RefStep(g: Geometry, blocks: iset<nat>, c: Cache, ways: seq<seq<nat>>, m: MemRef)
    requires Fits(g) && Distinguishes(g, blocks) && Alike(g, blocks, c, ways) && Allowed(g, blocks, m)
    ensures var w, p := RefWb(g, ways, m), c.Ref(m.addr, m.size);
            Alike(g, blocks, p.0, w.0) && (w.1 == Hit <==> !p.1)
  {
    hide Distinguishes, Alike, SameSet, BlockTag, WbSet, Geometry.Span, Cache.Load, Cache.Misses, RefWb, Cache.Ref;
    hide FirstBlock, LastBlock;
    AlikeShape(g, blocks, c, ways);
    var b1, b2 := FirstBlock(g, m), LastBlock(g, m);
    BlockStep(g, blocks, c, ways, b1, m.isWrite);
    if b1 != b2 {
      BlockStep(g, blocks, c.Load(b1), WbSet(ways, b1 % g.sets, BlockTag(g, b1), m.isWrite).0, b2, m.isWrite);
    }
    RefByBlocks(g, ways, c, m);
  }

  // ---------------------------------------------------------------- streams

  ghost predicate Stream(g: Geometry, blocks: iset<nat>, refs: seq<MemRef>) {
    forall i :: 0 <= i < |refs| ==> Allowed(g, blocks, refs[i])
  }

  /** Both caches after a stream, from cleared ones. */
  ghost function WbAfter(g: Geometry, blocks: iset<nat>, refs: seq<MemRef>): (r: seq<seq<nat>>)
    requires Fits(g) && Stream(g, blocks, refs)
    ensures WbShape(g, r)
  {
    if refs == [] then seq(g.sets, i => Zeros(g.assoc))
    else RefWb(g, WbAfter(g, blocks, refs[..|refs| - 1]), refs[|refs| - 1]).0
  }

  ghost function PlainAfter(g: Geometry, blocks: iset<nat>, refs: seq<MemRef>): (c: Cache)
    requires Fits(g) && Stream(g, blocks, refs)
    ensures c.Wf() && c.lineSize == g.lineSize && |c.ways| == g.sets
  {
    if refs == [] then Empty(g.lineSize, g.sets, g.assoc)
    else PlainAfter(g, blocks, refs[..|refs| - 1]).Ref(refs[|refs| - 1].addr, refs[|refs| - 1].size).0
  }

  /** After the stream, a reference hits one cache exactly when it hits the other. */
  ghost predicate SameHit(g: Geometry, blocks: iset<nat>, refs: seq<MemRef>, m: MemRef)
    requires Fits(g) && Stream(g, blocks, refs) && Allowed(g, blocks, m)
  {
    RefWb(g, WbAfter(g, blocks, refs), m).1 == Hit <==> !PlainAfter(g, blocks, refs).Ref(m.addr, m.size).1
  }

  ghost predicate Agree(g: Geometry, blocks: iset<nat>)
    requires Fits(g)
  {
    forall refs: seq<MemRef>, m: MemRef :: Stream(g, blocks, refs) && Allowed(g, blocks, m) ==> SameHit(g, blocks, refs, m)
  }

  lemma ClearedAlike(g: Geometry, blocks: iset<nat>)
    requires Fits(g)
    ensures Alike(g, blocks, PlainAfter(g, blocks, []), WbAfter(g, blocks, []))
  {
    hide BlockTag, Geometry.Span;
    TagEven(g, 0);
  }

  lemma {:induction false} StreamAlike(g: Geometry, blocks: iset<nat>, refs: seq<MemRef>)
    requires Fits(g) && Distinguishes(g, blocks) && Stream(g, blocks, refs)
    ensures Alike(g, blocks, PlainAfter(g, blocks, refs), WbAfter(g, blocks, refs))
  {
    hide Alike, RefWb, Cache.Ref, Distinguishes, Geometry.Span;
    if refs == [] {
      ClearedAlike(g, blocks);
    } else {
      var before, m := refs[..|refs| - 1], refs[|refs| - 1];
      StreamAlike(g, blocks, before);
      RefStep(g, blocks, PlainAfter(g, blocks, before), WbAfter(g, blocks, before), m);
    }
  }

  lemma DistinguishingAgrees(g: Geometry, blocks: iset<nat>, refs: seq<MemRef>, m: MemRef)
    requires Fits(g) && Distinguishes(g, blocks) && Stream(g, blocks, refs) && Allowed(g, blocks, m)
    ensures SameHit(g, blocks, refs, m)
  {
    hide Alike, RefWb, Cache.Ref, Distinguishes, Geometry.Span, WbAfter, PlainAfter;
    StreamAlike(g, blocks, refs);
    RefStep(g, blocks, PlainAfter(g, blocks, refs), WbAfter(g, blocks, refs), m);
  }

  // ---------------------------------------------------------------- and where they differ

  /** The first byte of a block. */
  function StartOf(g: Geometry, b: nat): MemRef { MemRef(b * g.lineSize, 1, false) }

  lemma StartBlock(g: Geometry, b: nat)
    requires g.lineSize > 0
    ensures FirstBlock(g, StartOf(g, b)) == b == LastBlock(g, StartOf(g, b))
  {
    DivUnique(b * g.lineSize, g.lineSize, b, 0);
  }

  lemma StartOutcome(g: Geometry, ways: seq<seq<nat>>, c: Cache, b: nat)
    requires Fits(g) && WbShape(g, ways) && c.Wf() && c.lineSize == g.lineSize && |c.ways| == g.sets
    ensures var m := StartOf(g, b);
            && RefWb(g, ways, m) == WbSet(ways, b % g.sets, BlockTag(g, b), false)
            && c.Ref(m.addr, m.size) == (c.Load(b), b !in c.ways[b % g.sets])
  {
    StartBlock(g, b);
    hide MaskedTag, WbSet, Cache.Load, Geometry.Span, RefWb, Cache.Ref;
    OneLine(g, ways, c, StartOf(g, b));
  }

  lemma StartAllowed(g: Geometry, blocks: iset<nat>, b: nat)
    requires Fits(g) && b in blocks
    ensures Allowed(g, blocks, StartOf(g, b))
  {
    StartBlock(g, b);
  }

  lemma ClearedSets(g: Geometry, blocks: iset<nat>, s: nat)
    requires Fits(g) && s < g.sets
    ensures WbAfter(g, blocks, [])[s] == Zeros(g.assoc) && PlainAfter(g, blocks, []).ways[s] == Zeros(g.assoc)
  {
  }

  /** A block other than 0 with the tag of an empty way hits a cleared write-back cache. */
  lemma EmptyTagDiffers(g: Geometry, blocks: iset<nat>, b: nat)
    requires Fits(g) && b in blocks && b != 0 && BlockTag(g, b) == 0
    ensures Allowed(g, blocks, StartOf(g, b)) && !SameHit(g, blocks, [], StartOf(g, b))
  {
    hide BlockTag, RefWb, Cache.Ref, WbAfter, PlainAfter, TouchWb, Cache.Load, Geometry.Span;
    StartAllowed(g, blocks, b);
    StartOutcome(g, WbAfter(g, blocks, []), PlainAfter(g, blocks, []), b);
    ClearedSets(g, blocks, b % g.sets);
    ZeroHit(g.assoc, false);
    assert b !in Zeros(g.assoc);
  }

  /** Of two blocks of a set with one tag, the second hits the write-back cache on the strength of
      the first. */
  lemma SharedTagDiffers(g: Geometry, blocks: iset<nat>, b: nat, c: nat)
    requires Fits(g) && b in blocks && c in blocks && b != c && b != 0 && c != 0
    requires b % g.sets == c % g.sets && BlockTag(g, b) == BlockTag(g, c)
    ensures Stream(g, blocks, [StartOf(g, b)]) && Allowed(g, blocks, StartOf(g, c))
    ensures !SameHit(g, blocks, [StartOf(g, b)], StartOf(g, c))
  {
    hide BlockTag, RefWb, Cache.Ref, TouchWb, Geometry.Span, Allowed;
    StartAllowed(g, blocks, b);
    StartAllowed(g, blocks, c);
    var refs, s := [StartOf(g, b)], b % g.sets;
    assert refs[..0] == [];
    var ways, p := WbAfter(g, blocks, []), PlainAfter(g, blocks, []);
    StartOutcome(g, ways, p, b);
    assert WbAfter(g, blocks, refs) == WbSet(ways, s, BlockTag(g, b), false).0;
    assert PlainAfter(g, blocks, refs) == p.Load(b);
    hide WbAfter, PlainAfter;
    StartOutcome(g, WbAfter(g, blocks, refs), PlainAfter(g, blocks, refs), c);
    ClearedSets(g, blocks, s);
    TagEven(g, b);
    TouchWbKeeps(ways[s], BlockTag(g, b), false);
    assert c !in Touch(Zeros(g.assoc), b);
  }

  /** The write-back cache hits exactly when the plain cache does, on every stream over a set of
      blocks, if and only if its masked tags tell the blocks of each set apart and only block 0 has
      the tag of an empty way. */
  lemma AgreeExactly(g: Geometry, blocks: iset<nat>)
    requires Fits(g)
    ensures Agree(g, blocks) <==> Distinguishes(g, blocks)
  {
    hide SameHit, BlockTag, Geometry.Span, Allowed;
    if Distinguishes(g, blocks) {
      forall refs: seq<MemRef>, m: MemRef | Stream(g, blocks, refs) && Allowed(g, blocks, m) ensures SameHit(g, blocks, refs, m) {
        DistinguishingAgrees(g, blocks, refs, m);
      }
    } else if exists b :: b in blocks && BlockTag(g, b) == 0 && b != 0 {
      var b :| b in blocks && BlockTag(g, b) == 0 && b != 0;
      EmptyTagDiffers(g, blocks, b);
      assert Stream(g, blocks, []);
    } else {
      var b, c :| b in blocks && c in blocks && b % g.sets == c % g.sets && BlockTag(g, b) == BlockTag(g, c) && b != c;
      TagEven(g, 0);
      SharedTagDiffers(g, blocks, b, c);
    }
  }

  /** With one set, a reference to two lines leaves the second out of the write-back cache, so that
      a reference to that line alone then misses it and hits the plain cache. */
  lemma OneSetStraddles(g: Geometry, m: MemRef)
    requires Fits(g) && g.sets == 1 && InRange(g, m) && FirstBlock(g, m) != LastBlock(g, m)
    ensures var ways, c := seq(1, i => Zeros(g.assoc)), Empty(g.lineSize, 1, g.assoc);
            var n := StartOf(g, LastBlock(g, m));
            WbShape(g, ways) && WbShape(g, RefWb(g, ways, m).0) &&
            RefWb(g, RefWb(g, ways, m).0, n).1 != Hit && !c.Ref(m.addr, m.size).0.Ref(n.addr, n.size).1
  {
    hide BlockTag, MaskedTag, Geometry.Tag, Geometry.Span, TouchWb, RefWb, Cache.Ref, Touch;
    var ways, c := seq(1, i => Zeros(g.assoc)), Empty(g.lineSize, 1, g.assoc);
    assert ways[0] == Zeros(g.assoc);
    var b1, b2 := FirstBlock(g, m), LastBlock(g, m);
    StraddleTags(g, m);
    StraddleTouches(g, ways, c, m);
    StartOutcome(g, RefWb(g, ways, m).0, c.Ref(m.addr, m.size).0, b2);
    MissesBoth(g.assoc, BlockTag(g, b1), BlockTag(g, b2), m.isWrite);
  }

  lemma StraddleTags(g: Geometry, m: MemRef)
    requires Fits(g) && g.sets == 1 && InRange(g, m) && FirstBlock(g, m) != LastBlock(g, m)
    ensures var t1, t2 := BlockTag(g, FirstBlock(g, m)), BlockTag(g, LastBlock(g, m));
            t1 % 2 == 0 && t1 != t2 && t2 != 0
  {
    hide BlockTag, MaskedTag, Geometry.Tag, Geometry.Span;
    var b1, b2 := FirstBlock(g, m), LastBlock(g, m);
    BlockFacts(g, m.addr, m.size);
    TagOfBlock(g, m.addr);
    TagOfBlock(g, m.addr + m.size - 1);
    MaskedIsTag(g, m.addr);
    MaskedIsTag(g, m.addr + m.size - 1);
    TagFacts(g, b1, b2);
    TagFacts(g, b2, b1);
  }

  lemma StraddleTouches(g: Geometry, ways: seq<seq<nat>>, c: Cache, m: MemRef)
    requires Fits(g) && g.sets == 1 && 1 <= m.size <= g.lineSize && FirstBlock(g, m) != LastBlock(g, m)
    requires WbShape(g, ways) && c.Wf() && c.lineSize == g.lineSize && |c.ways| == 1
    ensures RefWb(g, ways, m).0[0] == TouchWb(ways[0], BlockTag(g, FirstBlock(g, m)), m.isWrite).0
    ensures LastBlock(g, m) in c.Ref(m.addr, m.size).0.ways[0]
  {
    TagOfBlock(g, m.addr);
    hide BlockTag, MaskedTag, Geometry.Span, TouchWb;
    assert SetNo(g, m.addr) == 0 && SetNo(g, m.addr + m.size - 1) == 0;
    assert RefWb(g, ways, m) == WbSet(ways, 0, MaskedTag(g, m.addr), m.isWrite);
  }

  /** A set that holds one tag misses another. */
  lemma MissesBoth(n: nat, t1: nat, t2: nat, isWrite: bool)
    requires n > 0 && t1 % 2 == 0 && t1 != t2 && t2 != 0
    ensures TouchWb(TouchWb(Zeros(n), t1, isWrite).0, t2, false).1 != Hit
  {
    hide Clear;
    ClearZero();
    ClearNew(t1, isWrite);
    ClearMarked(0, isWrite);
    var w := TouchWb(Zeros(n), t1, isWrite).0;
    assert forall i :: 0 <= i < n ==> Clear(w[i]) == 0 || Clear(w[i]) == t1;
  }
}
