/** Callgrind's cache-use simulator (callgrind/sim.c): the low bits of a tag word point to the use
record of its way, so that records stay where they are while the ways of a set are reordered.

The reference is a set of lines that carry their records with them. */
module CacheUse {
  import SortedList
  import opened Lru
  import opened WriteBack

  // ---------------------------------------------------------------- tag words with slot pointers

  /** Geometries the simulator accepts: sizes are powers of two and every way has its own pointer value. */
  ghost predicate UseWf(g: Geometry) {
    g.Wf() && g.Span() > 0 && g.assoc <= g.Span() && ADDR_LIMIT % g.Span() == 0
  }

  function High(span: nat, word: nat): nat requires span > 0 { word - word % span }
  function Low(span: nat, word: nat): nat requires span > 0 { word % span }

  lemma WordParts(span: nat, k: nat, slot: nat)
    requires slot < span
    ensures High(span, k * span + slot) == k * span && Low(span, k * span + slot) == slot
  {
    ModUnique(k * span + slot, span, k, slot);
  }

  /** The first way whose tag matches; the number of ways if there is none. */
  function UseWay(span: nat, words: seq<nat>, tag: nat): (i: nat)
    requires span > 0
    ensures i <= |words|
    ensures i < |words| ==> High(span, words[i]) == tag
    ensures forall k :: 0 <= k < i ==> High(span, words[k]) != tag
  {
    if words == [] || High(span, words[0]) == tag then 0 else 1 + UseWay(span, words[1..], tag)
  }

  /** The way a reference takes out of its place: the one that matches, else the last. */
  function Taken(span: nat, words: seq<nat>, tag: nat): (i: nat)
    requires span > 0 && |words| > 0
    ensures i < |words|
  {
    var i := UseWay(span, words, tag);
    if i < |words| then i else |words| - 1
  }

  function Front<T>(s: seq<T>, i: nat, x: T): (r: seq<T>)
    requires i < |s|
    ensures |r| == |s|
    ensures forall k :: 0 <= k < |r| ==> r[k] == if k == 0 then x else if k <= i then s[k - 1] else s[k]
  {
    [x] + s[..i] + s[i + 1..]
  }

  /** The words of a set after a reference, the slot it used and whether it hit. */
  function TagStep(span: nat, words: seq<nat>, tag: nat): (r: (seq<nat>, nat, bool))
    requires span > 0 && |words| > 0
    ensures |r.0| == |words|
  {
    var i := Taken(span, words, tag);
    var slot, hit := Low(span, words[i]), UseWay(span, words, tag) < |words|;
    (Front<nat>(words, i, if hit then words[i] else tag + slot), slot, hit)
  }

  // ---------------------------------------------------------------- slot pointers are a permutation

  function Slots(span: nat, words: seq<nat>): (r: seq<nat>)
    requires span > 0
    ensures |r| == |words| && forall i :: 0 <= i < |r| ==> r[i] == Low(span, words[i])
  {
    seq(|words|, i requires 0 <= i < |words| => Low(span, words[i]))
  }

  function Iota(n: nat): (r: seq<nat>)
    ensures |r| == n && forall i :: 0 <= i < n ==> r[i] == i
  {
    seq(n, i => i)
  }

  /** The low bits of the ways are the numbers below the associativity, in some order. */
  ghost predicate Permuted(span: nat, words: seq<nat>)
    requires span > 0
  {
    multiset(Slots(span, words)) == multiset(Iota(|words|))
  }

  lemma FrontPermutes<T>(s: seq<T>, i: nat)
    requires i < |s|
    ensures multiset(Front(s, i, s[i])) == multiset(s)
  {
    assert s == s[..i] + [s[i]] + s[i + 1..];
    assert multiset(s) == multiset(s[..i]) + multiset{s[i]} + multiset(s[i + 1..]);
    assert multiset([s[i]] + s[..i] + s[i + 1..]) == multiset{s[i]} + multiset(s[..i]) + multiset(s[i + 1..]);
  }

  lemma {:induction false} TwiceInMultiset<T>(s: seq<T>, i: nat, j: nat)
    requires i < j < |s| && s[i] == s[j]
    ensures multiset(s)[s[i]] >= 2
  {
    assert s == s[..j] + [s[j]] + s[j + 1..];
    assert s[..j][i] == s[i];
    assert multiset(s)[s[i]] == multiset(s[..j])[s[i]] + 1 + multiset(s[j + 1..])[s[i]];
  }

  lemma {:induction false} IotaCount(n: nat, x: nat)
    ensures multiset(Iota(n))[x] == if x < n then 1 else 0
  {
    if n > 0 {
      IotaCount(n - 1, x);
      assert Iota(n) == Iota(n - 1) + [n - 1];
    } else {
      assert Iota(0) == [];
    }
  }

  /** In range, unshared, and none left over. */
  lemma PermutedSlots(span: nat, words: seq<nat>)
    requires span > 0 && Permuted(span, words)
    ensures forall i :: 0 <= i < |words| ==> Low(span, words[i]) < |words|
    ensures forall i, j :: 0 <= i < j < |words| ==> Low(span, words[i]) != Low(span, words[j])
    ensures forall x :: 0 <= x < |words| ==> x in Slots(span, words)
  {
    hide Low, Slots;
    var s, n := Slots(span, words), |words|;
    forall i | 0 <= i < n ensures Low(span, words[i]) < n {
      assert s[i] in multiset(s);
      IotaCount(n, s[i]);
    }
    forall i, j | 0 <= i < j < n ensures Low(span, words[i]) != Low(span, words[j]) {
      if s[i] == s[j] {
        TwiceInMultiset(s, i, j);
        IotaCount(n, s[i]);
      }
    }
    forall x | 0 <= x < n ensures x in s {
      IotaCount(n, x);
      assert x in multiset(s);
    }
  }

  lemma TagStepPermuted(span: nat, words: seq<nat>, k: nat)
    requires span > 0 && 0 < |words| <= span && Permuted(span, words)
    ensures var r := TagStep(span, words, k * span); Permuted(span, r.0) && r.1 < |words|
  {
    hide Low, High, Permuted;
    var tag := k * span;
    var i, r := Taken(span, words, tag), TagStep(span, words, tag);
    PermutedSlots(span, words);
    WordParts(span, k, r.1);
    FrontKeepsSlots(span, words, i, r.0[0]);
  }

  /** A word moved to the front with its slot pointer unchanged. */
  lemma FrontKeepsSlots(span: nat, words: seq<nat>, i: nat, word: nat)
    requires span > 0 && i < |words| && Permuted(span, words) && Low(span, word) == Low(span, words[i])
    ensures Permuted(span, Front<nat>(words, i, word))
  {
    hide Low, Slots, Front;
    var s := Slots(span, words);
    FrontPermutes(s, i);
    var a, b := Slots(span, Front<nat>(words, i, word)), Front<nat>(s, i, s[i]);
    forall k | 0 <= k < |a| ensures a[k] == b[k] { FrontSlot(span, words, i, word, k); }
    assert a == b;
  }

  lemma FrontSlot(span: nat, words: seq<nat>, i: nat, word: nat, k: nat)
    requires span > 0 && i < |words| && k < |words| && Low(span, word) == Low(span, words[i])
    ensures Slots(span, Front<nat>(words, i, word))[k] == Front<nat>(Slots(span, words), i, Slots(span, words)[i])[k]
  {
    hide Low, Slots;
    var f := Front<nat>(words, i, word);
    var o := if k == 0 then i else if k <= i then k - 1 else k;
    assert Low(span, f[k]) == Low(span, words[o]);
  }

  // ---------------------------------------------------------------- records

  /** How often a line was used, and which bits of its use mask are set. */
  datatype Use = Use(count: nat, mask: set<nat>)

  /** What a slot holds: the line, the counters its use is charged to, and the last-level slot
      the line came from. */
  datatype Loaded = Loaded(memline: nat, base: SortedList.Option<nat>, dep: SortedList.Option<(nat, nat)>)

  datatype UseSet = UseSet(words: seq<nat>, use: seq<Use>, loaded: seq<Loaded>)

  ghost predicate UseShape(g: Geometry, u: UseSet) {
    |u.words| == g.assoc == |u.use| == |u.loaded|
  }

  /** One set in a reachable state: the pointers are a permutation, and each way's record holds a
      line of this set (or none yet) whose tag is the way's. */
  ghost predicate SetOk(g: Geometry, s: nat, u: UseSet) {
    && UseWf(g) && UseShape(g, u) && Permuted(g.Span(), u.words)
    && forall i :: 0 <= i < g.assoc ==> RecordOf(g, s, u, i)
  }

  ghost predicate RecordOf(g: Geometry, s: nat, u: UseSet, i: nat)
    requires UseWf(g) && i < |u.words|
  {
    var slot := Low(g.Span(), u.words[i]);
    && slot < |u.loaded|
    && High(g.Span(), u.words[i]) == MaskedTag(g, u.loaded[slot].memline)
    && (u.loaded[slot].memline == 0 || SetNo(g, u.loaded[slot].memline) == s)
  }

  /** A set after a reference by line `memline`, with what becomes of the slot's record. */
  function Refer(g: Geometry, u: UseSet, tag: nat, use: Use, loaded: Loaded): (r: UseSet)
    requires g.Span() > 0 && |u.words| > 0 && TagStep(g.Span(), u.words, tag).1 < |u.use| && |u.use| == |u.loaded|
  {
    var (words, slot, hit) := TagStep(g.Span(), u.words, tag);
    UseSet(words, u.use[slot := use], u.loaded[slot := loaded])
  }

  lemma ReferKeeps(g: Geometry, s: nat, u: UseSet, memline: nat, use: Use, loaded: Loaded)
    requires SetOk(g, s, u) && SetNo(g, memline) == s
    requires var (words, slot, hit) := TagStep(g.Span(), u.words, MaskedTag(g, memline));
             slot < g.assoc && loaded.memline == if hit then u.loaded[slot].memline else memline
    ensures SetOk(g, s, Refer(g, u, MaskedTag(g, memline), use, loaded))
  {
    hide Low, High, Permuted, SetNo, Geometry.Span;
    var span, tag, k := g.Span(), MaskedTag(g, memline), memline % ADDR_LIMIT / g.Span();
    var i, r, v := Taken(span, u.words, tag), TagStep(span, u.words, tag), Refer(g, u, tag, use, loaded);
    assert tag == k * span;
    TagStepPermuted(span, u.words, k);
    PermutedSlots(span, u.words);
    WordParts(span, k, r.1);
    hide MaskedTag;
    assert RecordOf(g, s, u, i);
    forall j | 0 <= j < g.assoc ensures RecordOf(g, s, v, j) {
      if j > 0 {
        var o := if j <= i then j - 1 else j;
        assert v.words[j] == u.words[o] && o != i;
        assert RecordOf(g, s, u, o);
      }
    }
  }

  // ---------------------------------------------------------------- records travel with their ways

  /** A way and the record its pointer leads to. */
  datatype Held = Held(tag: nat, use: Use, loaded: Loaded)

  ghost function Contents(g: Geometry, u: UseSet): (r: seq<Held>)
    requires UseWf(g) && UseShape(g, u) && Permuted(g.Span(), u.words)
    ensures |r| == g.assoc
  {
    PermutedSlots(g.Span(), u.words);
    seq(g.assoc, i requires 0 <= i < g.assoc => At(g, u, i))
  }

  ghost function At(g: Geometry, u: UseSet, i: nat): Held
    requires g.Span() > 0 && i < |u.words| && Low(g.Span(), u.words[i]) < |u.use| && |u.use| == |u.loaded|
  {
    var slot := Low(g.Span(), u.words[i]);
    Held(High(g.Span(), u.words[i]), u.use[slot], u.loaded[slot])
  }

  /** Reordering the words and rewriting one record in place is, seen through the pointers, moving
      the way together with its record to the front. */
  lemma RecordsTravel(g: Geometry, u: UseSet, memline: nat, use: Use, loaded: Loaded)
    requires UseWf(g) && UseShape(g, u) && Permuted(g.Span(), u.words)
    ensures var tag := MaskedTag(g, memline);
            && TagStep(g.Span(), u.words, tag).1 < g.assoc
            && UseShape(g, Refer(g, u, tag, use, loaded))
            && Permuted(g.Span(), Refer(g, u, tag, use, loaded).words)
            && Contents(g, Refer(g, u, tag, use, loaded)) ==
               Front(Contents(g, u), Taken(g.Span(), u.words, tag), Held(tag, use, loaded))
  {
    hide Low, High, Permuted, Geometry.Span;
    var span, tag, k := g.Span(), MaskedTag(g, memline), memline % ADDR_LIMIT / g.Span();
    assert tag == k * span;
    hide MaskedTag;
    TagStepPermuted(span, u.words, k);
    var i, r, v := Taken(span, u.words, tag), TagStep(span, u.words, tag), Refer(g, u, tag, use, loaded);
    PermutedSlots(span, u.words);
    PermutedSlots(span, v.words);
    WordParts(span, k, r.1);
    var c := Contents(g, u);
    var a, b := Contents(g, v), Front(c, i, Held(tag, use, loaded));
    forall j | 0 <= j < g.assoc ensures a[j] == b[j] {
      assert a[j] == At(g, v, j);
      if j > 0 {
        var o := if j <= i then j - 1 else j;
        assert v.words[j] == u.words[o] && o != i;
        assert c[o] == At(g, u, o);
      }
    }
    hide Contents, Front;
    assert a == b;
  }

  // ---------------------------------------------------------------- two levels

  datatype Levels = Levels(l1: seq<UseSet>, ll: seq<UseSet>)

  /** Where the program is: whether costs are collected, and the counters of the current instruction. */
  datatype Place = Place(collect: bool, base: SortedList.Option<nat>)

  datatype Outcome = L1Hit | LLHit | MemAccess

  ghost predicate LevelOk(g: Geometry, sets: seq<UseSet>) {
    UseWf(g) && |sets| == g.sets && forall s :: 0 <= s < g.sets ==> SetOk(g, s, sets[s])
  }

  /** A slot that has counters also has a last-level record, and that record exists. */
  ghost predicate Linked(gl: Geometry, l: Loaded) {
    match l.dep
    case None => l.base.None? && l.memline == 0
    case Some(d) => d.0 < gl.sets && d.1 < gl.assoc
  }

  ghost predicate AllLinked(gl: Geometry, l1: seq<UseSet>) {
    forall s, x :: 0 <= s < |l1| && 0 <= x < |l1[s].loaded| ==> Linked(gl, l1[s].loaded[x])
  }

  ghost predicate UseInv(g1: Geometry, gl: Geometry, lv: Levels) {
    LevelOk(g1, lv.l1) && LevelOk(gl, lv.ll) && AllLinked(gl, lv.l1)
  }

  lemma SlotInRange(g: Geometry, s: nat, u: UseSet, memline: nat)
    requires SetOk(g, s, u)
    ensures var r := TagStep(g.Span(), u.words, MaskedTag(g, memline)); r.1 < g.assoc
  {
    TagStepPermuted(g.Span(), u.words, memline % ADDR_LIMIT / g.Span());
  }

  lemma WithSetOk(g: Geometry, sets: seq<UseSet>, s: nat, u: UseSet)
    requires LevelOk(g, sets) && s < g.sets && SetOk(g, s, u)
    ensures LevelOk(g, sets[s := u])
  {
    hide SetOk;
  }

  /** cacheuse_LL_access and update_LL_use: the sets after looking a line up, the slot that now
      holds it and whether it was there. */
  ghost function LLAccess(g: Geometry, ll: seq<UseSet>, memline: nat, here: Place): (r: (seq<UseSet>, (nat, nat), Outcome))
    requires LevelOk(g, ll)
    ensures LevelOk(g, r.0) && r.1.0 < g.sets && r.1.1 < g.assoc && r.2 != L1Hit
  {
    hide Geometry.Span, Permuted, MaskedTag, TagStep, SetNo;
    var s, tag := SetNo(g, memline), MaskedTag(g, memline);
    SlotInRange(g, s, ll[s], memline);
    var (_, slot, hit) := TagStep(g.Span(), ll[s].words, tag);
    var use, loaded :=
      if hit then ll[s].use[slot] else Use(0, {}),
      if hit then ll[s].loaded[slot] else ll[s].loaded[slot].(memline := memline, base := here.base);
    ReferKeeps(g, s, ll[s], memline, use, loaded);
    var u := Refer(g, ll[s], tag, use, loaded);
    WithSetOk(g, ll, s, u);
    (ll[s := u], (s, slot), if hit then LLHit else MemAccess)
  }

  /** An evicted line's use is added to the record of the last-level line it came from. */
  ghost function Charge(g: Geometry, ll: seq<UseSet>, dep: (nat, nat), use: Use): (r: seq<UseSet>)
    requires LevelOk(g, ll) && dep.0 < g.sets && dep.1 < g.assoc
    ensures LevelOk(g, r)
  {
    var u := ll[dep.0];
    var sum := Use(u.use[dep.1].count + use.count, u.use[dep.1].mask + use.mask);
    var v := u.(use := u.use[dep.1 := sum]);
    SameWordsOk(g, dep.0, u, v);
    hide SetOk;
    ll[dep.0 := v]
  }

  lemma SameWordsOk(g: Geometry, s: nat, u: UseSet, v: UseSet)
    requires SetOk(g, s, u) && v.words == u.words && v.loaded == u.loaded && |v.use| == |u.use|
    ensures SetOk(g, s, v)
  {
    hide Permuted, MaskedTag, SetNo, High, Low, Geometry.Span;
    forall i | 0 <= i < g.assoc ensures RecordOf(g, s, v, i) { assert RecordOf(g, s, u, i); }
  }

  /** The base address of a line. */
  function MemLine(g: Geometry, a: nat): nat
    requires g.lineSize > 0
  {
    a - a % g.lineSize
  }

  /** update_L1_use: the last level and the slot's new contents after a miss on a slot that held
      `ld`, used as `old_`.  A line at address 0 is not looked up. */
  ghost function UpdateUse(gl: Geometry, ll: seq<UseSet>, old_: Use, ld: Loaded, memline: nat, here: Place)
    : (r: (seq<UseSet>, Loaded, Outcome))
    requires LevelOk(gl, ll) && Linked(gl, ld) && (memline == 0 ==> ld.dep.Some?)
    ensures LevelOk(gl, r.0) && Linked(gl, r.1) && r.1.memline == memline && r.2 != L1Hit
  {
    var charged :=
      if old_.count > 0 && here.collect && ld.base.Some? then Charge(gl, ll, ld.dep.value, old_) else ll;
    if memline == 0 then (charged, Loaded(0, here.base, ld.dep), LLHit)
    else
      var (after, slot, outcome) := LLAccess(gl, charged, memline, here);
      (after, Loaded(memline, here.base, SortedList.Some(slot)), outcome)
  }

  lemma LineParts(a: nat, lineSize: nat, sets: nat, k: nat)
    requires lineSize > 0 && sets > 0 && k > 0
    ensures var m, span, limit := a - a % lineSize, lineSize * sets, lineSize * sets * k;
            span > 0 && limit > 0 && m / lineSize == a / lineSize && a % limit / span == m % limit / span
  {
    var q, r, period := a / lineSize, a % lineSize, sets * k;
    DivUnique(lineSize * q, lineSize, q, 0);
    DivTwice(a, lineSize, sets);
    Multiple(sets, k);
    Assoc(lineSize, sets, k);
    Within(a, lineSize, period, q, r);
    Within(lineSize * q, lineSize, period, q, 0);
    DivTwice(a % (lineSize * period), lineSize, sets);
    DivTwice((lineSize * q) % (lineSize * period), lineSize, sets);
    DivUnique(lineSize * (q % period) + r, lineSize, q % period, r);
    DivUnique(lineSize * (q % period), lineSize, q % period, 0);
  }

  /** Reduction modulo a multiple of the line size keeps the offset in the line. */
  lemma Within(a: nat, lineSize: nat, period: nat, q: nat, r: nat)
    requires lineSize > 0 && period > 0 && r < lineSize && a == lineSize * q + r
    ensures lineSize * period > 0 && a % (lineSize * period) == lineSize * (q % period) + r
  {
    Nested(lineSize, period, q / period, q % period, r);
    ModUnique(a, lineSize * period, q / period, lineSize * (q % period) + r);
  }

  /** An address and the start of its line have the same tag and set. */
  lemma SameLine(g: Geometry, a: nat)
    requires UseWf(g)
    ensures MaskedTag(g, MemLine(g, a)) == MaskedTag(g, a) && SetNo(g, MemLine(g, a)) == SetNo(g, a)
  {
    var k := ADDR_LIMIT / g.Span();
    assert ADDR_LIMIT == g.Span() * k;
    LineParts(a, g.lineSize, g.sets, k);
  }

  lemma ZeroTag(g: Geometry)
    requires UseWf(g)
    ensures MaskedTag(g, 0) == 0
  {
    DivZero(0, g.Span());
  }

  /** The slot a miss reuses has been filled before if the line at address 0 is coming in: empty
      ways would have matched. */
  lemma VictimFilled(g: Geometry, gl: Geometry, s: nat, u: UseSet, a: nat)
    requires SetOk(g, s, u) && forall x :: 0 <= x < |u.loaded| ==> Linked(gl, u.loaded[x])
    ensures var (_, slot, hit) := TagStep(g.Span(), u.words, MaskedTag(g, a));
            slot < g.assoc && (!hit && MemLine(g, a) == 0 ==> u.loaded[slot].dep.Some?)
  {
    hide Geometry.Span, Permuted, MaskedTag, SetNo, High, Low;
    SlotInRange(g, s, u, a);
    SameLine(g, a);
    ZeroTag(g);
    var i := Taken(g.Span(), u.words, MaskedTag(g, a));
    assert RecordOf(g, s, u, i);
  }

  /** One line of a reference: CACHEUSE's search, shuffle and record update. */
  ghost function LineUse(g1: Geometry, gl: Geometry, lv: Levels, a: nat, mask: set<nat>, here: Place): (r: (Levels, Outcome))
    requires UseInv(g1, gl, lv)
    ensures UseInv(g1, gl, r.0)
  {
    hide Geometry.Span, Permuted, MaskedTag, TagStep, SetNo, MemLine, Linked, SetOk, UpdateUse;
    var s, tag, memline := SetNo(g1, a), MaskedTag(g1, a), MemLine(g1, a);
    var u := lv.l1[s];
    SetShape(g1, s, u);
    VictimFilled(g1, gl, s, u, a);
    SameLine(g1, a);
    var (_, slot, hit) := TagStep(g1.Span(), u.words, tag);
    if hit then
      var use := Use(u.use[slot].count + 1, u.use[slot].mask + mask);
      ReferKeeps(g1, s, u, memline, use, u.loaded[slot]);
      var v := Refer(g1, u, tag, use, u.loaded[slot]);
      (lv.(l1 := lv.l1[s := v]), L1Hit)
    else
      var (ll, loaded, outcome) := UpdateUse(gl, lv.ll, u.use[slot], u.loaded[slot], memline, here);
      ReferKeeps(g1, s, u, memline, Use(1, mask), loaded);
      var v := Refer(g1, u, tag, Use(1, mask), loaded);
      (Levels(lv.l1[s := v], ll), outcome)
  }

  lemma SetShape(g: Geometry, s: nat, u: UseSet)
    requires SetOk(g, s, u)
    ensures UseShape(g, u) && UseWf(g)
  {
  }

  /** Which bits of the use mask an access sets, by its first and last byte in the line. */
  datatype Masks = Masks(start: seq<set<nat>>, end: seq<set<nat>>)

  function Offset(g: Geometry, a: nat): (r: nat)
    requires g.lineSize > 0
    ensures r < g.lineSize
  {
    a % g.lineSize
  }

  ghost predicate MasksFor(g: Geometry, m: Masks) { |m.start| == g.lineSize == |m.end| }

  function Both(first: Outcome, second: Outcome): Outcome {
    if second == L1Hit then first
    else if first == MemAccess || second == MemAccess then MemAccess
    else LLHit
  }

  /** cacheuse_doRead for an access that does not exceed a line. */
  ghost function ReadUse(g1: Geometry, gl: Geometry, masks: Masks, lv: Levels, m: Access, here: Place): (r: (Levels, Outcome))
    requires UseInv(g1, gl, lv) && MasksFor(g1, masks) && m.size >= 1
    ensures UseInv(g1, gl, r.0)
  {
    hide LineUse, SetOk, AllLinked;
    var last := m.addr + m.size - 1;
    var start, end := masks.start[Offset(g1, m.addr)], masks.end[Offset(g1, last)];
    if SetNo(g1, m.addr) == SetNo(g1, last) then LineUse(g1, gl, lv, m.addr, start * end, here)
    else
      var (lv1, first) := LineUse(g1, gl, lv, m.addr, start, here);
      var (lv2, second) := LineUse(g1, gl, lv1, last, end, here);
      (lv2, Both(first, second))
  }

  // ---------------------------------------------------------------- runs

  datatype Step = Step(access: Access, here: Place)

  function ClearedSet(g: Geometry): (u: UseSet)
  {
    UseSet(Iota(g.assoc), seq(g.assoc, i => Use(0, {})),
           seq(g.assoc, i => Loaded(0, SortedList.None, SortedList.None)))
  }

  function ClearedLevel(g: Geometry): (r: seq<UseSet>)
    ensures |r| == g.sets && forall s :: 0 <= s < g.sets ==> r[s] == ClearedSet(g)
  {
    seq(g.sets, s => ClearedSet(g))
  }

  lemma ClearedOk(g: Geometry, s: nat)
    requires UseWf(g)
    ensures SetOk(g, s, ClearedSet(g))
  {
    hide Geometry.Span, MaskedTag, SetNo;
    var u, span := ClearedSet(g), g.Span();
    ZeroTag(g);
    forall i | 0 <= i < g.assoc ensures Low(span, u.words[i]) == i && High(span, u.words[i]) == 0 {
      WordParts(span, 0, i);
    }
    assert Slots(span, u.words) == Iota(g.assoc);
  }

  ghost predicate StepsFit(g: Geometry, steps: seq<Step>) {
    forall i :: 0 <= i < |steps| ==> 1 <= steps[i].access.size <= g.lineSize
  }

  /** Both levels after a run of references from cleared caches. */
  ghost function UseRun(g1: Geometry, gl: Geometry, masks: Masks, steps: seq<Step>): (lv: Levels)
    requires UseWf(g1) && UseWf(gl) && MasksFor(g1, masks) && StepsFit(g1, steps)
    ensures UseInv(g1, gl, lv)
  {
    hide SetOk, ReadUse;
    if steps == [] then
      assert forall s :: 0 <= s < g1.sets ==> SetOk(g1, s, ClearedSet(g1)) by {
        forall s | 0 <= s < g1.sets ensures SetOk(g1, s, ClearedSet(g1)) { ClearedOk(g1, s); }
      }
      assert forall s :: 0 <= s < gl.sets ==> SetOk(gl, s, ClearedSet(gl)) by {
        forall s | 0 <= s < gl.sets ensures SetOk(gl, s, ClearedSet(gl)) { ClearedOk(gl, s); }
      }
      Levels(ClearedLevel(g1), ClearedLevel(gl))
    else
      var last := steps[|steps| - 1];
      ReadUse(g1, gl, masks, UseRun(g1, gl, masks, steps[..|steps| - 1]), last.access, last.here).0
  }

  /** Pointers of one set: in range, unshared, all taken; and each leads to a record whose line has
      the way's tag and maps to this set. */
  ghost predicate PointersSound(g: Geometry, s: nat, u: UseSet)
    requires UseWf(g)
  {
    && |u.words| == |u.use| == |u.loaded| == g.assoc
    && (forall i :: 0 <= i < g.assoc ==> Low(g.Span(), u.words[i]) < g.assoc)
    && (forall i, j :: 0 <= i < j < g.assoc ==> Low(g.Span(), u.words[i]) != Low(g.Span(), u.words[j]))
    && (forall x :: 0 <= x < g.assoc ==> x in Slots(g.Span(), u.words))
    && (forall i :: 0 <= i < g.assoc ==>
          var line := u.loaded[Low(g.Span(), u.words[i])].memline;
          High(g.Span(), u.words[i]) == MaskedTag(g, line) && (line == 0 || SetNo(g, line) == s))
  }

  lemma SetOkSound(g: Geometry, s: nat, u: UseSet)
    requires SetOk(g, s, u)
    ensures PointersSound(g, s, u)
  {
    hide Geometry.Span, MaskedTag, SetNo, High, Low, Permuted;
    PermutedSlots(g.Span(), u.words);
    forall i | 0 <= i < g.assoc
      ensures var line := u.loaded[Low(g.Span(), u.words[i])].memline;
              High(g.Span(), u.words[i]) == MaskedTag(g, line) && (line == 0 || SetNo(g, line) == s)
    {
      assert RecordOf(g, s, u, i);
    }
  }

  /** In every reachable state of both levels. */
  lemma PointersAlwaysSound(g1: Geometry, gl: Geometry, masks: Masks, steps: seq<Step>, s: nat)
    requires UseWf(g1) && UseWf(gl) && MasksFor(g1, masks) && StepsFit(g1, steps)
    ensures s < g1.sets ==> PointersSound(g1, s, UseRun(g1, gl, masks, steps).l1[s])
    ensures s < gl.sets ==> PointersSound(gl, s, UseRun(g1, gl, masks, steps).ll[s])
  {
    hide SetOk, PointersSound;
    var lv := UseRun(g1, gl, masks, steps);
    if s < g1.sets { SetOkSound(g1, s, lv.l1[s]); }
    if s < gl.sets { SetOkSound(gl, s, lv.ll[s]); }
  }

  // ---------------------------------------------------------------- hits like the plain cache

  ghost function Highs(g: Geometry, u: UseSet): (r: seq<nat>)
    requires g.Span() > 0
    ensures |r| == |u.words| && forall i :: 0 <= i < |r| ==> r[i] == High(g.Span(), u.words[i])
  {
    seq(|u.words|, i requires 0 <= i < |u.words| => High(g.Span(), u.words[i]))
  }

  lemma HighEven(span: nat, word: nat)
    requires span > 0 && span % 2 == 0
    ensures Clear(High(span, word)) == High(span, word) && !Flag(High(span, word))
  {
    assert High(span, word) == (word / span) * span;
    MulEven(word / span, span);
  }

  lemma MarkRead(x: nat)
    ensures Mark(x, false) == x
  {
  }

  /** A read of clean tag words moves the tag to the front. */
  lemma TouchRead(ways: seq<nat>, tag: nat)
    requires |ways| > 0 && forall i :: 0 <= i < |ways| ==> Clear(ways[i]) == ways[i] && !Flag(ways[i])
    ensures var i := WbWay(ways, tag);
            TouchWb(ways, tag, false) ==
            if i < |ways| then (Front<nat>(ways, i, tag), Hit) else (Front<nat>(ways, |ways| - 1, tag), Miss)
  {
    hide Clear, Flag, Mark, WbWay;
    var i := WbWay(ways, tag);
    if i < |ways| {
      MarkRead(ways[i]);
    } else {
      var n := |ways| - 1;
      assert [tag] + ways[..n] + ways[n + 1..] == [tag] + ways[..n];
    }
  }

  lemma SameUseWay(g: Geometry, u: UseSet, tag: nat)
    requires UseWf(g)
    ensures WbWay(Highs(g, u), tag) == UseWay(g.Span(), u.words, tag)
    ensures forall i :: 0 <= i < |u.words| ==> Clear(Highs(g, u)[i]) == Highs(g, u)[i] && !Flag(Highs(g, u)[i])
  {
    hide High, Clear, Flag, Geometry.Span, Highs;
    var hs := Highs(g, u);
    forall i | 0 <= i < |hs| ensures Clear(hs[i]) == hs[i] == High(g.Span(), u.words[i]) && !Flag(hs[i]) {
      HighEven(g.Span(), u.words[i]);
    }
  }

  /** Pointers aside, a reference does to a set what a read does to the write-back cache's. */
  lemma HighsFollow(g: Geometry, u: UseSet, memline: nat, use: Use, loaded: Loaded)
    requires UseWf(g) && UseShape(g, u) && Permuted(g.Span(), u.words)
    requires TagStep(g.Span(), u.words, MaskedTag(g, memline)).1 < g.assoc
    ensures var tag := MaskedTag(g, memline);
            var t := TouchWb(Highs(g, u), tag, false);
            && t.0 == Highs(g, Refer(g, u, tag, use, loaded))
            && (t.1 == Hit <==> TagStep(g.Span(), u.words, tag).2)
  {
    hide Low, High, Permuted, Geometry.Span, Clear, Flag, Mark, Highs, WbWay, UseWay, TouchWb;
    var span, tag, k, hs := g.Span(), MaskedTag(g, memline), memline % ADDR_LIMIT / g.Span(), Highs(g, u);
    assert tag == k * span;
    hide MaskedTag;
    var i, r := Taken(span, u.words, tag), TagStep(span, u.words, tag);
    SameUseWay(g, u, tag);
    TouchRead(hs, tag);
    WordParts(span, k, r.1);
    FrontHighs(g, u, i, r.0, tag);
    SameHighs(g, Refer(g, u, tag, use, loaded), UseSet(r.0, u.use, u.loaded));
  }

  lemma SameHighs(g: Geometry, u: UseSet, v: UseSet)
    requires g.Span() > 0 && u.words == v.words
    ensures Highs(g, u) == Highs(g, v)
  {
  }

  lemma FrontHighs(g: Geometry, u: UseSet, i: nat, words: seq<nat>, tag: nat)
    requires g.Span() > 0 && i < |u.words| == |words| && High(g.Span(), words[0]) == tag
    requires words == Front<nat>(u.words, i, words[0])
    ensures Highs(g, UseSet(words, u.use, u.loaded)) == Front<nat>(Highs(g, u), i, tag)
  {
    hide High, Geometry.Span, Highs;
    var a, b := Highs(g, UseSet(words, u.use, u.loaded)), Front<nat>(Highs(g, u), i, tag);
    forall j | 0 <= j < |a| ensures a[j] == b[j] {
      if j > 0 {
        var o := if j <= i then j - 1 else j;
        assert b[j] == Highs(g, u)[o];
        assert words[j] == u.words[o];
      }
    }
  }

  ghost function AllHighs(g: Geometry, l1: seq<UseSet>): (r: seq<seq<nat>>)
    requires LevelOk(g, l1)
    ensures WbShape(g, r) && forall s :: 0 <= s < g.sets ==> r[s] == Highs(g, l1[s])
  {
    hide RecordOf, Permuted;
    seq(g.sets, s requires 0 <= s < g.sets => Highs(g, l1[s]))
  }

  lemma LineFollows(g1: Geometry, gl: Geometry, lv: Levels, a: nat, mask: set<nat>, here: Place)
    requires UseInv(g1, gl, lv)
    ensures var r, w := LineUse(g1, gl, lv, a, mask, here), WbSet(AllHighs(g1, lv.l1), SetNo(g1, a), MaskedTag(g1, a), false);
            AllHighs(g1, r.0.l1) == w.0 && (r.1 == L1Hit <==> w.1 == Hit)
  {
    hide Geometry.Span, Permuted, MaskedTag, TagStep, SetNo, MemLine, Linked, UpdateUse, RecordOf, TouchWb, High, Low;
    var s, u := SetNo(g1, a), lv.l1[SetNo(g1, a)];
    SetShape(g1, s, u);
    VictimFilled(g1, gl, s, u, a);
    var v := LineUse(g1, gl, lv, a, mask, here).0.l1[s];
    var slot := TagStep(g1.Span(), u.words, MaskedTag(g1, a)).1;
    HighsFollow(g1, u, a, v.use[slot], v.loaded[slot]);
    assert AllHighs(g1, LineUse(g1, gl, lv, a, mask, here).0.l1) == AllHighs(g1, lv.l1)[s := Highs(g1, v)];
  }

  lemma Positive(g1: Geometry, gl: Geometry, lv: Levels)
    requires UseInv(g1, gl, lv)
    ensures g1.lineSize > 0 && g1.sets > 0 && g1.Wf()
  {
  }

  function AsRead(m: Access): MemRef { MemRef(m.addr, m.size, false) }

  lemma ReadFollowsOne(g1: Geometry, gl: Geometry, masks: Masks, lv: Levels, m: Access, here: Place)
    requires UseInv(g1, gl, lv) && MasksFor(g1, masks) && m.size >= 1
    requires g1.lineSize > 0 && g1.sets > 0 && SetNo(g1, m.addr) == SetNo(g1, m.addr + m.size - 1)
    ensures var r, w := ReadUse(g1, gl, masks, lv, m, here), RefWb(g1, AllHighs(g1, lv.l1), AsRead(m));
            AllHighs(g1, r.0.l1) == w.0 && (r.1 == L1Hit <==> w.1 == Hit)
  {
    hide LineUse, AllHighs, MaskedTag, WbSet, LevelOk, AllLinked, SetNo, Geometry.Span, Offset;
    var last := m.addr + m.size - 1;
    var mask := masks.start[Offset(g1, m.addr)] * masks.end[Offset(g1, last)];
    LineFollows(g1, gl, lv, m.addr, mask, here);
    assert ReadUse(g1, gl, masks, lv, m, here) == LineUse(g1, gl, lv, m.addr, mask, here);
  }

  lemma ReadFollowsTwo(g1: Geometry, gl: Geometry, masks: Masks, lv: Levels, m: Access, here: Place)
    requires UseInv(g1, gl, lv) && MasksFor(g1, masks) && m.size >= 1
    requires g1.lineSize > 0 && g1.sets > 0 && SetNo(g1, m.addr) != SetNo(g1, m.addr + m.size - 1)
    ensures var r, w := ReadUse(g1, gl, masks, lv, m, here), RefWb(g1, AllHighs(g1, lv.l1), AsRead(m));
            AllHighs(g1, r.0.l1) == w.0 && (r.1 == L1Hit <==> w.1 == Hit)
  {
    hide LineUse, AllHighs, MaskedTag, WbSet, LevelOk, AllLinked, SetNo, Geometry.Span, Offset;
    var last := m.addr + m.size - 1;
    var r1 := LineUse(g1, gl, lv, m.addr, masks.start[Offset(g1, m.addr)], here);
    var r2 := LineUse(g1, gl, r1.0, last, masks.end[Offset(g1, last)], here);
    LineFollows(g1, gl, lv, m.addr, masks.start[Offset(g1, m.addr)], here);
    LineFollows(g1, gl, r1.0, last, masks.end[Offset(g1, last)], here);
    assert ReadUse(g1, gl, masks, lv, m, here) == (r2.0, Both(r1.1, r2.1));
  }

  lemma ReadFollows(g1: Geometry, gl: Geometry, masks: Masks, lv: Levels, m: Access, here: Place)
    requires UseInv(g1, gl, lv) && MasksFor(g1, masks) && m.size >= 1
    ensures var r, w := ReadUse(g1, gl, masks, lv, m, here), RefWb(g1, AllHighs(g1, lv.l1), AsRead(m));
            AllHighs(g1, r.0.l1) == w.0 && (r.1 == L1Hit <==> w.1 == Hit)
  {
    Positive(g1, gl, lv);
    hide *;
    if SetNo(g1, m.addr) == SetNo(g1, m.addr + m.size - 1) {
      ReadFollowsOne(g1, gl, masks, lv, m, here);
    } else {
      ReadFollowsTwo(g1, gl, masks, lv, m, here);
    }
  }

  function AsReads(steps: seq<Step>): (r: seq<MemRef>)
    ensures |r| == |steps| && forall i :: 0 <= i < |r| ==> r[i] == AsRead(steps[i].access)
  {
    seq(|steps|, i requires 0 <= i < |steps| => AsRead(steps[i].access))
  }

  lemma {:induction false} RunFollows(g1: Geometry, gl: Geometry, masks: Masks, steps: seq<Step>)
    requires UseWf(g1) && UseWf(gl) && MasksFor(g1, masks) && AllInRange(g1, AsReads(steps))
    ensures StepsFit(g1, steps)
    ensures AllHighs(g1, UseRun(g1, gl, masks, steps).l1) == WbRun(g1, AsReads(steps))
  {
    hide ReadUse, RefWb, LevelOk, AllLinked, AllHighs, Geometry.Span;
    StepsInRange(g1, steps);
    if steps == [] {
      ClearedHighs(g1, UseRun(g1, gl, masks, steps).l1);
    } else {
      var n := |steps| - 1;
      assert AsReads(steps)[..n] == AsReads(steps[..n]);
      RunFollows(g1, gl, masks, steps[..n]);
      ReadFollows(g1, gl, masks, UseRun(g1, gl, masks, steps[..n]), steps[n].access, steps[n].here);
    }
  }

  lemma StepsInRange(g: Geometry, steps: seq<Step>)
    requires AllInRange(g, AsReads(steps))
    ensures StepsFit(g, steps)
  {
    forall i | 0 <= i < |steps| ensures 1 <= steps[i].access.size <= g.lineSize {
      assert InRange(g, AsReads(steps)[i]);
    }
  }

  lemma ClearedHighs(g: Geometry, l1: seq<UseSet>)
    requires LevelOk(g, l1) && l1 == ClearedLevel(g)
    ensures AllHighs(g, l1) == seq(g.sets, i => Zeros(g.assoc))
  {
    hide SetOk, Geometry.Span;
    forall s | 0 <= s < g.sets ensures Highs(g, l1[s]) == Zeros(g.assoc) {
      forall i | 0 <= i < g.assoc ensures High(g.Span(), Iota(g.assoc)[i]) == 0 {
        WordParts(g.Span(), 0, i);
      }
    }
  }

  /** After any stream within the limits of the encoding, the cache-use simulator hits the first
      level exactly when the plain cache does. */
  lemma CacheUseHitsLikePlain(g1: Geometry, gl: Geometry, masks: Masks, steps: seq<Step>, m: Access, here: Place)
    requires UseWf(g1) && UseWf(gl) && MasksFor(g1, masks)
    requires AllInRange(g1, AsReads(steps)) && InRange(g1, AsRead(m))
    ensures StepsFit(g1, steps)
    ensures ReadUse(g1, gl, masks, UseRun(g1, gl, masks, steps), m, here).1 == L1Hit <==>
            !PlainRun(g1, AsReads(steps)).Ref(m.addr, m.size).1
  {
    hide ReadUse, RefWb, UseRun, WbRun, PlainRun, Cache.Ref, UseInv, UseWf;
    RunFollows(g1, gl, masks, steps);
    ReadFollows(g1, gl, masks, UseRun(g1, gl, masks, steps), m, here);
    WriteBackHitsLikePlain(g1, AsReads(steps), AsRead(m));
  }
}
