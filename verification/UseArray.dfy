/** The cache-use simulator of callgrind/sim.c on its arrays: tag words, use counters and loaded lines. */
module UseArray {
  import SortedList
  import opened Lru
  import opened CacheSim
  import opened WriteBack
  import opened CacheUse
  import opened WbArray

  ghost function Row<T>(flat: seq<T>, s: nat, rows: nat, width: nat): (r: seq<T>)
    requires s < rows && |flat| == rows * width
    ensures |r| == width
  {
    RowBounds(s, rows, width);
    flat[s * width..s * width + width]
  }

  /** Writing one element changes one row in one place. */
  lemma RowWrite<T>(flat: seq<T>, s: nat, rows: nat, width: nat, k: nat, x: T, r: nat)
    requires s < rows && r < rows && k < width && |flat| == rows * width
    ensures 0 <= s * width + k < |flat| && flat[s * width + k] == Row(flat, s, rows, width)[k]
    ensures Row(flat[s * width + k := x], r, rows, width) ==
            if r == s then Row(flat, s, rows, width)[k := x] else Row(flat, r, rows, width)
  {
    RowBounds(s, rows, width);
    RowBounds(r, rows, width);
    if r < s { RowsApart(r, s, width); } else if s < r { RowsApart(s, r, width); }
    hide *;
    var b, c := s * width, r * width;
    if r == s {
      assert flat[b + k := x][c..c + width] == flat[b..b + width][k := x];
    } else {
      assert flat[b + k := x][c..c + width] == flat[c..c + width];
    }
  }

  class UseCache {
    const g: Geometry
    const tags: CacheT
    const use: array<Use>
    const loaded: array<Loaded>

    ghost predicate Valid()
      reads this, tags
    {
      && tags.Valid() && tags.lineSize == g.lineSize && tags.sets == g.sets && tags.assoc == g.assoc
      && use.Length == loaded.Length == g.sets * g.assoc
    }

    ghost function SetAt(s: nat): (u: UseSet)
      requires Valid() && s < g.sets
      reads this, tags, tags.tags, use, loaded
      ensures UseShape(g, u)
    {
      UseSet(tags.Set(s), Row(use[..], s, g.sets, g.assoc), Row(loaded[..], s, g.sets, g.assoc))
    }

    ghost function View(): (r: seq<UseSet>)
      requires Valid()
      reads this, tags, tags.tags, use, loaded
      ensures |r| == g.sets && forall s :: 0 <= s < g.sets ==> r[s] == SetAt(s)
    {
      seq(g.sets, s requires 0 <= s < g.sets reads this, tags, tags.tags, use, loaded => SetAt(s))
    }

    /** cachesim_clearcache: every way points to the record of its own position. */
    constructor (g: Geometry)
      requires UseWf(g)
      ensures Valid() && this.g == g && View() == ClearedLevel(g)
      ensures fresh(tags) && fresh(tags.tags) && fresh(use) && fresh(loaded)
    {
      this.g := g;
      tags := new CacheT(g.lineSize, g.sets, g.assoc);
      use := new Use[g.sets * g.assoc](_ => Use(0, {}));
      loaded := new Loaded[g.sets * g.assoc](_ => Loaded(0, SortedList.None, SortedList.None));
      new;
      var i := 0;
      while i < tags.tags.Length
        invariant 0 <= i <= tags.tags.Length
        invariant forall k :: 0 <= k < i ==> tags.tags[k] == k % g.assoc
        modifies tags.tags
      {
        tags.tags[i] := i % g.assoc;
        i := i + 1;
      }
      forall s | 0 <= s < g.sets ensures SetAt(s) == ClearedSet(g) { Numbered(s); }
    }

    lemma Numbered(s: nat)
      requires Valid() && s < g.sets
      requires forall k :: 0 <= k < tags.tags.Length ==> tags.tags[k] == k % g.assoc
      requires forall k :: 0 <= k < use.Length ==> use[k] == Use(0, {})
      requires forall k :: 0 <= k < loaded.Length ==> loaded[k] == Loaded(0, SortedList.None, SortedList.None)
      ensures SetAt(s) == ClearedSet(g)
    {
      RowBounds(s, g.sets, g.assoc);
      var words := tags.Set(s);
      forall j | 0 <= j < g.assoc ensures words[j] == j {
        assert words[j] == tags.tags[s * g.assoc + j];
        ModUnique(s * g.assoc + j, g.assoc, s, j);
      }
      assert words == Iota(g.assoc);
      assert SetAt(s).use == ClearedSet(g).use;
      assert SetAt(s).loaded == ClearedSet(g).loaded;
    }

    /** The search, over all ways; the first is tried before the loop in the source. */
    method FindUseWay(s: nat, tag: nat) returns (i: nat)
      requires Valid() && g.Span() > 0 && s < g.sets
      ensures i == UseWay(g.Span(), tags.Set(s), tag)
    {
      hide High, Low, Geometry.Span;
      RowBounds(s, g.sets, g.assoc);
      ghost var words := tags.Set(s);
      var base, span := s * g.assoc, g.Span();
      i := 0;
      while i < g.assoc
        invariant 0 <= i <= g.assoc
        invariant forall k :: 0 <= k < i ==> High(span, words[k]) != tag
      {
        assert words[i] == tags.tags[base + i];
        if tag == High(span, tags.tags[base + i]) { return; }
        i := i + 1;
      }
    }

    /** Moves way i of a set to the front as `word`. */
    method ShuffleSet(s: nat, i: nat, word: nat)
      requires Valid() && s < g.sets && i < g.assoc
      modifies tags.tags
      ensures tags.Set(s) == Front<nat>(old(tags.Set(s)), i, word)
      ensures forall r :: 0 <= r < g.sets && r != s ==> tags.Set(r) == old(tags.Set(r))
    {
      RowBounds(s, g.sets, g.assoc);
      ghost var words, flat := tags.Set(s), tags.tags[..];
      tags.Shuffle(s * g.assoc, i, word);
      ShuffledSet(flat, s * g.assoc, g.assoc, i, word);
      ghost var row := Front<nat>(words, i, word);
      assert row == [word] + words[..i] + words[i + 1..];
      hide Front, Shuffled, WithSlice, Slice;
      forall r | 0 <= r < g.sets ensures tags.Set(r) == if r == s then row else old(tags.Set(r)) {
        RowBounds(r, g.sets, g.assoc);
        if r < s { RowsApart(r, s, g.assoc); } else if s < r { RowsApart(s, r, g.assoc); }
        SliceOfWithSlice(flat, s * g.assoc, g.assoc, row, r * g.assoc);
      }
    }

    /** Search and shuffle: the set's words after a reference, the slot and whether it hit. */
    method Reorder(s: nat, tag: nat) returns (slot: nat, hit: bool)
      requires Valid() && g.Span() > 0 && s < g.sets
      modifies tags.tags
      ensures var t := TagStep(g.Span(), old(tags.Set(s)), tag);
              tags.Set(s) == t.0 && slot == t.1 && hit == t.2
      ensures forall r :: 0 <= r < g.sets && r != s ==> tags.Set(r) == old(tags.Set(r))
    {
      hide High, Low, Geometry.Span, UseWay, Front, CacheT.Set;
      var i := FindUseWay(s, tag);
      hit := i < g.assoc;
      if !hit { i := g.assoc - 1; }
      var word := WayAt(s, i);
      slot := Low(g.Span(), word);
      if !hit { word := tag + slot; }
      ShuffleSet(s, i, word);
    }

    method WayAt(s: nat, i: nat) returns (word: nat)
      requires Valid() && s < g.sets && i < g.assoc
      ensures word == tags.Set(s)[i]
    {
      RowBounds(s, g.sets, g.assoc);
      word := tags.tags[s * g.assoc + i];
    }

    method ReadUseAt(s: nat, slot: nat) returns (u: Use, l: Loaded)
      requires Valid() && s < g.sets && slot < g.assoc
      ensures u == SetAt(s).use[slot] && l == SetAt(s).loaded[slot]
    {
      RowWrite(use[..], s, g.sets, g.assoc, slot, Use(0, {}), s);
      RowWrite(loaded[..], s, g.sets, g.assoc, slot, Loaded(0, SortedList.None, SortedList.None), s);
      u, l := use[s * g.assoc + slot], loaded[s * g.assoc + slot];
    }

    /** Writes one record. */
    method Write(s: nat, slot: nat, u: Use, l: Loaded)
      requires Valid() && s < g.sets && slot < g.assoc
      modifies use, loaded
      ensures var v := old(SetAt(s)); SetAt(s) == UseSet(v.words, v.use[slot := u], v.loaded[slot := l])
      ensures forall r :: 0 <= r < g.sets && r != s ==> SetAt(r) == old(SetAt(r))
    {
      ghost var us, ls := use[..], loaded[..];
      forall r | 0 <= r < g.sets
        ensures 0 <= s * g.assoc + slot < |us|
        ensures Row(us[s * g.assoc + slot := u], r, g.sets, g.assoc) ==
                if r == s then Row(us, s, g.sets, g.assoc)[slot := u] else Row(us, r, g.sets, g.assoc)
        ensures Row(ls[s * g.assoc + slot := l], r, g.sets, g.assoc) ==
                if r == s then Row(ls, s, g.sets, g.assoc)[slot := l] else Row(ls, r, g.sets, g.assoc)
      {
        RowWrite(us, s, g.sets, g.assoc, slot, u, r);
        RowWrite(ls, s, g.sets, g.assoc, slot, l, r);
      }
      hide Row;
      use[s * g.assoc + slot], loaded[s * g.assoc + slot] := u, l;
      assert use[..] == us[s * g.assoc + slot := u];
      assert loaded[..] == ls[s * g.assoc + slot := l];
    }
  
    /** The words of one set have been reordered, its records not yet written. */
    ghost predicate Reordered(before: seq<UseSet>, s: nat, tag: nat)
      requires Valid() && g.Span() > 0 && |before| == g.sets && s < g.sets && UseShape(g, before[s])
      reads this, tags, tags.tags, use, loaded
    {
      View() == before[s := before[s].(words := TagStep(g.Span(), before[s].words, tag).0)]
    }

    method Begin(s: nat, tag: nat) returns (slot: nat, hit: bool, u: Use, l: Loaded)
      requires Valid() && g.Span() > 0 && s < g.sets && TagStep(g.Span(), SetAt(s).words, tag).1 < g.assoc
      modifies tags.tags
      ensures Reordered(old(View()), s, tag)
      ensures TagStep(g.Span(), old(SetAt(s)).words, tag) == (tags.Set(s), slot, hit)
      ensures u == old(SetAt(s)).use[slot] && l == old(SetAt(s)).loaded[slot]
    {
      hide TagStep, Geometry.Span, Row, CacheT.Set;
      slot, hit := Reorder(s, tag);
      u, l := ReadUseAt(s, slot);
    }

    method Finish(s: nat, ghost tag: nat, slot: nat, u: Use, l: Loaded, ghost before: seq<UseSet>)
      requires Valid() && g.Span() > 0 && |before| == g.sets && s < g.sets && UseShape(g, before[s])
      requires Reordered(before, s, tag) && TagStep(g.Span(), before[s].words, tag).1 == slot < g.assoc
      modifies use, loaded
      ensures View() == before[s := Refer(g, before[s], tag, u, l)]
    {
      hide TagStep, Geometry.Span, Row, CacheT.Set;
      Write(s, slot, u, l);
    }

    /** cacheuse_LL_access with update_LL_use; the slot is what `dep_use` is set to. */
    method Access(memline: nat, here: Place) returns (slot: (nat, nat), outcome: Outcome)
      requires Valid() && LevelOk(g, View())
      modifies tags.tags, use, loaded
      ensures (View(), slot, outcome) == LLAccess(g, old(View()), memline, here)
    {
      hide TagStep, Geometry.Span, MaskedTag, SetNo, RecordOf, Permuted, Row, CacheT.Set;
      ghost var before := View();
      var s, tag := SetNo(g, memline), MaskedTag(g, memline);
      SlotInRange(g, s, before[s], memline);
      var x, hit, u, l := Begin(s, tag);
      if !hit { u, l := Use(0, {}), l.(memline := memline, base := here.base); }
      Finish(s, tag, x, u, l, before);
      slot, outcome := (s, x), if hit then LLHit else MemAccess;
    }
  
    /** Adds an evicted line's use to one record. */
    method AddUse(dep: (nat, nat), evicted: Use)
      requires Valid() && LevelOk(g, View()) && dep.0 < g.sets && dep.1 < g.assoc
      modifies use, loaded
      ensures View() == Charge(g, old(View()), dep, evicted)
    {
      hide SetOk, Row, CacheT.Set;
      ghost var before := View();
      var u, l := ReadUseAt(dep.0, dep.1);
      Write(dep.0, dep.1, Use(u.count + evicted.count, u.mask + evicted.mask), l);
      ghost var v := before[dep.0];
      assert v.loaded[dep.1 := v.loaded[dep.1]] == v.loaded;
      assert View() == Charge(g, before, dep, evicted);
    }
  }

  /** A first-level cache and the last level below it. */
  class UseSim {
    const l1: UseCache
    const ll: UseCache
    const masks: Masks

    constructor (g1: Geometry, gl: Geometry, masks: Masks)
      requires UseWf(g1) && UseWf(gl) && MasksFor(g1, masks)
      ensures Valid() && l1.g == g1 && ll.g == gl && this.masks == masks
      ensures View() == UseRun(g1, gl, masks, [])
    {
      l1 := new UseCache(g1);
      ll := new UseCache(gl);
      this.masks := masks;
      new;
      assert View() == UseRun(g1, gl, masks, []);
    }

    ghost function Repr(): set<object>
      reads this, l1, ll, l1.tags, ll.tags
    {
      {l1.tags.tags, l1.use, l1.loaded, ll.tags.tags, ll.use, ll.loaded}
    }

    ghost predicate Separate()
      reads this, l1, ll, l1.tags, ll.tags
    {
      && l1.Valid() && ll.Valid()
      && l1.tags.tags != ll.tags.tags && l1.use != ll.use && l1.loaded != ll.loaded
    }

    ghost function View(): Levels
      requires Separate()
      reads this, l1, ll, l1.tags, ll.tags, Repr()
    {
      Levels(l1.View(), ll.View())
    }

    ghost predicate Valid()
      reads this, l1, ll, l1.tags, ll.tags, Repr()
    {
      Separate() && UseInv(l1.g, ll.g, View()) && MasksFor(l1.g, masks)
    }

    /** update_L1_use up to the writes to the slot itself. */
    method Update(evicted: Use, ld: Loaded, memline: nat, here: Place) returns (loaded: Loaded, outcome: Outcome)
      requires Separate() && LevelOk(ll.g, ll.View()) && Linked(ll.g, ld) && (memline == 0 ==> ld.dep.Some?)
      modifies ll.tags.tags, ll.use, ll.loaded
      ensures (ll.View(), loaded, outcome) == UpdateUse(ll.g, old(ll.View()), evicted, ld, memline, here)
      ensures l1.View() == old(l1.View())
    {
      hide LevelOk, Charge, LLAccess;
      if evicted.count > 0 && here.collect && ld.base.Some? {
        ll.AddUse(ld.dep.value, evicted);
      }
      if memline == 0 {
        loaded, outcome := Loaded(0, here.base, ld.dep), LLHit;
      } else {
        var slot;
        slot, outcome := ll.Access(memline, here);
        loaded := Loaded(memline, here.base, SortedList.Some(slot));
      }
    }

    method Line(a: nat, mask: set<nat>, here: Place) returns (outcome: Outcome)
      requires Valid()
      modifies Repr()
      ensures Separate() && (View(), outcome) == LineUse(l1.g, ll.g, old(View()), a, mask, here)
      ensures Valid()
    {
      hide TagStep, Geometry.Span, MaskedTag, SetNo, MemLine, Linked, UpdateUse, Row, CacheT.Set, SetOk, Refer, UseCache.View;
      ghost var before := View();
      var s, tag, memline := SetNo(l1.g, a), MaskedTag(l1.g, a), MemLine(l1.g, a);
      SetShape(l1.g, s, before.l1[s]);
      VictimFilled(l1.g, ll.g, s, before.l1[s], a);
      var x, hit, u, l := l1.Begin(s, tag);
      if hit {
        u, outcome := Use(u.count + 1, u.mask + mask), L1Hit;
      } else {
        l, outcome := Update(u, l, memline, here);
        u := Use(1, mask);
      }
      l1.Finish(s, tag, x, u, l, before.l1);
      assert (View(), outcome) == LineUse(l1.g, ll.g, before, a, mask, here);
      hide LineUse, UseInv;
    }

    /** cacheuse_doRead.  An access within a line size never reaches the panic branch. */
    method Read(m: Lru.Access, here: Place) returns (outcome: Outcome)
      requires Valid() && 1 <= m.size <= l1.g.lineSize
      modifies Repr()
      ensures Valid() && (View(), outcome) == ReadUse(l1.g, ll.g, masks, old(View()), m, here)
    {
      hide LineUse, SetNo, Offset, UseCache.View, Geometry.Span, SetOk, AllLinked;
      var last := m.addr + m.size - 1;
      var set1, set2 := SetNo(l1.g, m.addr), SetNo(l1.g, last);
      var start, end := masks.start[Offset(l1.g, m.addr)], masks.end[Offset(l1.g, last)];
      if set1 == set2 {
        outcome := Line(m.addr, start * end, here);
      } else {
        assert (set1 + 1) % l1.g.sets == set2 by { NeighbourSets(l1.g, m); }
        var first := Line(m.addr, start, here);
        var second := Line(last, end, here);
        outcome := Both(first, second);
      }
    }
  }

  lemma NeighbourSets(g: Geometry, m: Lru.Access)
    requires g.lineSize > 0 && g.sets > 0 && 1 <= m.size <= g.lineSize
    ensures var set1, set2 := SetNo(g, m.addr), SetNo(g, m.addr + m.size - 1);
            set1 == set2 || (set1 + 1) % g.sets == set2
  {
    if g.sets >= 2 { NextSet(g.lineSize, g.sets, AsRead(m)); }
  }
}
