/** The write-back cache of callgrind/sim.c on its flat tag array. */
module WbArray {
  import opened Lru
  import opened CacheSim
  import opened WriteBack

  function GeometryOf(c: CacheT): Geometry { Geometry(c.lineSize, c.sets, c.assoc) }

  lemma ShuffledIsTouchWb(flat: seq<nat>, b: nat, width: nat, i: nat, tag: nat, isWrite: bool)
    requires b + width <= |flat| && i < width
    requires i == WbWay(Slice(flat, b, width), tag) || (i == width - 1 && WbWay(Slice(flat, b, width), tag) == width)
    ensures var s := Slice(flat, b, width);
            Shuffled(flat, b, i, if i == WbWay(s, tag) then Mark(s[i], isWrite) else tag + Bit(isWrite)) ==
            WithSlice(flat, b, width, TouchWb(s, tag, isWrite).0)
    ensures var s := Slice(flat, b, width);
            TouchWb(s, tag, isWrite).1 ==
            if i == WbWay(s, tag) then Hit else if Flag(s[width - 1]) then MissDirty else Miss
  {
    hide Mark, Flag, Clear, Shuffled, WithSlice, Slice;
    var s := Slice(flat, b, width);
    var x := if i == WbWay(s, tag) then Mark(s[i], isWrite) else tag + Bit(isWrite);
    ShuffledSet(flat, b, width, i, x);
    assert TouchWb(s, tag, isWrite).0 == [x] + s[..i] + s[i + 1..];
  }

  /** The search of cachesim_setref_wb from the second way on. */
  method FindWbWay(c: CacheT, base: nat, tag: nat) returns (i: nat)
    requires c.assoc > 0 && base + c.assoc <= c.tags.Length && Clear(c.tags[base]) != tag
    ensures i == WbWay(Slice(c.tags[..], base, c.assoc), tag)
  {
    ghost var s := Slice(c.tags[..], base, c.assoc);
    assert s[0] == c.tags[base];
    i := 1;
    while i < c.assoc
      invariant 1 <= i <= c.assoc
      invariant forall k :: 0 <= k < i ==> Clear(s[k]) != tag
    {
      assert s[i] == c.tags[base + i];
      if tag == Clear(c.tags[base + i]) { return; }
      i := i + 1;
    }
  }

  /** cachesim_setref_wb on the set that starts at `base`. */
  method SetrefWbAt(c: CacheT, isWrite: bool, base: nat, tag: nat) returns (r: Result)
    requires c.assoc > 0 && base + c.assoc <= c.tags.Length
    modifies c.tags
    ensures var t := TouchWb(old(Slice(c.tags[..], base, c.assoc)), tag, isWrite);
            c.tags[..] == WithSlice(old(c.tags[..]), base, c.assoc, t.0) && r == t.1
  {
    hide TouchWb, WithSlice, Shuffled, Mark, Flag, Bit, Clear;
    ghost var flat := c.tags[..];
    ghost var s := Slice(flat, base, c.assoc);
    assert s[0] == c.tags[base];
    if tag == Clear(c.tags[base]) {
      assert WbWay(s, tag) == 0;
      ShuffledIsTouchWb(flat, base, c.assoc, 0, tag, isWrite);
      c.Shuffle(base, 0, Mark(c.tags[base], isWrite));
      return Hit;
    }
    var i := FindWbWay(c, base, tag);
    if i < c.assoc {
      assert s[i] == c.tags[base + i];
      ShuffledIsTouchWb(flat, base, c.assoc, i, tag, isWrite);
      c.Shuffle(base, i, Mark(c.tags[base + i], isWrite));
      r := Hit;
    } else {
      assert s[c.assoc - 1] == c.tags[base + c.assoc - 1];
      var victim := c.tags[base + c.assoc - 1];
      ShuffledIsTouchWb(flat, base, c.assoc, c.assoc - 1, tag, isWrite);
      c.Shuffle(base, c.assoc - 1, tag + Bit(isWrite));
      r := if Flag(victim) then MissDirty else Miss;
    }
  }

  method SetrefWb(c: CacheT, isWrite: bool, setNo: nat, tag: nat) returns (r: Result)
    requires c.Valid() && setNo < c.sets
    modifies c.tags
    ensures (c.View().ways, r) == WbSet(old(c.View().ways), setNo, tag, isWrite)
  {
    hide TouchWb, WithSlice, Slice;
    ghost var before, flat := c.View().ways, c.tags[..];
    RowBounds(setNo, c.sets, c.assoc);
    r := SetrefWbAt(c, isWrite, setNo * c.assoc, tag);
    ghost var t := TouchWb(before[setNo], tag, isWrite);
    forall i | 0 <= i < c.sets ensures c.Set(i) == before[setNo := t.0][i] {
      RowBounds(i, c.sets, c.assoc);
      if i < setNo { RowsApart(i, setNo, c.assoc); } else if setNo < i { RowsApart(setNo, i, c.assoc); }
      SliceOfWithSlice(flat, setNo * c.assoc, c.assoc, t.0, i * c.assoc);
    }
    assert c.View().ways == before[setNo := t.0];
  }

  /** cachesim_ref_wb.  References within a line size never reach the panic branch. */
  method RefWbIn(c: CacheT, m: MemRef) returns (r: Result)
    requires c.Valid() && GeometryOf(c).Wf() && 1 <= m.size <= c.lineSize && c.sets >= 2
    modifies c.tags
    ensures (c.View().ways, r) == RefWb(GeometryOf(c), old(c.View().ways), m)
  {
    hide TouchWb, WbSet, MaskedTag, CacheT.View;
    var set1, set2 := m.addr / c.lineSize % c.sets, (m.addr + m.size - 1) / c.lineSize % c.sets;
    var tag, tag2 := MaskedTag(GeometryOf(c), m.addr), MaskedTag(GeometryOf(c), m.addr + m.size - 1);
    if set1 == set2 {
      r := SetrefWb(c, m.isWrite, set1, tag);
    } else {
      NextSet(c.lineSize, c.sets, m);
      assert (set1 + 1) % c.sets == set2;
      var res1 := SetrefWb(c, m.isWrite, set1, tag);
      var res2 := SetrefWb(c, m.isWrite, set2, tag2);
      r := Join(res1, res2);
    }
  }

  lemma NextSet(lineSize: nat, sets: nat, m: MemRef)
    requires lineSize > 0 && sets >= 2 && 1 <= m.size <= lineSize
    ensures var set1, set2 := m.addr / lineSize % sets, (m.addr + m.size - 1) / lineSize % sets;
            set1 == set2 || (set1 + 1) % sets == set2
  {
    var c := Cache(lineSize, [[0]]);
    assert c.Wf();
    AtMostTwoBlocks(c, m.addr, m.size);
    SetsApart(m.addr / lineSize, sets);
  }
}
