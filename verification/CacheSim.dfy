/** The tag arrays of cachegrind/cg_sim.c: one flat array per cache, shifted in place. */
module CacheSim {
  import opened Lru

  lemma RowBounds(i: nat, rows: nat, width: nat)
    requires i < rows
    ensures 0 <= i * width <= i * width + width <= rows * width
  {
    assert rows * width == i * width + width + (rows - i - 1) * width;
  }

  lemma RowsApart(i: nat, j: nat, width: nat)
    requires i < j
    ensures i * width + width <= j * width
  {
    var d: nat := j - i - 1;
    assert (i + 1 + d) * width == i * width + width + d * width;
  }

  /** A stretch of a flat array, and the array with that stretch replaced. */
  ghost function Slice(flat: seq<nat>, b: nat, width: nat): (r: seq<nat>)
    requires b + width <= |flat|
    ensures |r| == width
  {
    flat[b..b + width]
  }

  ghost function WithSlice(flat: seq<nat>, b: nat, width: nat, row: seq<nat>): (r: seq<nat>)
    requires b + width <= |flat| && |row| == width
    ensures |r| == |flat|
  {
    flat[..b] + row + flat[b + width..]
  }

  lemma SliceOfWithSlice(flat: seq<nat>, b: nat, width: nat, row: seq<nat>, c: nat)
    requires b + width <= |flat| && c + width <= |flat| && |row| == width
    requires b == c || b + width <= c || c + width <= b
    ensures Slice(WithSlice(flat, b, width, row), c, width) == if b == c then row else Slice(flat, c, width)
  {
  }

  /** The array after way i has been moved to the front of its set. */
  ghost function Shuffled(flat: seq<nat>, b: nat, i: nat, tag: nat): (r: seq<nat>)
    requires b + i < |flat|
    ensures |r| == |flat|
  {
    flat[..b] + ([tag] + flat[b..b + i]) + flat[b + i + 1..]
  }

  /** Seen as a set: way i is taken out and `x` put in front. */
  lemma ShuffledSet(flat: seq<nat>, b: nat, width: nat, i: nat, x: nat)
    requires b + width <= |flat| && i < width
    ensures var s := Slice(flat, b, width);
            Shuffled(flat, b, i, x) == WithSlice(flat, b, width, [x] + s[..i] + s[i + 1..])
  {
    var s := Slice(flat, b, width);
    assert flat[b..b + i] == s[..i];
    assert flat[b + i + 1..] == s[i + 1..] + flat[b + width..];
  }

  lemma ShuffledIsTouch(flat: seq<nat>, b: nat, width: nat, i: nat, tag: nat)
    requires b + width <= |flat| && i < width
    requires forall k :: 0 <= k < i ==> Slice(flat, b, width)[k] != tag
    requires i + 1 < width ==> Slice(flat, b, width)[i] == tag
    ensures Shuffled(flat, b, i, tag) == WithSlice(flat, b, width, Touch(Slice(flat, b, width), tag))
  {
    hide Shuffled, WithSlice, Slice;
    var s := Slice(flat, b, width);
    ShuffledSet(flat, b, width, i, tag);
    if s[i] == tag {
      IndexUnique(s, tag, i);
    } else {
      assert tag !in s;
    }
    assert Touch(s, tag) == [tag] + s[..i] + s[i + 1..];
  }

  class CacheT {
    const lineSize: nat
    const sets: nat
    const assoc: nat
    const tags: array<nat>

    ghost predicate Valid()
      reads this
    {
      lineSize > 0 && sets > 0 && assoc > 0 && tags.Length == sets * assoc
    }

    /** The ways of one set, most recently used first. */
    ghost function Set(i: nat): (s: seq<nat>)
      requires Valid() && i < sets
      reads this, tags
      ensures |s| == assoc
    {
      RowBounds(i, sets, assoc);
      Slice(tags[..], i * assoc, assoc)
    }

    ghost function View(): (c: Cache)
      requires Valid()
      reads this, tags
      ensures c.Wf() && c.lineSize == lineSize && |c.ways| == sets && |c.ways[0]| == assoc
    {
      Cache(lineSize, seq(sets, i requires 0 <= i < sets reads this, tags => Set(i)))
    }

    constructor (lineSize: nat, sets: nat, assoc: nat)
      requires lineSize > 0 && sets > 0 && assoc > 0
      ensures Valid() && fresh(tags) && View() == Empty(lineSize, sets, assoc)
    {
      this.lineSize, this.sets, this.assoc := lineSize, sets, assoc;
      tags := new nat[sets * assoc](_ => 0);
      new;
      forall i | 0 <= i < sets ensures Set(i) == Zeros(assoc) {
        RowBounds(i, sets, assoc);
      }
    }

    /** Moves set[0..i) one place down and puts the tag first: both shuffles of the source. */
    method Shuffle(base: nat, i: nat, tag: nat)
      requires base + i < tags.Length
      modifies tags
      ensures tags[..] == Shuffled(old(tags[..]), base, i, tag)
    {
      var j := i;
      while j > 0
        invariant 0 <= j <= i
        invariant forall k :: 0 <= k <= base + j || base + i < k < tags.Length ==> tags[k] == old(tags[k])
        invariant forall k :: base + j < k <= base + i ==> 0 <= k - 1 < k < tags.Length && tags[k] == old(tags[k - 1])
      {
        tags[base + j] := tags[base + j - 1];
        j := j - 1;
      }
      tags[base] := tag;
      ghost var r := Shuffled(old(tags[..]), base, i, tag);
      assert forall k :: 0 <= k < base ==> tags[k] == r[k];
      assert tags[base] == r[base];
      assert forall k :: base < k <= base + i ==> tags[k] == r[k];
    }

    /** The search loop: the first way from the second on that holds the tag. */
    method FindWay(base: nat, tag: nat, ghost s: seq<nat>) returns (i: nat)
      requires assoc > 0 && base + assoc <= tags.Length && s == Slice(tags[..], base, assoc) && s[0] != tag
      ensures 1 <= i <= assoc
      ensures forall k :: 0 <= k < i ==> s[k] != tag
      ensures i < assoc ==> s[i] == tag
    {
      i := 1;
      while i < assoc
        invariant 1 <= i <= assoc
        invariant forall k :: 0 <= k < i ==> s[k] != tag
      {
        assert s[i] == tags[base + i];
        if tag == tags[base + i] { return; }
        i := i + 1;
      }
    }

    /** The body of cachesim_setref_is_miss on the set that starts at `base`. */
    method SetrefAt(base: nat, tag: nat) returns (miss: bool)
      requires assoc > 0 && base + assoc <= tags.Length
      modifies tags
      ensures miss <==> tag !in old(Slice(tags[..], base, assoc))
      ensures tags[..] == WithSlice(old(tags[..]), base, assoc, Touch(old(Slice(tags[..], base, assoc)), tag))
    {
      ghost var flat := tags[..];
      ghost var s := Slice(flat, base, assoc);
      assert s[0] == tags[base];
      if tag == tags[base] {
        ShuffledIsTouch(flat, base, assoc, 0, tag);
        return false;
      }
      var i := FindWay(base, tag, s);
      if i < assoc {
        ShuffledIsTouch(flat, base, assoc, i, tag);
        Shuffle(base, i, tag);
        miss := false;
      } else {
        ShuffledIsTouch(flat, base, assoc, assoc - 1, tag);
        Shuffle(base, assoc - 1, tag);
        miss := true;
      }
    }

    /** cachesim_setref_is_miss: one reference to the set a block maps to. */
    method SetrefIsMiss(block: nat) returns (miss: bool)
      requires Valid()
      modifies tags
      ensures miss == old(View()).Misses(block)
      ensures View() == old(View()).Load(block)
    {
      var setNo := block % sets;
      ghost var before, n := View(), setNo;
      RowBounds(setNo, sets, assoc);
      ghost var flat := tags[..];
      miss := SetrefAt(setNo * assoc, block);
      forall i | 0 <= i < sets ensures Set(i) == before.Load(block).ways[i] {
        RowBounds(i, sets, assoc);
        if i < n { RowsApart(i, n, assoc); } else if n < i { RowsApart(n, i, assoc); }
        SliceOfWithSlice(flat, n * assoc, assoc, Touch(Slice(flat, n * assoc, assoc), block), i * assoc);
      }
    }

    /** cachesim_ref_is_miss */
    method RefIsMiss(a: nat, size: nat) returns (miss: bool)
      requires Valid() && 1 <= size <= lineSize
      modifies tags
      ensures (View(), miss) == old(View()).Ref(a, size)
    {
      var block1, block2 := a / lineSize, (a + size - 1) / lineSize;
      AtMostTwoBlocks(View(), a, size);
      if block1 == block2 {
        miss := SetrefIsMiss(block1);
      } else {
        assert block1 + 1 == block2;
        miss := SetrefIsMiss(block1);
        var miss2 := SetrefIsMiss(block2);
        miss := miss || miss2;
      }
    }
  }
}
