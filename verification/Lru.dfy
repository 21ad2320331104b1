/** Set-associative LRU caches as values: what cachegrind/cg_sim.c simulates.

A set is the list of its tags, most recently used first; an empty way holds tag 0. */
module Lru {
  // ---------------------------------------------------------------- one set

  /** The first way holding a tag. */
  function IndexOf(ways: seq<nat>, tag: nat): (i: nat)
    requires tag in ways
    ensures i < |ways| && ways[i] == tag && tag !in ways[..i]
  {
    if ways[0] == tag then 0
    else
      var i := 1 + IndexOf(ways[1..], tag);
      assert ways[..i] == [ways[0]] + ways[1..][..i - 1];
      i
  }

  /** A reference makes its tag the most recently used one and drops the last way on a miss. */
  function Touch(ways: seq<nat>, tag: nat): (r: seq<nat>)
    requires |ways| > 0
    ensures |r| == |ways| && r[0] == tag
  {
    if tag in ways then
      var i := IndexOf(ways, tag);
      [tag] + ways[..i] + ways[i + 1..]
    else [tag] + ways[..|ways| - 1]
  }

  function Touches(ways: seq<nat>, trace: seq<nat>): (r: seq<nat>)
    requires |ways| > 0
    ensures |r| == |ways|
  {
    if trace == [] then ways else Touch(Touches(ways, trace[..|trace| - 1]), trace[|trace| - 1])
  }

  function Zeros(n: nat): (r: seq<nat>)
    ensures |r| == n && forall i :: 0 <= i < n ==> r[i] == 0
  {
    seq(n, i => 0)
  }

  // ---------------------------------------------------------------- recency

  /** All of `s` except `x`, in order. */
  function Without(s: seq<nat>, x: nat): (r: seq<nat>)
    ensures x !in r
    ensures forall y :: y in r <==> y in s && y != x
    ensures |r| <= |s|
  {
    if s == [] then []
    else if s[0] == x then Without(s[1..], x)
    else [s[0]] + Without(s[1..], x)
  }

  /** The distinct tags of a trace, most recently used first. */
  function Recency(trace: seq<nat>): (r: seq<nat>)
    ensures forall x :: x in r <==> x in trace
  {
    if trace == [] then []
    else
      var last := trace[|trace| - 1];
      assert trace == trace[..|trace| - 1] + [last];
      [last] + Without(Recency(trace[..|trace| - 1]), last)
  }

  /** When a tag was last used; -1 if never. */
  function LastUse(trace: seq<nat>, x: nat): (i: int)
    ensures -1 <= i < |trace| && (i >= 0 ==> trace[i] == x)
    ensures forall k :: i < k < |trace| ==> trace[k] != x
  {
    if trace == [] then -1
    else if trace[|trace| - 1] == x then |trace| - 1
    else LastUse(trace[..|trace| - 1], x)
  }

  lemma {:induction false} WithoutOrder(s: seq<nat>, x: nat, i: nat, j: nat) returns (k: nat, l: nat)
    requires i < j < |Without(s, x)|
    ensures k < l < |s| && Without(s, x)[i] == s[k] && Without(s, x)[j] == s[l]
  {
    if s[0] == x {
      k, l := WithoutOrder(s[1..], x, i, j);
      k, l := k + 1, l + 1;
    } else if i == 0 {
      var m := WithoutAt(s[1..], x, j - 1);
      k, l := 0, m + 1;
    } else {
      k, l := WithoutOrder(s[1..], x, i - 1, j - 1);
      k, l := k + 1, l + 1;
    }
  }

  lemma {:induction false} WithoutAt(s: seq<nat>, x: nat, i: nat) returns (k: nat)
    requires i < |Without(s, x)|
    ensures k < |s| && Without(s, x)[i] == s[k]
  {
    if s[0] == x {
      k := WithoutAt(s[1..], x, i);
      k := k + 1;
    } else if i == 0 {
      k := 0;
    } else {
      k := WithoutAt(s[1..], x, i - 1);
      k := k + 1;
    }
  }

  /** `Recency` really is ordered by last use, so it lists no tag twice. */
  lemma {:induction false} RecencyByLastUse(trace: seq<nat>, i: nat, j: nat)
    requires i < j < |Recency(trace)|
    ensures LastUse(trace, Recency(trace)[i]) > LastUse(trace, Recency(trace)[j])
  {
    hide Without;
    var n := |trace| - 1;
    var last, before := trace[n], trace[..n];
    var x, y := Recency(trace)[i], Recency(trace)[j];
    var older := Without(Recency(before), last);
    assert y == older[j - 1] && y != last;
    if i > 0 {
      assert x == older[i - 1] && x != last;
      var k, l := WithoutOrder(Recency(before), last, i - 1, j - 1);
      RecencyByLastUse(before, k, l);
    }
  }

  lemma {:induction false} WithoutDistinct(s: seq<nat>, x: nat, i: nat)
    requires i < |s| && s[i] == x
    requires forall k, l :: 0 <= k < l < |s| ==> s[k] != s[l]
    ensures Without(s, x) == s[..i] + s[i + 1..]
  {
    if i == 0 {
      assert x !in s[1..];
      WithoutAbsent(s[1..], x);
    } else {
      WithoutDistinct(s[1..], x, i - 1);
    }
  }

  lemma {:induction false} WithoutAbsent(s: seq<nat>, x: nat)
    requires x !in s
    ensures Without(s, x) == s
  {
    if s != [] { WithoutAbsent(s[1..], x); }
  }

  lemma RecencyDistinct(trace: seq<nat>)
    ensures forall k, l :: 0 <= k < l < |Recency(trace)| ==> Recency(trace)[k] != Recency(trace)[l]
  {
    forall k, l | 0 <= k < l < |Recency(trace)| ensures Recency(trace)[k] != Recency(trace)[l] {
      RecencyByLastUse(trace, k, l);
    }
  }

  /** The first n of a list, padded with empty ways. */
  function Padded(r: seq<nat>, n: nat): (p: seq<nat>)
    ensures |p| == n
    ensures forall i :: 0 <= i < n ==> p[i] == if i < |r| then r[i] else 0
  {
    if |r| >= n then r[..n] else r + Zeros(n - |r|)
  }

  lemma {:induction false} IndexUnique(ways: seq<nat>, tag: nat, i: nat)
    requires i < |ways| && ways[i] == tag && forall k :: 0 <= k < i ==> ways[k] != tag
    ensures tag in ways && IndexOf(ways, tag) == i
  {
    assert tag !in ways[..IndexOf(ways, tag)];
  }

  lemma TouchFresh(r: seq<nat>, n: nat, tag: nat)
    requires n > 0 && tag != 0 && tag !in r
    ensures Touch(Padded(r, n), tag) == Padded([tag] + r, n)
  {
    assert tag !in Padded(r, n);
  }

  lemma TouchHeld(r: seq<nat>, n: nat, i: nat)
    requires i < n && i < |r| && forall k :: 0 <= k < i ==> r[k] != r[i]
    ensures Touch(Padded(r, n), r[i]) == Padded([r[i]] + (r[..i] + r[i + 1..]), n)
  {
    var p := Padded(r, n);
    IndexUnique(p, r[i], i);
    assert Touch(p, r[i]) == [r[i]] + p[..i] + p[i + 1..];
  }

  lemma TouchForgotten(r: seq<nat>, n: nat, i: nat)
    requires 0 < n <= i < |r| && forall k :: 0 <= k < i ==> r[k] != r[i]
    ensures Touch(Padded(r, n), r[i]) == Padded([r[i]] + (r[..i] + r[i + 1..]), n)
  {
    assert r[i] !in Padded(r, n);
  }

  /** One reference to a set that holds the most recent tags. */
  lemma TouchPadded(r: seq<nat>, n: nat, tag: nat)
    requires n > 0 && tag != 0
    requires forall k, l :: 0 <= k < l < |r| ==> r[k] != r[l]
    ensures Touch(Padded(r, n), tag) == Padded([tag] + Without(r, tag), n)
  {
    if tag !in r {
      WithoutAbsent(r, tag);
      TouchFresh(r, n, tag);
    } else {
      var i := IndexOf(r, tag);
      WithoutDistinct(r, tag, i);
      if i < n { TouchHeld(r, n, i); } else { TouchForgotten(r, n, i); }
    }
  }

  /** A set of n ways started empty always holds the n most recently used distinct tags, most
      recent first, as long as tag 0, the mark of an empty way, is never referenced. */
  lemma {:induction false} HoldsMostRecent(n: nat, trace: seq<nat>)
    requires n > 0 && 0 !in trace
    ensures Touches(Zeros(n), trace) == Padded(Recency(trace), n)
  {
    if trace != [] {
      var before, last := trace[..|trace| - 1], trace[|trace| - 1];
      HoldsMostRecent(n, before);
      RecencyDistinct(before);
      TouchPadded(Recency(before), n, last);
    }
  }

  // ---------------------------------------------------------------- more ways

  lemma TouchPrefix(s: seq<nat>, t: seq<nat>, tag: nat)
    requires 0 < |s| <= |t| && s == t[..|s|]
    ensures Touch(s, tag) == Touch(t, tag)[..|s|]
    ensures tag in s ==> tag in t
  {
    if tag in s {
      PrefixHit(s, t, IndexOf(s, tag));
    } else if tag in t {
      assert tag !in t[..|s|];
      PrefixLate(s, t, IndexOf(t, tag));
    }
  }

  lemma PrefixHit(s: seq<nat>, t: seq<nat>, i: nat)
    requires i < |s| <= |t| && s == t[..|s|] && s[i] !in s[..i]
    ensures s[i] in t && Touch(s, s[i]) == Touch(t, s[i])[..|s|]
  {
    var tag := s[i];
    assert forall k :: 0 <= k < i ==> s[k] == s[..i][k] && t[k] == s[k];
    IndexUnique(s, tag, i);
    IndexUnique(t, tag, i);
    assert Touch(s, tag) == [tag] + s[..i] + s[i + 1..];
    assert Touch(t, tag) == [tag] + t[..i] + t[i + 1..];
  }

  lemma PrefixLate(s: seq<nat>, t: seq<nat>, i: nat)
    requires 0 < |s| <= i < |t| && s == t[..|s|] && t[i] !in t[..i]
    ensures t[i] !in s && Touch(s, t[i]) == Touch(t, t[i])[..|s|]
  {
    var tag := t[i];
    assert forall k :: 0 <= k < i ==> t[k] == t[..i][k];
    IndexUnique(t, tag, i);
    assert Touch(t, tag) == [tag] + t[..i] + t[i + 1..];
    assert Touch(s, tag) == [tag] + s[..|s| - 1];
  }

  // ---------------------------------------------------------------- whole caches

  datatype Cache = Cache(lineSize: nat, ways: seq<seq<nat>>) {
    ghost predicate Wf() {
      lineSize > 0 && |ways| > 0 && |ways[0]| > 0 && forall i :: 0 <= i < |ways| ==> |ways[i]| == |ways[0]|
    }

    function Block(a: nat): nat
      requires lineSize > 0
    {
      a / lineSize
    }

    function SetOf(block: nat): (s: nat)
      requires |ways| > 0
      ensures s < |ways|
    {
      block % |ways|
    }

    predicate Misses(block: nat)
      requires |ways| > 0
    {
      block !in ways[SetOf(block)]
    }

    function Load(block: nat): (c: Cache)
      requires Wf()
      ensures c.Wf() && c.lineSize == lineSize && |c.ways| == |ways| && |c.ways[0]| == |ways[0]|
    {
      this.(ways := ways[SetOf(block) := Touch(ways[SetOf(block)], block)])
    }

    /** cachesim_ref_is_miss: the cache after the reference, and whether it counts as a miss.
        A reference to two lines touches both and counts once. */
    function Ref(a: nat, size: nat): (r: (Cache, bool))
      requires Wf() && 1 <= size <= lineSize
      ensures r.0.Wf() && r.0.lineSize == lineSize && |r.0.ways| == |ways| && |r.0.ways[0]| == |ways[0]|
    {
      var block1, block2 := Block(a), Block(a + size - 1);
      if block1 == block2 then (Load(block1), Misses(block1))
      else (Load(block1).Load(block2), Misses(block1) || Load(block1).Misses(block2))
    }
  }

  function Empty(lineSize: nat, sets: nat, assoc: nat): (c: Cache)
    requires lineSize > 0 && sets > 0 && assoc > 0
    ensures c.Wf()
  {
    Cache(lineSize, seq(sets, i => Zeros(assoc)))
  }

  /** A reference within a line size touches at most two neighbouring blocks. */
  lemma AtMostTwoBlocks(c: Cache, a: nat, size: nat)
    requires c.Wf() && 1 <= size <= c.lineSize
    ensures c.Block(a) <= c.Block(a + size - 1) <= c.Block(a) + 1
  {
    var L, q, r := c.lineSize, a / c.lineSize, a % c.lineSize;
    assert a == L * q + r;
    if r + size - 1 < L {
      DivUnique(a + size - 1, L, q, r + size - 1);
    } else {
      DivUnique(a + size - 1, L, q + 1, r + size - 1 - L);
    }
  }

  lemma DivUnique(x: nat, d: nat, q: nat, r: nat)
    requires d > 0 && r < d && x == d * q + r
    ensures x / d == q
  {
    var p, m := x / d, x % d;
    assert x == d * p + m && m < d;
    if p > q {
      Multiple(d, p - q);
    } else if p < q {
      Multiple(d, q - p);
    }
  }

  lemma ModUnique(x: nat, d: nat, q: nat, r: nat)
    requires d > 0 && r < d && x == d * q + r
    ensures x % d == r
  {
    DivUnique(x, d, q, r);
    assert x == d * (x / d) + x % d;
  }

  lemma Multiple(d: nat, k: nat)
    requires k > 0
    ensures d * k >= d
  {
  }

  /** References to different sets do not interfere: each set sees its own blocks only. */
  function Loads(c: Cache, blocks: seq<nat>): (r: Cache)
    requires c.Wf()
    ensures r.Wf() && r.lineSize == c.lineSize && |r.ways| == |c.ways| && |r.ways[0]| == |c.ways[0]|
  {
    if blocks == [] then c else Loads(c, blocks[..|blocks| - 1]).Load(blocks[|blocks| - 1])
  }

  function Mapping(blocks: seq<nat>, sets: nat, i: nat): (r: seq<nat>)
    requires sets > 0
    ensures forall b :: b in r ==> b in blocks
  {
    if blocks == [] then []
    else
      var last := blocks[|blocks| - 1];
      Mapping(blocks[..|blocks| - 1], sets, i) + if last % sets == i then [last] else []
  }

  lemma {:induction false} SetsAreIndependent(c: Cache, blocks: seq<nat>, i: nat)
    requires c.Wf() && i < |c.ways|
    ensures Loads(c, blocks).ways[i] == Touches(c.ways[i], Mapping(blocks, |c.ways|, i))
  {
    hide Touch, Cache.SetOf;
    if blocks != [] {
      var before, last := blocks[..|blocks| - 1], blocks[|blocks| - 1];
      SetsAreIndependent(c, before, i);
      var m := Mapping(before, |c.ways|, i);
      LoadOne(Loads(c, before), last, i);
      assert (m + [last])[..|m|] == m;
      assert m + [] == m;
    }
  }

  /** One block touches the set it maps to. */
  lemma LoadOne(c: Cache, block: nat, i: nat)
    requires c.Wf() && i < |c.ways|
    ensures c.Load(block).ways[i] == if block % |c.ways| == i then Touch(c.ways[i], block) else c.ways[i]
  {
  }

  /** Every set of a cache holds the most recent of the blocks that map to it. */
  lemma CacheHoldsMostRecent(lineSize: nat, sets: nat, assoc: nat, blocks: seq<nat>, i: nat)
    requires lineSize > 0 && sets > 0 && assoc > 0 && i < sets && 0 !in blocks
    ensures Loads(Empty(lineSize, sets, assoc), blocks).ways[i]
         == Padded(Recency(Mapping(blocks, sets, i)), assoc)
  {
    SetsAreIndependent(Empty(lineSize, sets, assoc), blocks, i);
    assert Empty(lineSize, sets, assoc).ways[i] == Zeros(assoc);
    HoldsMostRecent(assoc, Mapping(blocks, sets, i));
  }

  /** Same sets and lines; every set of `c` is a prefix of the same set of `d`. */
  ghost predicate Included(c: Cache, d: Cache) {
    && c.Wf() && d.Wf() && c.lineSize == d.lineSize && |c.ways| == |d.ways| && |c.ways[0]| <= |d.ways[0]|
    && forall i :: 0 <= i < |c.ways| ==> c.ways[i] == d.ways[i][..|c.ways[i]|]
  }

  lemma LoadIncluded(c: Cache, d: Cache, block: nat)
    requires Included(c, d)
    ensures Included(c.Load(block), d.Load(block))
    ensures d.Misses(block) ==> c.Misses(block)
  {
    var i := c.SetOf(block);
    TouchPrefix(c.ways[i], d.ways[i], block);
  }

  lemma RefIncluded(c: Cache, d: Cache, a: nat, size: nat)
    requires Included(c, d) && 1 <= size <= c.lineSize
    ensures Included(c.Ref(a, size).0, d.Ref(a, size).0)
    ensures d.Ref(a, size).1 ==> c.Ref(a, size).1
  {
    LoadIncluded(c, d, c.Block(a));
    LoadIncluded(c.Load(c.Block(a)), d.Load(c.Block(a)), c.Block(a + size - 1));
  }

  datatype Access = Access(addr: nat, size: nat)

  function Run(c: Cache, refs: seq<Access>): (r: (Cache, nat))
    requires c.Wf() && forall i :: 0 <= i < |refs| ==> 1 <= refs[i].size <= c.lineSize
    ensures r.0.Wf() && r.0.lineSize == c.lineSize
  {
    if refs == [] then (c, 0)
    else
      var (d, n) := Run(c, refs[..|refs| - 1]);
      var (e, miss) := d.Ref(refs[|refs| - 1].addr, refs[|refs| - 1].size);
      (e, n + if miss then 1 else 0)
  }

  /** Raising the associativity never adds a miss, on any reference stream: the smaller cache's
      sets stay prefixes of the larger one's throughout. */
  lemma {:induction false} MoreWaysNeverHurt(c: Cache, d: Cache, refs: seq<Access>)
    requires Included(c, d) && forall i :: 0 <= i < |refs| ==> 1 <= refs[i].size <= c.lineSize
    ensures Included(Run(c, refs).0, Run(d, refs).0)
    ensures Run(d, refs).1 <= Run(c, refs).1
  {
    if refs != [] {
      var before, last := refs[..|refs| - 1], refs[|refs| - 1];
      MoreWaysNeverHurt(c, d, before);
      RefIncluded(Run(c, before).0, Run(d, before).0, last.addr, last.size);
    }
  }
}
