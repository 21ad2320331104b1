/** The table of call arcs (callgrind/jumps.c): a growing hash table with chained entries, a list per
source, and two shortcuts to the last arc used. */
module ArcTable {
  import opened Words

  /** An arc's identity: addresses of the two cost centres and the jump number. */
  datatype Key = Key(from: nat, jmp: nat, to: nat)

  /** jcc_hash_idx: the sum wraps at 64 bits and is cut to 32 before the division. */
  function Hash(k: Key, size: nat): (h: nat)
    requires size > 0
    ensures h < size
  {
    (k.from + 7 * k.to + 13 * k.jmp % WORD32) % WORD64 % WORD32 % size
  }

  class Jcc {
    const key: Key
    var nextHash: Jcc?
    var nextFrom: Jcc?

    constructor (key: Key)
      ensures this.key == key
    {
      this.key := key;
      nextHash, nextFrom := null, null;
    }
  }

  // ---------------------------------------------------------------- chains as values

  type Chains = seq<seq<Jcc>>

  ghost predicate Holds(chains: Chains, j: Jcc) {
    exists i :: 0 <= i < |chains| && j in chains[i]
  }

  /** Every arc is in the chain its hash selects. */
  ghost predicate Placed(chains: Chains) {
    |chains| > 0 && forall i, j :: 0 <= i < |chains| && j in chains[i] ==> Hash(j.key, |chains|) == i
  }

  ghost predicate DistinctKeys(chain: seq<Jcc>) {
    forall x, y :: 0 <= x < y < |chain| ==> chain[x].key != chain[y].key
  }

  /** No key twice. */
  ghost predicate Canonical(chains: Chains) {
    Placed(chains) && forall i :: 0 <= i < |chains| ==> DistinctKeys(chains[i])
  }

  /** Different arcs in the table have different keys. */
  lemma KeysTellApart(chains: Chains, j: Jcc, k: Jcc)
    requires Canonical(chains) && Holds(chains, j) && Holds(chains, k) && j.key == k.key
    ensures j == k
  {
    hide Hash;
    var i :| 0 <= i < |chains| && j in chains[i];
    var l :| 0 <= l < |chains| && k in chains[l];
    assert i == Hash(j.key, |chains|) == l;
    var x :| 0 <= x < |chains[i]| && chains[i][x] == j;
    var y :| 0 <= y < |chains[i]| && chains[i][y] == k;
    assert x == y;
  }

  ghost function Prepend(chains: Chains, j: Jcc): (r: Chains)
    requires |chains| > 0
    ensures |r| == |chains|
  {
    var h := Hash(j.key, |chains|);
    chains[h := [j] + chains[h]]
  }

  ghost predicate Absent(chains: Chains, k: Key) {
    forall i, j :: 0 <= i < |chains| && j in chains[i] ==> j.key != k
  }

  lemma PrependHolds(chains: Chains, j: Jcc, k: Jcc)
    requires |chains| > 0
    ensures Holds(Prepend(chains, j), k) <==> Holds(chains, k) || k == j
  {
    hide Hash;
    var h, r := Hash(j.key, |chains|), Prepend(chains, j);
    if Holds(chains, k) {
      var i :| 0 <= i < |chains| && k in chains[i];
      assert k in r[i];
    }
    if k == j { assert k in r[h]; }
    if Holds(r, k) {
      var i :| 0 <= i < |r| && k in r[i];
      assert k in chains[i] || k == j;
    }
  }

  lemma PrependCanonical(chains: Chains, j: Jcc)
    requires Canonical(chains) && Absent(chains, j.key)
    ensures Canonical(Prepend(chains, j))
  {
    hide Hash;
    var h, r := Hash(j.key, |chains|), Prepend(chains, j);
    assert forall y :: 0 <= y < |chains[h]| ==> chains[h][y] in chains[h];
    assert DistinctKeys(chains[h]);
    assert DistinctKeys(r[h]);
  }

  lemma PrependAbsent(chains: Chains, j: Jcc, k: Key)
    requires |chains| > 0 && Absent(chains, k) && j.key != k
    ensures Absent(Prepend(chains, j), k)
  {
    hide Hash;
  }

  /** Arcs moved one by one to the front of their chains. */
  ghost function PrependAll(chains: Chains, list: seq<Jcc>): (r: Chains)
    requires |chains| > 0
    ensures |r| == |chains|
    decreases |list|
  {
    if list == [] then chains else PrependAll(Prepend(chains, list[0]), list[1..])
  }

  ghost function Empty(size: nat): (r: Chains)
    ensures |r| == size && forall i :: 0 <= i < size ==> r[i] == []
  {
    seq(size, i => [])
  }

  ghost function Flat(chains: Chains): seq<Jcc> {
    if chains == [] then [] else chains[0] + Flat(chains[1..])
  }

  lemma {:induction false} PrependAllHolds(chains: Chains, list: seq<Jcc>, k: Jcc)
    requires |chains| > 0
    ensures Holds(PrependAll(chains, list), k) <==> Holds(chains, k) || k in list
    decreases |list|
  {
    hide Prepend, Holds;
    if list != [] {
      PrependHolds(chains, list[0], k);
      PrependAllHolds(Prepend(chains, list[0]), list[1..], k);
    }
  }

  lemma {:induction false} PrependAllCanonical(chains: Chains, list: seq<Jcc>)
    requires Canonical(chains) && DistinctKeys(list)
    requires forall x :: 0 <= x < |list| ==> Absent(chains, list[x].key)
    ensures Canonical(PrependAll(chains, list))
    decreases |list|
  {
    if list != [] {
      hide Prepend, Canonical, Absent;
      var next := Prepend(chains, list[0]);
      PrependCanonical(chains, list[0]);
      forall x | 0 <= x < |list[1..]| ensures Absent(next, list[1..][x].key) {
        assert Absent(chains, list[x + 1].key);
        PrependAbsent(chains, list[0], list[x + 1].key);
      }
      PrependAllCanonical(next, list[1..]);
    }
  }

  lemma {:induction false} PrependAllSplit(chains: Chains, s: seq<Jcc>, t: seq<Jcc>)
    requires |chains| > 0
    ensures PrependAll(chains, s + t) == PrependAll(PrependAll(chains, s), t)
    decreases |s|
  {
    if s == [] {
      assert s + t == t;
    } else {
      assert (s + t)[1..] == s[1..] + t;
      PrependAllSplit(Prepend(chains, s[0]), s[1..], t);
    }
  }

  lemma {:induction false} FlatHolds(chains: Chains, j: Jcc)
    ensures j in Flat(chains) <==> Holds(chains, j)
  {
    if chains != [] {
      FlatHolds(chains[1..], j);
      if Holds(chains[1..], j) {
        var i :| 0 <= i < |chains[1..]| && j in chains[1..][i];
        assert j in chains[i + 1];
      }
      if Holds(chains, j) {
        var i :| 0 <= i < |chains| && j in chains[i];
        if i > 0 { assert j in chains[1..][i - 1]; }
      }
    }
  }

  /** Read chain by chain, the table lists no key twice. */
  lemma {:induction false} FlatDistinct(chains: Chains, size: nat, first: nat)
    requires size > 0
    requires forall i :: 0 <= i < |chains| ==> DistinctKeys(chains[i])
    requires forall i, j :: 0 <= i < |chains| && j in chains[i] ==> Hash(j.key, size) == first + i
    ensures DistinctKeys(Flat(chains))
  {
    hide Hash;
    if chains != [] {
      var rest := Flat(chains[1..]);
      assert forall i, j :: 0 <= i < |chains[1..]| && j in chains[1..][i] ==> j in chains[i + 1];
      FlatDistinct(chains[1..], size, first + 1);
      forall x, y | 0 <= x < |chains[0]| && 0 <= y < |rest| ensures chains[0][x].key != rest[y].key {
        FlatHolds(chains[1..], rest[y]);
        var i :| 0 <= i < |chains[1..]| && rest[y] in chains[1..][i];
        assert rest[y] in chains[i + 1];
      }
      DistinctJoin(chains[0], rest);
    }
  }

  lemma DistinctJoin(s: seq<Jcc>, t: seq<Jcc>)
    requires DistinctKeys(s) && DistinctKeys(t)
    requires forall x, y :: 0 <= x < |s| && 0 <= y < |t| ==> s[x].key != t[y].key
    ensures DistinctKeys(s + t)
  {
    var r := s + t;
    forall x, y | 0 <= x < y < |r| ensures r[x].key != r[y].key {
      if x < |s| <= y { assert s[x].key != t[y - |s|].key; }
    }
  }

  /** The table after a resize. */
  ghost function Rehashed(chains: Chains, size: nat): Chains
    requires size > 0
  {
    PrependAll(Empty(size), Flat(chains))
  }

  lemma RehashCanonical(chains: Chains, size: nat)
    requires Canonical(chains) && size > 0
    ensures Canonical(Rehashed(chains, size)) && |Rehashed(chains, size)| == size
  {
    hide PrependAll, Flat, Hash;
    FlatDistinct(chains, |chains|, 0);
    assert forall i :: 0 <= i < size ==> DistinctKeys(Empty(size)[i]);
    PrependAllCanonical(Empty(size), Flat(chains));
  }

  /** Resizing keeps exactly the same arcs, each once and where the new hash expects it. */
  lemma RehashKeeps(chains: Chains, size: nat, j: Jcc)
    requires Canonical(chains) && size > 0
    ensures Canonical(Rehashed(chains, size))
    ensures Holds(Rehashed(chains, size), j) <==> Holds(chains, j)
  {
    hide PrependAll, Flat, Hash, Canonical;
    RehashCanonical(chains, size);
    PrependAllHolds(Empty(size), Flat(chains), j);
    FlatHolds(chains, j);
  }
}
