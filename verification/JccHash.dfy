/** The arc table of callgrind/jumps.c on its linked entries: get_jcc, new_jcc and resize_jcc_table. */
module JccHashes {
  import opened ArcTable

  function At(chain: seq<Jcc>, x: nat): Jcc? { if x < |chain| then chain[x] else null }

  ghost predicate HashLinked(head: Jcc?, chain: seq<Jcc>)
    reads chain`nextHash
  {
    head == At(chain, 0) && forall x :: 0 <= x < |chain| ==> chain[x].nextHash == At(chain, x + 1)
  }

  ghost predicate FromLinked(head: Jcc?, chain: seq<Jcc>)
    reads chain`nextFrom
  {
    head == At(chain, 0) && forall x :: 0 <= x < |chain| ==> chain[x].nextFrom == At(chain, x + 1)
  }

  /** The chain of a source lists exactly the arcs that leave it, each once. */
  ghost predicate SourcesOf(sources: map<(nat, nat), seq<Jcc>>, nodes: set<Jcc>) {
    && (forall p, j :: p in sources && j in sources[p] ==> j in nodes && (j.key.from, j.key.jmp) == p)
    && (forall p :: p in sources ==> DistinctKeys(sources[p]))
    && (forall j :: j in nodes ==> (j.key.from, j.key.jmp) in sources && j in sources[(j.key.from, j.key.jmp)])
  }

  ghost predicate NodesOf(chains: Chains, nodes: set<Jcc>) {
    && (forall i, j :: 0 <= i < |chains| && j in chains[i] ==> j in nodes)
    && (forall j :: j in nodes ==> Holds(chains, j))
  }

  lemma {:induction false} FlatFrom(chains: Chains, i: nat)
    requires i < |chains|
    ensures Flat(chains[i..]) == chains[i] + Flat(chains[i + 1..])
  {
    assert chains[i..][1..] == chains[i + 1..];
  }

  lemma PrependLast(chains: Chains, s: seq<Jcc>, j: Jcc)
    requires |chains| > 0
    ensures PrependAll(chains, s + [j]) == Prepend(PrependAll(chains, s), j)
  {
    PrependAllSplit(chains, s, [j]);
    assert PrependAll(PrependAll(chains, s), [j]) == PrependAll(Prepend(PrependAll(chains, s), j), []);
  }

  /** The entry at hand is not one of those already moved. */
  lemma NotYetMoved(done: seq<Jcc>, j: Jcc, rest: seq<Jcc>, size: nat)
    requires DistinctKeys(done + [j] + rest) && size > 0
    ensures !Holds(PrependAll(Empty(size), done), j)
  {
    PrependAllHolds(Empty(size), done, j);
    var all := done + [j] + rest;
    forall x | 0 <= x < |done| ensures done[x] != j {
      assert all[x].key != all[|done|].key;
    }
  }

  class JccHash {
    var table: seq<Jcc?>
    var entries: nat
    /** First arc of each source, by cost centre and jump. */
    var lists: map<(nat, nat), Jcc>
    var lruTo: map<nat, Jcc>
    var lruFrom: map<nat, Jcc>
    ghost var chains: Chains
    ghost var sources: map<(nat, nat), seq<Jcc>>
    ghost var nodes: set<Jcc>

    ghost predicate TableOk()
      reads this`table, this`chains, this`nodes, nodes`nextHash
    {
      && |table| == |chains| && Canonical(chains) && NodesOf(chains, nodes)
      && forall i :: 0 <= i < |table| ==> HashLinked(table[i], chains[i])
    }

    ghost predicate ListsOk()
      reads this`lists, this`sources, this`nodes, nodes`nextFrom
    {
      && SourcesOf(sources, nodes) && lists.Keys == sources.Keys
      && forall p :: p in lists ==> FromLinked(lists[p], sources[p])
    }

    ghost predicate ShortcutsOk()
      reads this`lruTo, this`lruFrom, this`nodes
    {
      && (forall t :: t in lruTo ==> lruTo[t] in nodes && lruTo[t].key.to == t)
      && (forall f :: f in lruFrom ==> lruFrom[f] in nodes && lruFrom[f].key.from == f)
    }

    ghost predicate Valid()
      reads this, nodes
    {
      TableOk() && ListsOk() && ShortcutsOk()
    }

    constructor (size: nat)
      requires size > 0
      ensures Valid() && nodes == {}
    {
      table, entries := seq(size, _ => null), 0;
      lists, lruTo, lruFrom := map[], map[], map[];
      chains, sources, nodes := Empty(size), map[], {};
      new;
      hide Hash;
    }

    /** Puts one entry at the front of its chain in a table under construction. */
    method MoveTo(news: seq<Jcc?>, ghost built: Chains, curr: Jcc) returns (r: seq<Jcc?>)
      requires |news| == |built| > 0 && !Holds(built, curr)
      requires forall b :: 0 <= b < |news| ==> HashLinked(news[b], built[b])
      modifies curr`nextHash
      ensures |r| == |news| && forall b :: 0 <= b < |r| ==> HashLinked(r[b], Prepend(built, curr)[b])
    {
      hide Hash;
      var h := Hash(curr.key, |news|);
      ghost var after := Prepend(built, curr);
      curr.nextHash := news[h];
      r := news[h := curr];
      forall b | 0 <= b < |r| ensures HashLinked(r[b], after[b]) {
        assert curr !in built[b];
        if b == h {
          assert after[b] == [curr] + built[b];
        }
      }
    }

    /** Moves one chain of the old table into the new one. */
    method MoveChain(i: nat, news: seq<Jcc?>, size: nat, ghost done: seq<Jcc>) returns (r: seq<Jcc?>)
      requires |table| == |chains| && i < |table| && size > 0 && Canonical(chains)
      requires forall b :: i <= b < |table| ==> HashLinked(table[b], chains[b])
      requires DistinctKeys(done + chains[i] + Flat(chains[i + 1..]))
      requires |news| == size && forall b :: 0 <= b < size ==> HashLinked(news[b], PrependAll(Empty(size), done)[b])
      modifies chains[i]`nextHash
      ensures |r| == size
      ensures forall b :: 0 <= b < size ==> HashLinked(r[b], PrependAll(Empty(size), done + chains[i])[b])
      ensures forall b :: i < b < |table| ==> HashLinked(table[b], chains[b])
    {
      hide Hash, PrependAll, Prepend, Canonical, Flat, DistinctKeys, Holds, Empty;
      ghost var chain, rest, x := chains[i], Flat(chains[i + 1..]), 0;
      var curr := table[i];
      r := news;
      assert done + chain[..0] == done;
      while curr != null
        invariant 0 <= x <= |chain| && curr == At(chain, x) && |r| == size
        invariant forall b :: 0 <= b < size ==> HashLinked(r[b], PrependAll(Empty(size), done + chain[..x])[b])
        invariant forall y :: x <= y < |chain| ==> chain[y].nextHash == At(chain, y + 1)
        invariant forall b :: i < b < |table| ==> HashLinked(table[b], chains[b])
        decreases |chain| - x
      {
        var next := curr.nextHash;
        NextMove(chains, i, x, done, rest, size);
        r := MoveTo(r, PrependAll(Empty(size), done + chain[..x]), curr);
        curr := next;
        x := x + 1;
      }
      assert chain[..x] == chain;
    }

    /** resize_jcc_table */
    method Resize()
      requires Valid()
      modifies this`table, this`chains, nodes`nextHash
      ensures Valid() && chains == Rehashed(old(chains), 2 * old(|table|) + 3) && |table| == 2 * old(|table|) + 3
    {
      hide Hash, PrependAll, Canonical, SourcesOf, NodesOf, Holds, Flat;
      var size := 2 * |table| + 3;
      var news: seq<Jcc?> := seq(size, _ => null);
      ghost var list, done := Flat(chains), [];
      FlatCanonical(chains);
      EmptyBuilt(size);
      assert chains[0..] == chains;
      var i := 0;
      while i < |table|
        invariant 0 <= i <= |table| == |chains| && |news| == size
        invariant done + Flat(chains[i..]) == list
        invariant forall b :: 0 <= b < size ==> HashLinked(news[b], PrependAll(Empty(size), done)[b])
        invariant forall b :: i <= b < |table| ==> HashLinked(table[b], chains[b])
        invariant ListsOk()
        modifies nodes`nextHash
      {
        FlatFrom(chains, i);
        assert done + chains[i] + Flat(chains[i + 1..]) == list;
        assert forall j :: j in chains[i] ==> j in nodes by { ChainNodes(chains, nodes, i); }
        news := MoveChain(i, news, size, done);
        done := done + chains[i];
        i := i + 1;
      }
      FlatNone(chains[i..]);
      assert done == list;
      RehashNodes(chains, size, nodes);
      table, chains := news, Rehashed(chains, size);
    }

    method ConsFrom(j: Jcc, head: Jcc?, ghost list: seq<Jcc>)
      requires j !in list && FromLinked(head, list)
      modifies j`nextFrom
      ensures FromLinked(j, [j] + list)
    {
      j.nextFrom := head;
    }

    /** The list of a new arc's source. */
    method LinkFrom(j: Jcc)
      requires ListsOk() && j !in nodes && forall k :: k in nodes ==> k.key != j.key
      modifies this`lists, this`sources, j`nextFrom
      ensures lists.Keys == sources.Keys && SourcesOf(sources, nodes + {j})
      ensures forall p :: p in lists ==> FromLinked(lists[p], sources[p])
    {
      var p := (j.key.from, j.key.jmp);
      ghost var list := if p in sources then sources[p] else [];
      NewSource(sources, nodes, j);
      assert FromLinked(if p in lists then lists[p] else null, list);
      hide SourcesOf, FromLinked;
      ConsFrom(j, if p in lists then lists[p] else null, list);
      forall q | q in lists ensures FromLinked(lists[q], sources[q]) { assert j !in sources[q]; }
      lists := lists[p := j];
      sources := sources[p := [j] + list];
    }

    /** The chain of a new arc. */
    method LinkHash(j: Jcc)
      requires TableOk() && j !in nodes && forall k :: k in nodes ==> k.key != j.key
      modifies this`table, this`chains, this`nodes, j`nextHash
      ensures TableOk() && nodes == old(nodes) + {j}
    {
      hide Hash, Canonical, NodesOf, Prepend, HashLinked;
      NewNode(chains, nodes, j);
      SomeChain(chains);
      assert !Holds(chains, j) by { NotHeld(chains, nodes, j); }
      table := MoveTo(table, chains, j);
      chains := Prepend(chains, j);
      nodes := nodes + {j};
    }

    /** new_jcc */
    method NewJcc(k: Key) returns (j: Jcc)
      requires Valid() && forall n :: n in nodes ==> n.key != k
      modifies this, nodes`nextHash
      ensures Valid() && fresh(j) && j.key == k && nodes == old(nodes) + {j}
      ensures lruTo == old(lruTo) && lruFrom == old(lruFrom)
    {
      hide SourcesOf, NodesOf, Canonical, Hash, Rehashed, HashLinked, FromLinked;
      entries := entries + 1;
      assert |table| > 0 by { SomeChain(chains); }
      if 10 * entries / |table| > 8 { Resize(); }
      j := new Jcc(k);
      LinkFrom(j);
      LinkHash(j);
    }

    /** The search along one chain. */
    method Search(k: Key) returns (j: Jcc?)
      requires TableOk()
      ensures j != null ==> j in nodes && j.key == k
      ensures j == null ==> forall n :: n in nodes ==> n.key != k
    {
      hide Hash, Canonical, NodesOf;
      SomeChain(chains);
      var h := Hash(k, |table|);
      ghost var chain, x := chains[h], 0;
      ChainNodes(chains, nodes, h);
      j := table[h];
      while j != null
        invariant 0 <= x <= |chain| && j == At(chain, x)
        invariant forall y :: 0 <= y < x ==> chain[y].key != k
        decreases |chain| - x
      {
        if j.key == k { return; }
        j := j.nextHash;
        x := x + 1;
      }
      InChain(chains, nodes, k);
    }

    /** get_jcc: the one arc with this key, made on first use. */
    method GetJcc(k: Key) returns (j: Jcc)
      requires Valid()
      modifies this, nodes`nextHash
      ensures Valid() && j.key == k && nodes == old(nodes) + {j}
      ensures j !in old(nodes) ==> fresh(j)
    {
      hide JccHash.TableOk, JccHash.ListsOk;
      if k.to in lruTo && lruTo[k.to].key.from == k.from && lruTo[k.to].key.jmp == k.jmp {
        j := lruTo[k.to];
        assert nodes == nodes + {j};
        return;
      }
      if k.from in lruFrom && lruFrom[k.from].key.to == k.to && lruFrom[k.from].key.jmp == k.jmp {
        j := lruFrom[k.from];
        assert nodes == nodes + {j};
        return;
      }
      var found := Search(k);
      if found == null {
        j := NewJcc(k);
      } else {
        j := found;
        assert nodes == nodes + {j};
      }
      lruFrom := lruFrom[k.from := j];
      lruTo := lruTo[k.to := j];
    }

    /** Over any sequence of calls: the same object exactly for the same triple. */
    method GetAll(keys: seq<Key>) returns (js: seq<Jcc>)
      requires Valid()
      modifies this, nodes`nextHash
      ensures Valid() && |js| == |keys|
      ensures forall x, y :: 0 <= x < |keys| && 0 <= y < |keys| ==> (js[x] == js[y] <==> keys[x] == keys[y])
      ensures forall n :: n in old(nodes) ==> n in nodes
      ensures forall x, n :: 0 <= x < |keys| && n in old(nodes) && n.key == keys[x] ==> js[x] == n
    {
      hide JccHash.Valid;
      js := [];
      ghost var before := nodes;
      while |js| < |keys|
        invariant Valid() && |js| <= |keys| && fresh(nodes - before) && before <= nodes
        invariant forall x :: 0 <= x < |js| ==> js[x] in nodes && js[x].key == keys[x]
      {
        var j := GetJcc(keys[|js|]);
        js := js + [j];
      }
      forall x, y | 0 <= x < |keys| && 0 <= y < |keys| ensures js[x] == js[y] <==> keys[x] == keys[y] {
        OneArcPerKey(js[x], js[y]);
      }
      forall x, n | 0 <= x < |keys| && n in before && n.key == keys[x] ensures js[x] == n {
        OneArcPerKey(js[x], n);
      }
    }

    lemma OneArcPerKey(j: Jcc, k: Jcc)
      requires Valid() && j in nodes && k in nodes
      ensures j.key == k.key <==> j == k
    {
      hide Canonical;
      if j.key == k.key { KeysTellApart(chains, j, k); }
    }
  }

  lemma FlatCanonical(chains: Chains)
    requires Canonical(chains)
    ensures DistinctKeys(Flat(chains))
  {
    hide Hash, Flat;
    FlatDistinct(chains, |chains|, 0);
  }

  lemma FlatNone(chains: Chains)
    requires chains == []
    ensures Flat(chains) == []
  {
  }

  lemma EmptyBuilt(size: nat)
    requires size > 0
    ensures PrependAll(Empty(size), []) == Empty(size)
    ensures forall b :: 0 <= b < size ==> HashLinked(null, Empty(size)[b])
  {
  }

  lemma ChainNodes(chains: Chains, nodes: set<Jcc>, i: nat)
    requires NodesOf(chains, nodes) && i < |chains|
    ensures forall j :: j in chains[i] ==> j in nodes
  {
  }

  /** An entry is in one place only. */
  lemma OneOfChain(chains: Chains, i: nat, x: nat)
    requires Canonical(chains) && i < |chains| && x < |chains[i]|
    ensures forall b :: 0 <= b < |chains| && b != i ==> chains[i][x] !in chains[b]
    ensures forall y :: 0 <= y < |chains[i]| && y != x ==> chains[i][y] != chains[i][x]
  {
    hide Hash;
    assert chains[i][x] in chains[i];
    assert DistinctKeys(chains[i]);
  }

  /** Moving the next entry of a chain. */
  lemma NextMove(chains: Chains, i: nat, x: nat, done: seq<Jcc>, rest: seq<Jcc>, size: nat)
    requires Canonical(chains) && i < |chains| && x < |chains[i]| && size > 0
    requires DistinctKeys(done + chains[i] + rest)
    ensures var chain, built := chains[i], PrependAll(Empty(size), done + chains[i][..x]);
            && !Holds(built, chain[x])
            && Prepend(built, chain[x]) == PrependAll(Empty(size), done + chain[..x + 1])
            && (forall b :: 0 <= b < |chains| && b != i ==> chain[x] !in chains[b])
            && (forall y :: 0 <= y < |chain| && y != x ==> chain[y] != chain[x])
  {
    hide Hash, PrependAll, Prepend, Canonical, Holds, DistinctKeys, Empty;
    var chain, before := chains[i], done + chains[i][..x];
    OneOfChain(chains, i, x);
    assert before + [chain[x]] + (chain[x + 1..] + rest) == done + chain + rest;
    NotYetMoved(before, chain[x], chain[x + 1..] + rest, size);
    PrependLast(Empty(size), before, chain[x]);
    assert before + [chain[x]] == done + chain[..x + 1];
  }

  lemma RehashNodes(chains: Chains, size: nat, nodes: set<Jcc>)
    requires Canonical(chains) && size > 0 && NodesOf(chains, nodes)
    ensures Canonical(Rehashed(chains, size)) && NodesOf(Rehashed(chains, size), nodes) && |Rehashed(chains, size)| == size
  {
    hide Hash, Rehashed, Canonical;
    var r := Rehashed(chains, size);
    RehashCanonical(chains, size);
    forall j | j in nodes ensures Holds(r, j) { RehashKeeps(chains, size, j); }
    forall i, j | 0 <= i < |r| && j in r[i] ensures j in nodes {
      assert Holds(r, j);
      RehashKeeps(chains, size, j);
    }
  }

  lemma NewSource(sources: map<(nat, nat), seq<Jcc>>, nodes: set<Jcc>, j: Jcc)
    requires SourcesOf(sources, nodes) && forall k :: k in nodes ==> k.key != j.key
    ensures var p := (j.key.from, j.key.jmp);
            var list := if p in sources then sources[p] else [];
            j !in nodes && SourcesOf(sources[p := [j] + list], nodes + {j})
    ensures forall p :: p in sources ==> j !in sources[p]
  {
    var p := (j.key.from, j.key.jmp);
    var list := if p in sources then sources[p] else [];
    assert forall x :: 0 <= x < |list| ==> list[x] in list;
    assert DistinctKeys([j] + list);
  }

  lemma NewNode(chains: Chains, nodes: set<Jcc>, j: Jcc)
    requires Canonical(chains) && NodesOf(chains, nodes) && forall k :: k in nodes ==> k.key != j.key
    ensures Canonical(Prepend(chains, j)) && NodesOf(Prepend(chains, j), nodes + {j})
  {
    hide Hash, Canonical, Prepend;
    assert Absent(chains, j.key);
    PrependCanonical(chains, j);
    SomeChain(chains);
    var r := Prepend(chains, j);
    forall k | k in nodes + {j} ensures Holds(r, k) { PrependHolds(chains, j, k); }
    forall i, k | 0 <= i < |r| && k in r[i] ensures k in nodes + {j} {
      assert Holds(r, k);
      PrependHolds(chains, j, k);
    }
  }

  lemma SomeChain(chains: Chains)
    requires Canonical(chains)
    ensures |chains| > 0
  {
  }

  lemma NotHeld(chains: Chains, nodes: set<Jcc>, j: Jcc)
    requires NodesOf(chains, nodes) && j !in nodes
    ensures !Holds(chains, j)
  {
  }

  /** Where an arc with this key would be. */
  lemma InChain(chains: Chains, nodes: set<Jcc>, k: Key)
    requires Canonical(chains) && NodesOf(chains, nodes)
    ensures forall n :: n in nodes && n.key == k ==> n in chains[Hash(k, |chains|)]
  {
    hide Hash;
    forall n | n in nodes && n.key == k ensures n in chains[Hash(k, |chains|)] {
      assert Holds(chains, n);
      var i :| 0 <= i < |chains| && n in chains[i];
    }
  }
}
