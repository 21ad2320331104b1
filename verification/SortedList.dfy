/** Association lists sorted by key: the reference model of a WordFM.

An entry remembers which cell holds it, so the lists also say what happens to the
nodes themselves: a replaced value stays in its old cell, a removal frees one cell
and leaves all others in place and in order. */
module SortedList {
  datatype Option<+T> = None | Some(value: T)
  datatype Entry<P, K, V> = Entry(ptr: P, key: K, val: V)

  /** The comparator contract every user of a WordFM relies on. */
  ghost predicate TotalOrder<K(!new)>(cmp: (K, K) -> int) {
    && (forall a, b :: cmp(a, b) == 0 <==> a == b)
    && (forall a, b :: cmp(a, b) < 0 <==> cmp(b, a) > 0)
    && (forall a, b, c :: cmp(a, b) < 0 && cmp(b, c) < 0 ==> cmp(a, c) < 0)
  }

  ghost predicate Sorted<P, K, V>(s: seq<Entry<P, K, V>>, cmp: (K, K) -> int) {
    forall i, j :: 0 <= i < j < |s| ==> cmp(s[i].key, s[j].key) < 0
  }

  ghost predicate AllBelow<P, K, V>(s: seq<Entry<P, K, V>>, k: K, cmp: (K, K) -> int) {
    forall i :: 0 <= i < |s| ==> cmp(s[i].key, k) < 0
  }

  ghost predicate AllAbove<P, K, V>(s: seq<Entry<P, K, V>>, k: K, cmp: (K, K) -> int) {
    forall i :: 0 <= i < |s| ==> cmp(k, s[i].key) < 0
  }

  function Put<P, K, V>(s: seq<Entry<P, K, V>>, e: Entry<P, K, V>, cmp: (K, K) -> int): seq<Entry<P, K, V>> {
    if s == [] then [e]
    else if cmp(s[0].key, e.key) < 0 then [s[0]] + Put(s[1..], e, cmp)
    else if cmp(s[0].key, e.key) > 0 then [e] + s
    else [s[0].(val := e.val)] + s[1..]
  }

  function Drop<P, K, V>(s: seq<Entry<P, K, V>>, k: K, cmp: (K, K) -> int): seq<Entry<P, K, V>> {
    if s == [] then []
    else if cmp(s[0].key, k) == 0 then s[1..]
    else [s[0]] + Drop(s[1..], k, cmp)
  }

  function Get<P, K, V>(s: seq<Entry<P, K, V>>, k: K, cmp: (K, K) -> int): Option<Entry<P, K, V>> {
    if s == [] then None
    else if cmp(s[0].key, k) == 0 then Some(s[0])
    else Get(s[1..], k, cmp)
  }

  /** The finite map a list stands for. */
  function AsMap<P, K, V>(s: seq<Entry<P, K, V>>): map<K, V> {
    if s == [] then map[] else AsMap(s[1..])[s[0].key := s[0].val]
  }

  ghost function Cells<P, K, V>(s: seq<Entry<P, K, V>>): set<P> {
    if s == [] then {} else {s[0].ptr} + Cells(s[1..])
  }

  ghost predicate DistinctCells<P, K, V>(s: seq<Entry<P, K, V>>) {
    s != [] ==> s[0].ptr !in Cells(s[1..]) && DistinctCells(s[1..])
  }

  // ---------------------------------------------------------------- around a pivot

  lemma SortedSplit<P, K, V>(l: seq<Entry<P, K, V>>, e: Entry<P, K, V>, r: seq<Entry<P, K, V>>, cmp: (K, K) -> int)
    requires Sorted(l + [e] + r, cmp)
    ensures Sorted(l, cmp) && Sorted(r, cmp) && AllBelow(l, e.key, cmp) && AllAbove(r, e.key, cmp)
  {
    var s := l + [e] + r;
    assert forall i :: 0 <= i < |l| ==> s[i] == l[i];
    assert s[|l|] == e;
    assert forall i :: 0 <= i < |r| ==> s[|l| + 1 + i] == r[i];
  }

  lemma BelowTrans<P, K(!new), V>(s: seq<Entry<P, K, V>>, j: K, k: K, cmp: (K, K) -> int)
    requires TotalOrder(cmp) && AllBelow(s, j, cmp) && cmp(j, k) <= 0
    ensures AllBelow(s, k, cmp)
  {
  }

  lemma AboveTrans<P, K(!new), V>(s: seq<Entry<P, K, V>>, j: K, k: K, cmp: (K, K) -> int)
    requires TotalOrder(cmp) && AllAbove(s, j, cmp) && cmp(k, j) <= 0
    ensures AllAbove(s, k, cmp)
  {
  }

  lemma {:induction false} PutBefore<P, K, V>(l: seq<Entry<P, K, V>>, m: Entry<P, K, V>, r: seq<Entry<P, K, V>>,
                                              e: Entry<P, K, V>, cmp: (K, K) -> int)
    requires cmp(m.key, e.key) > 0
    ensures Put(l + [m] + r, e, cmp) == Put(l, e, cmp) + [m] + r
  {
    var s := l + [m] + r;
    if l == [] {
      assert s == [m] + r;
    } else {
      assert s[1..] == l[1..] + [m] + r;
      PutBefore(l[1..], m, r, e, cmp);
    }
  }

  lemma {:induction false} PutAfter<P, K, V>(l: seq<Entry<P, K, V>>, r: seq<Entry<P, K, V>>,
                                             e: Entry<P, K, V>, cmp: (K, K) -> int)
    requires AllBelow(l, e.key, cmp)
    ensures Put(l + r, e, cmp) == l + Put(r, e, cmp)
  {
    if l == [] {
      assert l + r == r;
    } else {
      assert (l + r)[1..] == l[1..] + r;
      PutAfter(l[1..], r, e, cmp);
    }
  }

  lemma {:induction false} DropBefore<P, K(!new), V>(l: seq<Entry<P, K, V>>, r: seq<Entry<P, K, V>>, k: K, cmp: (K, K) -> int)
    requires TotalOrder(cmp) && AllAbove(r, k, cmp)
    ensures Drop(l + r, k, cmp) == Drop(l, k, cmp) + r
  {
    if l == [] {
      assert l + r == r;
      DropAbsent(r, k, cmp);
    } else {
      assert (l + r)[1..] == l[1..] + r;
      DropBefore(l[1..], r, k, cmp);
    }
  }

  lemma {:induction false} DropAbsent<P, K(!new), V>(s: seq<Entry<P, K, V>>, k: K, cmp: (K, K) -> int)
    requires TotalOrder(cmp) && (AllAbove(s, k, cmp) || AllBelow(s, k, cmp))
    ensures Drop(s, k, cmp) == s
  {
    if s != [] {
      assert cmp(s[0].key, k) != 0;
      DropAbsent(s[1..], k, cmp);
    }
  }

  lemma {:induction false} DropAfter<P, K, V>(l: seq<Entry<P, K, V>>, r: seq<Entry<P, K, V>>, k: K, cmp: (K, K) -> int)
    requires AllBelow(l, k, cmp)
    ensures Drop(l + r, k, cmp) == l + Drop(r, k, cmp)
  {
    hide Drop;
    if l == [] {
      assert l + r == r;
    } else {
      assert (l + r)[1..] == l[1..] + r;
      DropOther(l + r, k, cmp);
      DropAfter(l[1..], r, k, cmp);
      assert l + Drop(r, k, cmp) == [l[0]] + (l[1..] + Drop(r, k, cmp));
    }
  }

  lemma DropOther<P, K, V>(s: seq<Entry<P, K, V>>, k: K, cmp: (K, K) -> int)
    requires s != [] && cmp(s[0].key, k) != 0
    ensures Drop(s, k, cmp) == [s[0]] + Drop(s[1..], k, cmp)
  {
  }

  lemma {:induction false} GetAfter<P, K, V>(l: seq<Entry<P, K, V>>, r: seq<Entry<P, K, V>>, k: K, cmp: (K, K) -> int)
    requires AllBelow(l, k, cmp)
    ensures Get(l + r, k, cmp) == Get(r, k, cmp)
  {
    if l == [] {
      assert l + r == r;
    } else {
      assert (l + r)[1..] == l[1..] + r;
      GetAfter(l[1..], r, k, cmp);
    }
  }

  lemma {:induction false} GetBefore<P, K(!new), V>(l: seq<Entry<P, K, V>>, r: seq<Entry<P, K, V>>, k: K, cmp: (K, K) -> int)
    requires TotalOrder(cmp) && AllAbove(r, k, cmp)
    ensures Get(l + r, k, cmp) == Get(l, k, cmp)
  {
    if l == [] {
      assert l + r == r;
      GetAbsent(r, k, cmp);
    } else {
      assert (l + r)[1..] == l[1..] + r;
      GetBefore(l[1..], r, k, cmp);
    }
  }

  lemma {:induction false} GetAbsent<P, K(!new), V>(s: seq<Entry<P, K, V>>, k: K, cmp: (K, K) -> int)
    requires TotalOrder(cmp) && AllAbove(s, k, cmp)
    ensures Get(s, k, cmp) == None
  {
    if s != [] {
      assert cmp(s[0].key, k) != 0;
      GetAbsent(s[1..], k, cmp);
    }
  }

  // ---------------------------------------------------------------- at, before and after a pivot

  lemma PutRightOf<P, K(!new), V>(l: seq<Entry<P, K, V>>, m: Entry<P, K, V>, r: seq<Entry<P, K, V>>,
                                  e: Entry<P, K, V>, cmp: (K, K) -> int)
    requires TotalOrder(cmp) && Sorted(l + [m] + r, cmp) && cmp(m.key, e.key) < 0
    ensures Put(l + [m] + r, e, cmp) == l + [m] + Put(r, e, cmp)
  {
    SortedSplit(l, m, r, cmp);
    BelowTrans(l, m.key, e.key, cmp);
    PutAfter(l + [m], r, e, cmp);
  }

  lemma PutAt<P, K(!new), V>(l: seq<Entry<P, K, V>>, m: Entry<P, K, V>, r: seq<Entry<P, K, V>>,
                             e: Entry<P, K, V>, cmp: (K, K) -> int)
    requires TotalOrder(cmp) && Sorted(l + [m] + r, cmp) && cmp(m.key, e.key) == 0
    ensures Put(l + [m] + r, e, cmp) == l + [m.(val := e.val)] + r
  {
    SortedSplit(l, m, r, cmp);
    BelowTrans(l, m.key, e.key, cmp);
    PutPivot(l, m, r, e, cmp);
  }

  lemma PutPivot<P, K, V>(l: seq<Entry<P, K, V>>, m: Entry<P, K, V>, r: seq<Entry<P, K, V>>,
                          e: Entry<P, K, V>, cmp: (K, K) -> int)
    requires AllBelow(l, e.key, cmp) && cmp(m.key, e.key) == 0
    ensures Put(l + [m] + r, e, cmp) == l + [m.(val := e.val)] + r
  {
    assert l + [m] + r == l + ([m] + r);
    PutAfter(l, [m] + r, e, cmp);
    PutFirst(m, r, e, cmp);
  }

  lemma PutFirst<P, K, V>(m: Entry<P, K, V>, r: seq<Entry<P, K, V>>, e: Entry<P, K, V>, cmp: (K, K) -> int)
    requires cmp(m.key, e.key) == 0
    ensures Put([m] + r, e, cmp) == [m.(val := e.val)] + r
  {
    assert ([m] + r)[1..] == r;
  }

  lemma DropLeftOf<P, K(!new), V>(l: seq<Entry<P, K, V>>, m: Entry<P, K, V>, r: seq<Entry<P, K, V>>, k: K, cmp: (K, K) -> int)
    requires TotalOrder(cmp) && Sorted(l + [m] + r, cmp) && cmp(m.key, k) > 0
    ensures Drop(l + [m] + r, k, cmp) == Drop(l, k, cmp) + [m] + r
  {
    SortedSplit(l, m, r, cmp);
    AboveTrans(r, m.key, k, cmp);
    assert l + [m] + r == l + ([m] + r);
    DropBefore(l, [m] + r, k, cmp);
  }

  lemma DropRightOf<P, K(!new), V>(l: seq<Entry<P, K, V>>, m: Entry<P, K, V>, r: seq<Entry<P, K, V>>, k: K, cmp: (K, K) -> int)
    requires TotalOrder(cmp) && Sorted(l + [m] + r, cmp) && cmp(m.key, k) < 0
    ensures Drop(l + [m] + r, k, cmp) == l + [m] + Drop(r, k, cmp)
  {
    SortedSplit(l, m, r, cmp);
    BelowTrans(l, m.key, k, cmp);
    DropAfter(l + [m], r, k, cmp);
  }

  lemma DropAt<P, K(!new), V>(l: seq<Entry<P, K, V>>, m: Entry<P, K, V>, r: seq<Entry<P, K, V>>, k: K, cmp: (K, K) -> int)
    requires TotalOrder(cmp) && Sorted(l + [m] + r, cmp) && cmp(m.key, k) == 0
    ensures Drop(l + [m] + r, k, cmp) == l + r
  {
    SortedSplit(l, m, r, cmp);
    assert l + [m] + r == l + ([m] + r);
    DropAfter(l, [m] + r, k, cmp);
    assert ([m] + r)[1..] == r;
  }

  lemma {:induction false} DropLast<P, K(!new), V>(s: seq<Entry<P, K, V>>, cmp: (K, K) -> int)
    requires TotalOrder(cmp) && Sorted(s, cmp) && s != []
    ensures s == Drop(s, s[|s| - 1].key, cmp) + [s[|s| - 1]]
  {
    if |s| > 1 {
      assert cmp(s[0].key, s[|s| - 1].key) != 0;
      DropLast(s[1..], cmp);
    }
  }

  lemma GetLeftOf<P, K(!new), V>(l: seq<Entry<P, K, V>>, m: Entry<P, K, V>, r: seq<Entry<P, K, V>>, k: K, cmp: (K, K) -> int)
    requires TotalOrder(cmp) && Sorted(l + [m] + r, cmp) && cmp(m.key, k) > 0
    ensures Get(l + [m] + r, k, cmp) == Get(l, k, cmp)
  {
    SortedSplit(l, m, r, cmp);
    AboveTrans(r, m.key, k, cmp);
    assert l + [m] + r == l + ([m] + r);
    GetBefore(l, [m] + r, k, cmp);
  }

  lemma GetRightOf<P, K(!new), V>(l: seq<Entry<P, K, V>>, m: Entry<P, K, V>, r: seq<Entry<P, K, V>>, k: K, cmp: (K, K) -> int)
    requires TotalOrder(cmp) && Sorted(l + [m] + r, cmp) && cmp(m.key, k) < 0
    ensures Get(l + [m] + r, k, cmp) == Get(r, k, cmp)
  {
    SortedSplit(l, m, r, cmp);
    BelowTrans(l, m.key, k, cmp);
    GetAfter(l + [m], r, k, cmp);
  }

  lemma GetAt<P, K(!new), V>(l: seq<Entry<P, K, V>>, m: Entry<P, K, V>, r: seq<Entry<P, K, V>>, k: K, cmp: (K, K) -> int)
    requires TotalOrder(cmp) && Sorted(l + [m] + r, cmp) && cmp(m.key, k) == 0
    ensures Get(l + [m] + r, k, cmp) == Some(m)
  {
    SortedSplit(l, m, r, cmp);
    assert l + [m] + r == l + ([m] + r);
    GetAfter(l, [m] + r, k, cmp);
  }

  lemma GetMember<P, K(!new), V>(s: seq<Entry<P, K, V>>, i: nat, cmp: (K, K) -> int)
    requires TotalOrder(cmp) && Sorted(s, cmp) && i < |s|
    ensures Get(s, s[i].key, cmp) == Some(s[i])
  {
    assert s == s[..i] + [s[i]] + s[i + 1..];
    GetAt(s[..i], s[i], s[i + 1..], s[i].key, cmp);
  }

  // ---------------------------------------------------------------- what the operations do

  lemma SortedCons<P, K, V>(e: Entry<P, K, V>, s: seq<Entry<P, K, V>>, cmp: (K, K) -> int)
    requires Sorted(s, cmp) && AllAbove(s, e.key, cmp)
    ensures Sorted([e] + s, cmp)
  {
  }

  lemma SortedTail<P, K, V>(s: seq<Entry<P, K, V>>, cmp: (K, K) -> int)
    requires Sorted(s, cmp) && s != []
    ensures Sorted(s[1..], cmp) && AllAbove(s[1..], s[0].key, cmp)
  {
  }

  lemma {:induction false} PutAbove<P, K(!new), V>(s: seq<Entry<P, K, V>>, e: Entry<P, K, V>, k: K, cmp: (K, K) -> int)
    requires AllAbove(s, k, cmp) && cmp(k, e.key) < 0
    ensures AllAbove(Put(s, e, cmp), k, cmp)
  {
    if s != [] && cmp(s[0].key, e.key) < 0 { PutAbove(s[1..], e, k, cmp); }
  }

  lemma {:induction false} DropAbove<P, K(!new), V>(s: seq<Entry<P, K, V>>, j: K, k: K, cmp: (K, K) -> int)
    requires AllAbove(s, k, cmp)
    ensures AllAbove(Drop(s, j, cmp), k, cmp)
  {
    if s != [] && cmp(s[0].key, j) != 0 { DropAbove(s[1..], j, k, cmp); }
  }

  lemma {:induction false} PutSorted<P, K(!new), V>(s: seq<Entry<P, K, V>>, e: Entry<P, K, V>, cmp: (K, K) -> int)
    requires TotalOrder(cmp) && Sorted(s, cmp)
    ensures Sorted(Put(s, e, cmp), cmp)
  {
    if s != [] {
      SortedTail(s, cmp);
      if cmp(s[0].key, e.key) < 0 {
        PutSorted(s[1..], e, cmp);
        PutAbove(s[1..], e, s[0].key, cmp);
        SortedCons(s[0], Put(s[1..], e, cmp), cmp);
      } else if cmp(s[0].key, e.key) > 0 {
        AboveTrans(s[1..], s[0].key, e.key, cmp);
        SortedCons(e, s, cmp);
      } else {
        SortedCons(s[0].(val := e.val), s[1..], cmp);
      }
    }
  }

  lemma {:induction false} DropSorted<P, K(!new), V>(s: seq<Entry<P, K, V>>, k: K, cmp: (K, K) -> int)
    requires TotalOrder(cmp) && Sorted(s, cmp)
    ensures Sorted(Drop(s, k, cmp), cmp)
  {
    if s != [] {
      SortedTail(s, cmp);
      if cmp(s[0].key, k) != 0 {
        DropSorted(s[1..], k, cmp);
        DropAbove(s[1..], k, s[0].key, cmp);
        SortedCons(s[0], Drop(s[1..], k, cmp), cmp);
      }
    }
  }

  /** Put is map update: a key already present gets the new value, and no second binding. */
  lemma {:induction false} PutIsUpdate<P, K(!new), V>(s: seq<Entry<P, K, V>>, e: Entry<P, K, V>, cmp: (K, K) -> int)
    requires TotalOrder(cmp)
    ensures AsMap(Put(s, e, cmp)) == AsMap(s)[e.key := e.val]
  {
    if s != [] {
      var r := Put(s, e, cmp);
      if cmp(s[0].key, e.key) < 0 {
        PutIsUpdate(s[1..], e, cmp);
        assert r[1..] == Put(s[1..], e, cmp);
      } else if cmp(s[0].key, e.key) > 0 {
        assert r[1..] == s;
      } else {
        assert r[1..] == s[1..];
      }
    }
  }

  lemma {:induction false} AboveAbsent<P, K(!new), V>(s: seq<Entry<P, K, V>>, k: K, cmp: (K, K) -> int)
    requires TotalOrder(cmp) && AllAbove(s, k, cmp)
    ensures k !in AsMap(s)
  {
    if s != [] {
      assert cmp(k, s[0].key) < 0;
      AboveAbsent(s[1..], k, cmp);
    }
  }

  lemma {:induction false} DropIsRemove<P, K(!new), V>(s: seq<Entry<P, K, V>>, k: K, cmp: (K, K) -> int)
    requires TotalOrder(cmp) && Sorted(s, cmp)
    ensures AsMap(Drop(s, k, cmp)) == AsMap(s) - {k}
  {
    if s != [] {
      SortedTail(s, cmp);
      if cmp(s[0].key, k) == 0 {
        AboveAbsent(s[1..], k, cmp);
      } else {
        DropIsRemove(s[1..], k, cmp);
        assert Drop(s, k, cmp)[1..] == Drop(s[1..], k, cmp);
      }
    }
  }

  lemma {:induction false} GetIsLookup<P, K(!new), V>(s: seq<Entry<P, K, V>>, k: K, cmp: (K, K) -> int)
    requires TotalOrder(cmp)
    ensures match Get(s, k, cmp)
            case None => k !in AsMap(s)
            case Some(e) => e in s && e.key == k && k in AsMap(s) && AsMap(s)[k] == e.val
  {
    if s != [] { GetIsLookup(s[1..], k, cmp); }
  }

  lemma {:induction false} AsMapPointwise<P, K, V>(s: seq<Entry<P, K, V>>, t: seq<Entry<P, K, V>>, f: V -> V)
    requires |s| == |t|
    requires forall i :: 0 <= i < |t| ==> s[i].key == t[i].key && s[i].val == f(t[i].val)
    ensures AsMap(s) == map k | k in AsMap(t) :: f(AsMap(t)[k])
  {
    if s != [] { AsMapPointwise(s[1..], t[1..], f); }
  }

  // ---------------------------------------------------------------- cells

  lemma {:induction false} CellsConcat<P, K, V>(a: seq<Entry<P, K, V>>, b: seq<Entry<P, K, V>>)
    ensures Cells(a + b) == Cells(a) + Cells(b)
    ensures DistinctCells(a + b) <==> DistinctCells(a) && DistinctCells(b) && Cells(a) !! Cells(b)
  {
    if a == [] {
      assert a + b == b;
    } else {
      assert (a + b)[1..] == a[1..] + b;
      CellsConcat(a[1..], b);
    }
  }

  /** Replacing a value links no new cell; a new key links exactly the given cell. */
  lemma {:induction false} PutCells<P, K(!new), V>(s: seq<Entry<P, K, V>>, e: Entry<P, K, V>, cmp: (K, K) -> int)
    requires TotalOrder(cmp) && Sorted(s, cmp)
    ensures Cells(Put(s, e, cmp)) == Cells(s) + if Get(s, e.key, cmp).Some? then {} else {e.ptr}
    ensures DistinctCells(s) && e.ptr !in Cells(s) ==> DistinctCells(Put(s, e, cmp))
  {
    if s != [] {
      SortedTail(s, cmp);
      if cmp(s[0].key, e.key) > 0 { NotYetIn(s, e.key, cmp); }
      hide TotalOrder, Sorted, AllAbove;
      var r := Put(s, e, cmp);
      if cmp(s[0].key, e.key) < 0 {
        PutCells(s[1..], e, cmp);
        assert r[1..] == Put(s[1..], e, cmp);
      } else if cmp(s[0].key, e.key) > 0 {
        assert r[1..] == s;
      } else {
        assert r[1..] == s[1..];
      }
    }
  }

  /** A key before the first is not in a sorted list. */
  lemma NotYetIn<P, K(!new), V>(s: seq<Entry<P, K, V>>, k: K, cmp: (K, K) -> int)
    requires TotalOrder(cmp) && Sorted(s, cmp) && s != [] && cmp(s[0].key, k) > 0
    ensures Get(s, k, cmp).None?
  {
    SortedTail(s, cmp);
    AboveTrans(s[1..], s[0].key, k, cmp);
    GetAbsent(s, k, cmp);
  }

  /** A removal unlinks exactly the cell that held the key. */
  lemma {:induction false} DropCells<P, K(!new), V>(s: seq<Entry<P, K, V>>, k: K, cmp: (K, K) -> int)
    requires TotalOrder(cmp) && DistinctCells(s)
    ensures DistinctCells(Drop(s, k, cmp))
    ensures var g := Get(s, k, cmp);
            Cells(Drop(s, k, cmp)) == Cells(s) - if g.Some? then {g.value.ptr} else {}
    ensures Get(s, k, cmp).Some? ==> Get(s, k, cmp).value.ptr in Cells(s)
  {
    if s != [] && cmp(s[0].key, k) != 0 {
      DropCells(s[1..], k, cmp);
      assert Drop(s, k, cmp)[1..] == Drop(s[1..], k, cmp);
    }
  }
}
