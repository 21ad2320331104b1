/** Profiles as values (cachegrind/cg_merge.c): counts per line per file and function, and what
adding a line and merging two profiles mean. */
module Profile {
  import opened Words

  datatype FileFn = FileFn(fi: string, fn: string)

  type Counts = seq<nat>
  type Inner = map<nat, Counts>
  type Outer = map<FileFn, Inner>

  predicate IsCounts(c: Counts, n: nat) {
    |c| == n && forall e :: 0 <= e < |c| ==> c[e] < WORD64
  }

  function AddWords(a: nat, b: nat): (c: nat)
    ensures c < WORD64
  {
    (a + b) % WORD64
  }

  /** addCounts */
  function Add(a: Counts, b: Counts): (c: Counts)
    requires |a| == |b|
    ensures IsCounts(c, |a|) && forall e :: 0 <= e < |a| ==> c[e] == AddWords(a[e], b[e])
  {
    seq(|a|, e requires 0 <= e < |a| => AddWords(a[e], b[e]))
  }

  ghost predicate InnerOk(m: Inner, n: nat) { forall l :: l in m ==> IsCounts(m[l], n) }
  ghost predicate OuterOk(o: Outer, n: nat) { forall k :: k in o ==> InnerOk(o[k], n) }

  // ---------------------------------------------------------------- adding and merging

  function InnerAt(o: Outer, k: FileFn): Inner { if k in o then o[k] else map[] }

  /** One line of counts added to a function's lines. */
  function AddToInner(m: Inner, l: nat, c: Counts): Inner
    requires l in m ==> |m[l]| == |c|
  {
    m[l := if l in m then Add(m[l], c) else c]
  }

  /** handle_counts: one line of counts added to a profile. */
  function AddLine(o: Outer, k: FileFn, l: nat, c: Counts): (r: Outer)
    requires OuterOk(o, |c|)
  {
    o[k := AddToInner(InnerAt(o, k), l, c)]
  }

  ghost function MergeInner(d: Inner, s: Inner, n: nat): (r: Inner)
    requires InnerOk(d, n) && InnerOk(s, n)
    ensures InnerOk(r, n) && r.Keys == d.Keys + s.Keys
  {
    map l | l in d.Keys + s.Keys ::
      if l !in s then d[l] else if l !in d then s[l] else Add(d[l], s[l])
  }

  /** merge_CacheProfInfo: the union of the keys, counts added where both sides have them. */
  ghost function Merge(d: Outer, s: Outer, n: nat): (r: Outer)
    requires OuterOk(d, n) && OuterOk(s, n)
    ensures OuterOk(r, n) && r.Keys == d.Keys + s.Keys
  {
    map k | k in d.Keys + s.Keys :: MergeInner(InnerAt(d, k), InnerAt(s, k), n)
  }

  ghost function LineAt(m: Inner, l: nat, n: nat): (c: Counts)
    requires InnerOk(m, n)
    ensures IsCounts(c, n)
  {
    if l in m then m[l] else Zero(n)
  }

  /** The counts of one line; all zero if the profile has none. */
  ghost function CountsAt(o: Outer, k: FileFn, l: nat, n: nat): (c: Counts)
    requires OuterOk(o, n)
    ensures IsCounts(c, n)
  {
    LineAt(InnerAt(o, k), l, n)
  }

  lemma MergeAt(d: Outer, s: Outer, n: nat, k: FileFn)
    requires OuterOk(d, n) && OuterOk(s, n)
    ensures InnerOk(InnerAt(d, k), n) && InnerOk(InnerAt(s, k), n)
    ensures InnerAt(Merge(d, s, n), k) == MergeInner(InnerAt(d, k), InnerAt(s, k), n)
  {
    hide InnerOk, MergeInner;
    NothingMerged(n);
  }

  lemma NothingMerged(n: nat)
    ensures InnerOk(map[], n) && MergeInner(map[], map[], n) == map[]
  {
  }

  function Zero(n: nat): (c: Counts)
    ensures IsCounts(c, n)
  {
    seq(n, e => 0)
  }

  lemma AddZero(c: Counts)
    requires IsCounts(c, |c|)
    ensures Add(c, Zero(|c|)) == c && Add(Zero(|c|), c) == c
  {
    forall e | 0 <= e < |c| ensures AddWords(c[e], 0) == c[e] && AddWords(0, c[e]) == c[e] { }
  }

  lemma MergeInnerAdds(d: Inner, s: Inner, n: nat, l: nat)
    requires InnerOk(d, n) && InnerOk(s, n)
    ensures LineAt(MergeInner(d, s, n), l, n) == Add(LineAt(d, l, n), LineAt(s, l, n))
  {
    hide Add;
    AddZero(LineAt(d, l, n));
    AddZero(LineAt(s, l, n));
  }

  /** Merging is addition, line by line, modulo the counter width. */
  lemma MergeAdds(d: Outer, s: Outer, n: nat, k: FileFn, l: nat)
    requires OuterOk(d, n) && OuterOk(s, n)
    ensures CountsAt(Merge(d, s, n), k, l, n) == Add(CountsAt(d, k, l, n), CountsAt(s, k, l, n))
    ensures l in InnerAt(Merge(d, s, n), k) <==> l in InnerAt(d, k) || l in InnerAt(s, k)
  {
    hide Merge, Add, LineAt, MergeInner, InnerOk;
    MergeAt(d, s, n, k);
    MergeInnerAdds(InnerAt(d, k), InnerAt(s, k), n, l);
  }

  lemma AddCommutes(a: Counts, b: Counts)
    requires |a| == |b|
    ensures Add(a, b) == Add(b, a)
  {
  }

  lemma AddWordsAssociates(a: nat, b: nat, c: nat)
    ensures AddWords(AddWords(a, b), c) == AddWords(a, AddWords(b, c))
  {
  }

  lemma AddAssociates(a: Counts, b: Counts, c: Counts)
    requires |a| == |b| == |c|
    ensures Add(Add(a, b), c) == Add(a, Add(b, c))
  {
    hide AddWords, Add;
    var x, y := Add(Add(a, b), c), Add(a, Add(b, c));
    forall e | 0 <= e < |a| ensures x[e] == y[e] { AddWordsAssociates(a[e], b[e], c[e]); }
    assert x == y;
  }

  lemma MergeInnerCommutes(a: Inner, b: Inner, n: nat)
    requires InnerOk(a, n) && InnerOk(b, n)
    ensures MergeInner(a, b, n) == MergeInner(b, a, n)
  {
    hide Add;
    forall l | l in a && l in b ensures Add(a[l], b[l]) == Add(b[l], a[l]) { AddCommutes(a[l], b[l]); }
  }

  lemma MergeInnerAssociates(a: Inner, b: Inner, c: Inner, n: nat)
    requires InnerOk(a, n) && InnerOk(b, n) && InnerOk(c, n)
    ensures MergeInner(MergeInner(a, b, n), c, n) == MergeInner(a, MergeInner(b, c, n), n)
  {
    hide Add, MergeInner, IsCounts;
    var ab, bc := MergeInner(a, b, n), MergeInner(b, c, n);
    var x, y := MergeInner(ab, c, n), MergeInner(a, bc, n);
    forall l | l in x.Keys ensures x[l] == y[l] {
      MergeLine(a, b, n, l);
      MergeLine(b, c, n, l);
      MergeLine(ab, c, n, l);
      MergeLine(a, bc, n, l);
      if l in a && l in b && l in c { AddAssociates(a[l], b[l], c[l]); }
    }
    assert x.Keys == y.Keys;
  }

  lemma MergeLine(d: Inner, s: Inner, n: nat, l: nat)
    requires InnerOk(d, n) && InnerOk(s, n)
    ensures l in d ==> |d[l]| == n
    ensures l in s ==> |s[l]| == n
    ensures var m := MergeInner(d, s, n);
            && (l in m <==> l in d || l in s)
            && (l in d && l in s ==> m[l] == Add(d[l], s[l]))
            && (l in d && l !in s ==> m[l] == d[l]) && (l in s && l !in d ==> m[l] == s[l])
  {
    hide Add;
  }

  lemma MergeCommutes(a: Outer, b: Outer, n: nat)
    requires OuterOk(a, n) && OuterOk(b, n)
    ensures Merge(a, b, n) == Merge(b, a, n)
  {
    hide MergeInner, InnerOk, OuterOk, Merge;
    var x, y := Merge(a, b, n), Merge(b, a, n);
    forall k | k in x.Keys ensures x[k] == y[k] {
      MergeAt(a, b, n, k);
      MergeAt(b, a, n, k);
      MergeInnerCommutes(InnerAt(a, k), InnerAt(b, k), n);
    }
    assert x.Keys == y.Keys;
  }

  lemma MergeAssociates(a: Outer, b: Outer, c: Outer, n: nat)
    requires OuterOk(a, n) && OuterOk(b, n) && OuterOk(c, n)
    ensures Merge(Merge(a, b, n), c, n) == Merge(a, Merge(b, c, n), n)
  {
    hide MergeInner, InnerOk, OuterOk, Merge;
    var ab, bc := Merge(a, b, n), Merge(b, c, n);
    var x, y := Merge(ab, c, n), Merge(a, bc, n);
    forall k | k in x.Keys ensures x[k] == y[k] {
      MergeAt(a, b, n, k);
      MergeAt(b, c, n, k);
      MergeAt(ab, c, n, k);
      MergeAt(a, bc, n, k);
      MergeInnerAssociates(InnerAt(a, k), InnerAt(b, k), InnerAt(c, k), n);
    }
    assert x.Keys == y.Keys;
  }

  // ---------------------------------------------------------------- any order of files

  ghost predicate FilesOk(files: seq<Outer>, n: nat) {
    forall i :: 0 <= i < |files| ==> OuterOk(files[i], n)
  }

  /** All files merged in order. */
  ghost function MergeAll(files: seq<Outer>, n: nat): (r: Outer)
    requires FilesOk(files, n)
    ensures OuterOk(r, n)
  {
    if files == [] then map[] else Merge(MergeAll(files[..|files| - 1], n), files[|files| - 1], n)
  }

  ghost function Without(files: seq<Outer>, i: nat): (r: seq<Outer>)
    requires i < |files|
    ensures |r| == |files| - 1
  {
    files[..i] + files[i + 1..]
  }

  lemma WithoutLast(files: seq<Outer>, i: nat)
    requires i < |files| - 1
    ensures var m, w := |files| - 1, Without(files, i);
            files[..m][i] == files[i] && w[..m - 1] == Without(files[..m], i) && w[m - 1] == files[m]
  {
  }

  lemma LastMerged(files: seq<Outer>, n: nat)
    requires FilesOk(files, n) && files != []
    ensures var m := |files| - 1;
            && FilesOk(files[..m], n) && OuterOk(files[m], n)
            && MergeAll(files, n) == Merge(MergeAll(files[..m], n), files[m], n)
  {
    hide Merge, OuterOk;
  }

  lemma WithoutOk(files: seq<Outer>, i: nat, n: nat)
    requires FilesOk(files, n) && i < |files|
    ensures FilesOk(Without(files, i), n) && OuterOk(files[i], n)
    ensures i == |files| - 1 ==> Without(files, i) == files[..i]
  {
    hide OuterOk;
  }

  /** Any file may be merged last. */
  lemma {:induction false} AnyLast(files: seq<Outer>, i: nat, n: nat)
    requires FilesOk(files, n) && i < |files|
    ensures FilesOk(Without(files, i), n)
    ensures MergeAll(files, n) == Merge(MergeAll(Without(files, i), n), files[i], n)
    decreases |files|
  {
    hide Merge, MergeAll, OuterOk, FilesOk, Without;
    var m := |files| - 1;
    LastMerged(files, n);
    WithoutOk(files, i, n);
    if i < m {
      var before := files[..m];
      AnyLast(before, i, n);
      WithoutLast(files, i);
      LastMerged(Without(files, i), n);
      var x := MergeAll(Without(before, i), n);
      SwapLast(x, files[i], files[m], n);
    }
  }

  lemma SwapLast(x: Outer, a: Outer, b: Outer, n: nat)
    requires OuterOk(x, n) && OuterOk(a, n) && OuterOk(b, n)
    ensures Merge(Merge(x, a, n), b, n) == Merge(Merge(x, b, n), a, n)
  {
    hide Merge, OuterOk;
    MergeAssociates(x, a, b, n);
    MergeCommutes(a, b, n);
    MergeAssociates(x, b, a, n);
  }

  /** The files in any order give the same profile. */
  lemma {:induction false} OrderIrrelevant(files: seq<Outer>, other: seq<Outer>, n: nat)
    requires FilesOk(files, n) && FilesOk(other, n) && multiset(files) == multiset(other)
    ensures MergeAll(files, n) == MergeAll(other, n)
    decreases |files|
  {
    if files == [] {
      assert |multiset(other)| == 0;
    } else {
      var m := |other| - 1;
      assert |multiset(files)| == |files| && |multiset(other)| == |other|;
      assert other[m] in multiset(files);
      var i :| 0 <= i < |files| && files[i] == other[m];
      AnyLast(files, i, n);
      SameRest(files, other, i);
      OrderIrrelevant(Without(files, i), other[..m], n);
    }
  }

  lemma SameRest(files: seq<Outer>, other: seq<Outer>, i: nat)
    requires other != [] && i < |files| && multiset(files) == multiset(other) && files[i] == other[|other| - 1]
    ensures multiset(Without(files, i)) == multiset(other[..|other| - 1])
  {
    LessOne(files, i);
    LessOne(other, |other| - 1);
    assert Without(other, |other| - 1) == other[..|other| - 1];
  }

  lemma LessOne(files: seq<Outer>, i: nat)
    requires i < |files|
    ensures multiset(Without(files, i)) == multiset(files) - multiset{files[i]}
  {
    assert files == files[..i] + [files[i]] + files[i + 1..];
    assert multiset(files) == multiset(files[..i]) + multiset{files[i]} + multiset(files[i + 1..]);
    assert multiset(Without(files, i)) == multiset(files[..i]) + multiset(files[i + 1..]);
  }
}
