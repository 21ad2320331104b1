/** Column sums of profiles, and the summary that cachegrind/cg_merge.c keeps beside a profile. */
module ProfileSums {
  import opened Words
  import opened Profile

  function Word(c: Counts, e: nat): nat { if e < |c| then c[e] else 0 }

  /** The sum of one event over all lines of a function. */
  ghost function InnerSum(m: Inner, e: nat): nat
    decreases |m|
  {
    if m == map[] then 0
    else
      var l :| l in m;
      Word(m[l], e) + InnerSum(m - {l}, e)
  }

  ghost function OuterSum(o: Outer, e: nat): nat
    decreases |o|
  {
    if o == map[] then 0
    else
      var k :| k in o;
      InnerSum(o[k], e) + OuterSum(o - {k}, e)
  }

  /** Any line may be added last. */
  lemma {:induction false} InnerPick(m: Inner, l: nat, e: nat)
    requires l in m
    ensures InnerSum(m, e) == Word(m[l], e) + InnerSum(m - {l}, e)
    decreases |m|
  {
    var j :| j in m && InnerSum(m, e) == Word(m[j], e) + InnerSum(m - {j}, e);
    if j != l {
      InnerPick(m - {j}, l, e);
      InnerPick(m - {l}, j, e);
      assert m - {j} - {l} == m - {l} - {j};
    }
  }

  lemma {:induction false} OuterPick(o: Outer, k: FileFn, e: nat)
    requires k in o
    ensures OuterSum(o, e) == InnerSum(o[k], e) + OuterSum(o - {k}, e)
    decreases |o|
  {
    var j :| j in o && OuterSum(o, e) == InnerSum(o[j], e) + OuterSum(o - {j}, e);
    if j != k {
      OuterPick(o - {j}, k, e);
      OuterPick(o - {k}, j, e);
      assert o - {j} - {k} == o - {k} - {j};
    }
  }

  lemma AddWord(a: nat, b: nat)
    ensures Congruent(AddWords(a, b), a + b)
  {
    ReduceCongruent(a + b);
  }

  lemma SameCongruent(x: int)
    ensures Congruent(x, x)
  {
  }

  // ---------------------------------------------------------------- merging adds the sums

  /** Column sums of a merge are the sums of the column sums, up to wrap-around. */
  ghost predicate InnerSumsAdd(d: Inner, s: Inner, n: nat, e: nat)
    requires InnerOk(d, n) && InnerOk(s, n)
  {
    Congruent(InnerSum(MergeInner(d, s, n), e), InnerSum(d, e) + InnerSum(s, e))
  }

  ghost predicate SumsAdd(d: Outer, s: Outer, n: nat, e: nat)
    requires OuterOk(d, n) && OuterOk(s, n)
  {
    Congruent(OuterSum(Merge(d, s, n), e), OuterSum(d, e) + OuterSum(s, e))
  }

  lemma MergeInnerLess(d: Inner, s: Inner, n: nat, l: nat)
    requires InnerOk(d, n) && InnerOk(s, n) && l in s
    ensures MergeInner(d, s, n) - {l} == MergeInner(d - {l}, s - {l}, n)
  {
    hide Add, IsCounts;
    var x, y := MergeInner(d, s, n) - {l}, MergeInner(d - {l}, s - {l}, n);
    assert x.Keys == y.Keys;
    forall j | j in x ensures x[j] == y[j] { }
  }

  lemma MergeInnerNothing(d: Inner, n: nat)
    requires InnerOk(d, n)
    ensures MergeInner(d, map[], n) == d
  {
  }

  lemma LineSum(d: Inner, s: Inner, n: nat, l: nat, e: nat)
    requires InnerOk(d, n) && InnerOk(s, n) && l in s && e < n
    ensures Congruent(Word(MergeInner(d, s, n)[l], e), (if l in d then Word(d[l], e) else 0) + Word(s[l], e))
  {
    hide Congruent, AddWords;
    if l in d { AddWord(d[l][e], s[l][e]); } else { SameCongruent(Word(s[l], e)); }
  }

  lemma InnerLess(m: Inner, l: nat, n: nat, e: nat)
    requires InnerOk(m, n)
    ensures InnerOk(m - {l}, n)
    ensures InnerSum(m, e) == InnerSum(m - {l}, e) + if l in m then Word(m[l], e) else 0
  {
    hide IsCounts, InnerSum;
    if l in m { InnerPick(m, l, e); } else { assert m - {l} == m; }
  }

  lemma InnerMergeStep(d: Inner, s: Inner, n: nat, l: nat, e: nat)
    requires InnerOk(d, n) && InnerOk(s, n) && e < n && l in s
    requires InnerOk(d - {l}, n) && InnerOk(s - {l}, n)
    requires InnerSumsAdd(d - {l}, s - {l}, n, e)
    ensures InnerSumsAdd(d, s, n, e)
  {
    hide MergeInner, Congruent, InnerSum, InnerOk, Word;
    var m := MergeInner(d, s, n);
    InnerLess(m, l, n, e);
    InnerLess(s, l, n, e);
    InnerLess(d, l, n, e);
    MergeInnerLess(d, s, n, l);
    LineSum(d, s, n, l, e);
    CongruentSum(Word(m[l], e), (if l in d then Word(d[l], e) else 0) + Word(s[l], e),
                 InnerSum(m - {l}, e), InnerSum(d - {l}, e) + InnerSum(s - {l}, e));
  }

  lemma InnerBase(d: Inner, s: Inner, n: nat, e: nat)
    requires InnerOk(d, n) && InnerOk(s, n) && |s| == 0
    ensures InnerSumsAdd(d, s, n, e)
  {
    hide MergeInner, Congruent, InnerOk;
    assert s == map[];
    MergeInnerNothing(d, n);
    SameCongruent(InnerSum(d, e));
  }

  /** One line taken out of both sides. */
  lemma InnerShrink(d: Inner, s: Inner, n: nat, e: nat) returns (d': Inner, s': Inner)
    requires InnerOk(d, n) && InnerOk(s, n) && e < n && |s| > 0
    ensures InnerOk(d', n) && InnerOk(s', n) && |s'| < |s|
    ensures InnerSumsAdd(d', s', n, e) ==>
              InnerSumsAdd(d, s, n, e)
  {
    hide InnerSumsAdd, InnerOk;
    assert s != map[];
    var l :| l in s;
    d', s' := d - {l}, s - {l};
    InnerLess(d, l, n, e);
    InnerLess(s, l, n, e);
    if InnerSumsAdd(d', s', n, e) {
      InnerMergeStep(d, s, n, l, e);
    }
  }

  lemma {:induction false} InnerMergeSum(d: Inner, s: Inner, n: nat, e: nat)
    requires InnerOk(d, n) && InnerOk(s, n) && e < n
    ensures InnerSumsAdd(d, s, n, e)
    decreases |s|
  {
    hide InnerSumsAdd, InnerOk;
    if |s| == 0 {
      InnerBase(d, s, n, e);
    } else {
      var d', s' := InnerShrink(d, s, n, e);
      InnerMergeSum(d', s', n, e);
    }
  }

  lemma MergeLess(d: Outer, s: Outer, n: nat, k: FileFn)
    requires OuterOk(d, n) && OuterOk(s, n) && k in s
    ensures Merge(d, s, n) - {k} == Merge(d - {k}, s - {k}, n)
  {
    hide MergeInner, InnerOk;
    var x, y := Merge(d, s, n) - {k}, Merge(d - {k}, s - {k}, n);
    assert x.Keys == y.Keys;
    forall j | j in x ensures x[j] == y[j] { }
  }

  lemma MergeNothing(d: Outer, n: nat)
    requires OuterOk(d, n)
    ensures Merge(d, map[], n) == d
  {
    hide InnerOk, MergeInner;
    var m := Merge(d, map[], n);
    forall k | k in d ensures m[k] == d[k] { MergeInnerNothing(d[k], n); }
    assert m.Keys == d.Keys;
  }

  lemma NoLines(e: nat)
    ensures InnerSum(map[], e) == 0 && OuterSum(map[], e) == 0
  {
  }

  lemma OuterLess(o: Outer, k: FileFn, n: nat, e: nat)
    requires OuterOk(o, n)
    ensures OuterOk(o - {k}, n) && InnerOk(InnerAt(o, k), n)
    ensures OuterSum(o, e) == OuterSum(o - {k}, e) + InnerSum(InnerAt(o, k), e)
  {
    hide InnerSum, OuterSum;
    if k in o {
      OuterPick(o, k, e);
    } else {
      assert o - {k} == o;
      NoLines(e);
    }
  }

  lemma MergeStep(d: Outer, s: Outer, n: nat, k: FileFn, e: nat)
    requires OuterOk(d, n) && OuterOk(s, n) && e < n && k in s
    requires OuterOk(d - {k}, n) && OuterOk(s - {k}, n)
    requires SumsAdd(d - {k}, s - {k}, n, e)
    ensures SumsAdd(d, s, n, e)
  {
    hide MergeInner, Merge, Congruent, OuterOk, InnerOk, InnerSum, OuterSum;
    var m := Merge(d, s, n);
    OuterLess(m, k, n, e);
    OuterLess(s, k, n, e);
    OuterLess(d, k, n, e);
    MergeLess(d, s, n, k);
    MergeAt(d, s, n, k);
    var x, y := InnerAt(d, k), InnerAt(s, k);
    InnerMergeSum(x, y, n, e);
    CongruentSum(InnerSum(MergeInner(x, y, n), e), InnerSum(x, e) + InnerSum(y, e),
                 OuterSum(m - {k}, e), OuterSum(d - {k}, e) + OuterSum(s - {k}, e));
  }

  lemma OuterBase(d: Outer, s: Outer, n: nat, e: nat)
    requires OuterOk(d, n) && OuterOk(s, n) && |s| == 0
    ensures SumsAdd(d, s, n, e)
  {
    hide Merge, Congruent, OuterOk;
    assert s == map[];
    MergeNothing(d, n);
    SameCongruent(OuterSum(d, e));
  }

  /** One function taken out of both sides. */
  lemma OuterShrink(d: Outer, s: Outer, n: nat, e: nat) returns (d': Outer, s': Outer)
    requires OuterOk(d, n) && OuterOk(s, n) && e < n && |s| > 0
    ensures OuterOk(d', n) && OuterOk(s', n) && |s'| < |s|
    ensures SumsAdd(d', s', n, e) ==>
              SumsAdd(d, s, n, e)
  {
    hide SumsAdd, OuterOk;
    assert s != map[];
    var k :| k in s;
    d', s' := d - {k}, s - {k};
    OuterLess(d, k, n, e);
    OuterLess(s, k, n, e);
    if SumsAdd(d', s', n, e) {
      MergeStep(d, s, n, k, e);
    }
  }

  lemma {:induction false} MergeSum(d: Outer, s: Outer, n: nat, e: nat)
    requires OuterOk(d, n) && OuterOk(s, n) && e < n
    ensures SumsAdd(d, s, n, e)
    decreases |s|
  {
    hide SumsAdd, OuterOk;
    if |s| == 0 {
      OuterBase(d, s, n, e);
    } else {
      var d', s' := OuterShrink(d, s, n, e);
      MergeSum(d', s', n, e);
    }
  }

  // ---------------------------------------------------------------- the summary

  /** The summary is the column sums. */
  ghost predicate Balanced(o: Outer, summary: Counts, n: nat) {
    OuterOk(o, n) && IsCounts(summary, n) && forall e :: 0 <= e < n ==> summary[e] == OuterSum(o, e) % WORD64
  }

  lemma EmptyBalanced(n: nat)
    ensures Balanced(map[], Zero(n), n)
  {
    forall e | 0 <= e < n ensures OuterSum(map[], e) == 0 { NoLines(e); }
  }

  /** Merging keeps the summary equal to the column sums. */
  lemma MergeBalanced(d: Outer, s: Outer, dSum: Counts, sSum: Counts, n: nat)
    requires Balanced(d, dSum, n) && Balanced(s, sSum, n)
    ensures Balanced(Merge(d, s, n), Add(dSum, sSum), n)
  {
    hide Merge, OuterOk, OuterSum;
    var m := Merge(d, s, n);
    forall e | 0 <= e < n ensures Add(dSum, sSum)[e] == OuterSum(m, e) % WORD64 {
      MergeSum(d, s, n, e);
      SumOfWords(OuterSum(d, e), OuterSum(s, e), OuterSum(m, e));
    }
  }

  lemma SumOfWords(x: nat, y: nat, z: nat)
    requires Congruent(z, x + y)
    ensures AddWords(x % WORD64, y % WORD64) == z % WORD64
  {
  }

  ghost function OneLine(k: FileFn, l: nat, c: Counts): Outer { map[k := map[l := c]] }

  /** Adding a line is merging a profile of that line alone. */
  lemma AddLineMerges(o: Outer, k: FileFn, l: nat, c: Counts)
    requires OuterOk(o, |c|) && IsCounts(c, |c|)
    ensures OuterOk(OneLine(k, l, c), |c|)
    ensures AddLine(o, k, l, c) == Merge(o, OneLine(k, l, c), |c|)
  {
    hide Add, IsCounts, MergeInner;
    var n, s := |c|, OneLine(k, l, c);
    var x, y := AddLine(o, k, l, c), Merge(o, s, n);
    assert x.Keys == y.Keys;
    AddToInnerMerges(InnerAt(o, k), l, c);
    forall j | j in x.Keys ensures x[j] == y[j] {
      if j != k { MergeInnerNothing(o[j], n); }
    }
  }

  lemma AddToInnerMerges(m: Inner, l: nat, c: Counts)
    requires InnerOk(m, |c|) && IsCounts(c, |c|)
    ensures l in m ==> |m[l]| == |c|
    ensures AddToInner(m, l, c) == MergeInner(m, map[l := c], |c|)
  {
    hide Add;
    var x, y := AddToInner(m, l, c), MergeInner(m, map[l := c], |c|);
    assert x.Keys == y.Keys;
  }

  lemma OneLineSum(k: FileFn, l: nat, c: Counts, e: nat)
    requires e < |c|
    ensures OuterSum(OneLine(k, l, c), e) == c[e]
  {
    var o := OneLine(k, l, c);
    OuterPick(o, k, e);
    InnerPick(o[k], l, e);
    assert o - {k} == map[] && o[k] - {l} == map[];
    NoLines(e);
  }

  /** handle_counts keeps the running summary equal to the column sums. */
  lemma AddLineBalanced(o: Outer, summary: Counts, k: FileFn, l: nat, c: Counts)
    requires Balanced(o, summary, |c|) && IsCounts(c, |c|)
    ensures Balanced(AddLine(o, k, l, c), Add(summary, c), |c|)
  {
    AddLineMerges(o, k, l, c);
    forall e | 0 <= e < |c| ensures c[e] == OuterSum(OneLine(k, l, c), e) % WORD64 { OneLineSum(k, l, c, e); }
    hide AddLine, OuterSum, OneLine, Merge, OuterOk;
    MergeBalanced(o, OneLine(k, l, c), summary, c, |c|);
  }
}
