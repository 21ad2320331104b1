/** The quicksort of callgrind/dump.c in place: swaps within a stretch of the array. */
module QSortArray {
  import opened QSort

  method SwapIn<T>(a: array<T>, lo: nat, n: nat, i: nat, j: nat)
    requires lo + n <= a.Length && i < n && j < n
    modifies a
    ensures a[lo..lo + n] == Swap(old(a[lo..lo + n]), i, j)
    ensures a[..lo] == old(a[..lo]) && a[lo + n..] == old(a[lo + n..])
  {
    a[lo + i], a[lo + j] := a[lo + j], a[lo + i];
  }

  /** Insertion sort, for fewer than seven elements. */
  method Insertion<T>(a: array<T>, lo: nat, n: nat, cmp: (T, T) -> int)
    requires lo + n <= a.Length
    modifies a
    ensures a[lo..lo + n] == InsertFrom(old(a[lo..lo + n]), 1, cmp)
    ensures a[..lo] == old(a[..lo]) && a[lo + n..] == old(a[lo + n..])
  {
    hide Swap;
    var pm := 1;
    while pm < n
      invariant 1 <= pm
      invariant InsertFrom(a[lo..lo + n], pm, cmp) == InsertFrom(old(a[lo..lo + n]), 1, cmp)
      invariant a[..lo] == old(a[..lo]) && a[lo + n..] == old(a[lo + n..])
    {
      ghost var s := a[lo..lo + n];
      var pl := pm;
      while pl > 0 && cmp(a[lo + pl - 1], a[lo + pl]) > 0
        invariant 0 <= pl <= pm
        invariant SiftDown(a[lo..lo + n], pl, cmp) == SiftDown(s, pm, cmp)
        invariant a[..lo] == old(a[..lo]) && a[lo + n..] == old(a[lo + n..])
      {
        SwapIn(a, lo, n, pl, pl - 1);
        pl := pl - 1;
      }
      pm := pm + 1;
    }
  }

  method Median<T>(a: array<T>, lo: nat, n: nat, i: nat, j: nat, k: nat, cmp: (T, T) -> int) returns (m: nat)
    requires lo + n <= a.Length && i < n && j < n && k < n
    ensures m == Med3(a[lo..lo + n], i, j, k, cmp)
  {
    if cmp(a[lo + i], a[lo + j]) < 0 {
      m := if cmp(a[lo + j], a[lo + k]) < 0 then j else if cmp(a[lo + i], a[lo + k]) < 0 then k else i;
    } else {
      m := if cmp(a[lo + j], a[lo + k]) > 0 then j else if cmp(a[lo + i], a[lo + k]) > 0 then k else i;
    }
  }

  method ChoosePivot<T>(a: array<T>, lo: nat, n: nat, cmp: (T, T) -> int) returns (pm: nat)
    requires lo + n <= a.Length && n >= 7
    ensures pm == Pivot(a[lo..lo + n], cmp)
  {
    hide Med3;
    pm := n / 2;
    if n > 7 {
      var pl, pn := 0, n - 1;
      if n > 40 {
        var s := n / 8;
        pl := Median(a, lo, n, pl, pl + s, pl + 2 * s, cmp);
        pm := Median(a, lo, n, pm - s, pm, pm + s, cmp);
        pn := Median(a, lo, n, pn - 2 * s, pn - s, pn, cmp);
      }
      pm := Median(a, lo, n, pl, pm, pn, cmp);
    }
  }

  method UpOne<T>(a: array<T>, lo: nat, n: nat, p: Parts<T>, v: T, cmp: (T, T) -> int) returns (pa: int, pb: int)
    requires lo + n <= a.Length && p.s == a[lo..lo + n] && InBounds(p) && p.pb <= p.pc
    modifies a
    ensures Parts(a[lo..lo + n], pa, pb, p.pc, p.pd) == UpStep(p, v, cmp)
    ensures a[..lo] == old(a[..lo]) && a[lo + n..] == old(a[lo + n..])
  {
    hide Swap;
    assert a[lo + p.pb] == p.s[p.pb];
    pa, pb := p.pa, p.pb + 1;
    if cmp(a[lo + p.pb], v) == 0 {
      SwapIn(a, lo, n, p.pa, p.pb);
      pa := pa + 1;
    }
  }

  method DownOne<T>(a: array<T>, lo: nat, n: nat, p: Parts<T>, v: T, cmp: (T, T) -> int) returns (pc: int, pd: int)
    requires lo + n <= a.Length && p.s == a[lo..lo + n] && InBounds(p) && p.pb <= p.pc
    modifies a
    ensures Parts(a[lo..lo + n], p.pa, p.pb, pc, pd) == DownStep(p, v, cmp)
    ensures a[..lo] == old(a[..lo]) && a[lo + n..] == old(a[lo + n..])
  {
    hide Swap;
    assert a[lo + p.pc] == p.s[p.pc];
    pc, pd := p.pc - 1, p.pd;
    if cmp(a[lo + p.pc], v) == 0 {
      SwapIn(a, lo, n, p.pc, p.pd);
      pd := pd - 1;
    }
  }

  /** The scan from below. */
  method Up<T>(a: array<T>, lo: nat, n: nat, p: Parts<T>, v: T, cmp: (T, T) -> int) returns (pa: int, pb: int)
    requires lo + n <= a.Length && p.s == a[lo..lo + n] && InBounds(p)
    modifies a
    ensures Parts(a[lo..lo + n], pa, pb, p.pc, p.pd) == ScanUp(p, v, cmp)
    ensures a[..lo] == old(a[..lo]) && a[lo + n..] == old(a[lo + n..])
  {
    hide UpStep;
    pa, pb := p.pa, p.pb;
    ghost var q := p;
    while pb <= p.pc && cmp(a[lo + pb], v) <= 0
      invariant q == Parts(a[lo..lo + n], pa, pb, p.pc, p.pd) && InBounds(q)
      invariant ScanUp(q, v, cmp) == ScanUp(p, v, cmp)
      invariant a[..lo] == old(a[..lo]) && a[lo + n..] == old(a[lo + n..])
      decreases p.pc - pb
    {
      assert a[lo + pb] == q.s[pb];
      pa, pb := UpOne(a, lo, n, Parts(a[lo..lo + n], pa, pb, p.pc, p.pd), v, cmp);
      q := UpStep(q, v, cmp);
    }
    assert pb <= p.pc ==> a[lo + pb] == q.s[pb];
  }

  /** The scan from above. */
  method Down<T>(a: array<T>, lo: nat, n: nat, p: Parts<T>, v: T, cmp: (T, T) -> int) returns (pc: int, pd: int)
    requires lo + n <= a.Length && p.s == a[lo..lo + n] && InBounds(p)
    modifies a
    ensures Parts(a[lo..lo + n], p.pa, p.pb, pc, pd) == ScanDown(p, v, cmp)
    ensures a[..lo] == old(a[..lo]) && a[lo + n..] == old(a[lo + n..])
  {
    hide DownStep;
    pc, pd := p.pc, p.pd;
    ghost var q := p;
    while p.pb <= pc && cmp(a[lo + pc], v) >= 0
      invariant q == Parts(a[lo..lo + n], p.pa, p.pb, pc, pd) && InBounds(q)
      invariant ScanDown(q, v, cmp) == ScanDown(p, v, cmp)
      invariant a[..lo] == old(a[..lo]) && a[lo + n..] == old(a[lo + n..])
      decreases pc - p.pb
    {
      assert a[lo + pc] == q.s[pc];
      pc, pd := DownOne(a, lo, n, Parts(a[lo..lo + n], p.pa, p.pb, pc, pd), v, cmp);
      q := DownStep(q, v, cmp);
    }
    assert p.pb <= pc ==> a[lo + pc] == q.s[pc];
  }

  /** The partition loop. */
  method PartitionIn<T>(a: array<T>, lo: nat, n: nat, v: T, cmp: (T, T) -> int) returns (pa: int, pb: int, pc: int, pd: int)
    requires lo + n <= a.Length && n > 0
    modifies a
    ensures Parts(a[lo..lo + n], pa, pb, pc, pd) == Partition(Start(old(a[lo..lo + n])), v, cmp)
    ensures a[..lo] == old(a[..lo]) && a[lo + n..] == old(a[lo + n..])
  {
    hide ScanUp, ScanDown, Exchange;
    pa, pb, pc, pd := 0, 0, n - 1, n - 1;
    ghost var q := Start(a[lo..lo + n]);
    while true
      invariant q == Parts(a[lo..lo + n], pa, pb, pc, pd) && InBounds(q)
      invariant Partition(q, v, cmp) == Partition(Start(old(a[lo..lo + n])), v, cmp)
      invariant a[..lo] == old(a[..lo]) && a[lo + n..] == old(a[lo + n..])
      decreases pc + 1 - pb
    {
      pa, pb := Up(a, lo, n, Parts(a[lo..lo + n], pa, pb, pc, pd), v, cmp);
      pc, pd := Down(a, lo, n, Parts(a[lo..lo + n], pa, pb, pc, pd), v, cmp);
      ghost var r := ScanDown(ScanUp(q, v, cmp), v, cmp);
      PartitionStep(q, v, cmp);
      q := r;
      if pb > pc { break; }
      ExchangeIn(a, lo, n, pb, pc, r);
      pb := pb + 1;
      pc := pc - 1;
      q := Exchange(r);
    }
  }

  /** One round of the partition loop. */
  lemma PartitionStep<T>(p: Parts<T>, v: T, cmp: (T, T) -> int)
    requires InBounds(p)
    ensures var q := ScanDown(ScanUp(p, v, cmp), v, cmp);
            Partition(p, v, cmp) == (if q.pb > q.pc then q else Partition(Exchange(q), v, cmp))
    ensures var q := ScanDown(ScanUp(p, v, cmp), v, cmp);
            (q.pb > q.pc || q.pb < q.pc) && (q.pb > q.pc ==> Partition(q, v, cmp) == q)
  {
    hide Exchange;
    var up := ScanUp(p, v, cmp);
    var q := ScanDown(up, v, cmp);
    if q.pb <= q.pc { assert q.s[q.pb] == up.s[q.pb]; }
  }

  method ExchangeIn<T>(a: array<T>, lo: nat, n: nat, pb: int, pc: int, ghost p: Parts<T>)
    requires lo + n <= a.Length && p.s == a[lo..lo + n] && InBounds(p) && pb == p.pb < p.pc == pc
    modifies a
    ensures Parts(a[lo..lo + n], p.pa, pb + 1, pc - 1, p.pd) == Exchange(p)
    ensures a[..lo] == old(a[..lo]) && a[lo + n..] == old(a[lo + n..])
  {
    hide Swap;
    SwapIn(a, lo, n, pb, pc);
  }

  /** One block move. */
  method MoveBlock<T>(a: array<T>, lo: nat, n: nat, i: nat, j: nat, count: nat)
    requires lo + n <= a.Length && i + count <= n && j + count <= n
    modifies a
    ensures a[lo..lo + n] == SwapRun(old(a[lo..lo + n]), i, j, 0, count)
    ensures a[..lo] == old(a[..lo]) && a[lo + n..] == old(a[lo + n..])
  {
    hide Swap;
    var r := 0;
    while r < count
      invariant 0 <= r <= count
      invariant SwapRun(a[lo..lo + n], i, j, r, count) == SwapRun(old(a[lo..lo + n]), i, j, 0, count)
      invariant a[..lo] == old(a[..lo]) && a[lo + n..] == old(a[lo + n..])
    {
      SwapIn(a, lo, n, i + r, j + r);
      r := r + 1;
    }
  }

  /** Partition and block moves: afterwards the parts to sort are below `l` and from `g` on. */
  method Gather<T>(a: array<T>, lo: nat, n: nat, cmp: (T, T) -> int) returns (l: nat, g: nat)
    requires lo + n <= a.Length && n >= 7
    modifies a
    ensures var p := Parted(old(a[lo..lo + n]), cmp);
            a[lo..lo + n] == Gathered(p) && l == Smaller(p) && g == n - Larger(p)
    ensures a[..lo] == old(a[..lo]) && a[lo + n..] == old(a[lo + n..])
  {
    hide Partition, SwapRun, Pivot;
    var pm := ChoosePivot(a, lo, n, cmp);
    var v := a[lo + pm];
    ghost var s := a[lo..lo + n];
    assert v == s[Pivot(s, cmp)];
    var pa, pb, pc, pd := PartitionIn(a, lo, n, v, cmp);
    assert Parted(s, cmp) == Parts(a[lo..lo + n], pa, pb, pc, pd);
    pb := pb - 1;
    pc := pc + 1;
    MoveBlock(a, lo, n, 0, pb + 1 - pa, pa);
    MoveBlock(a, lo, n, pc, pd + 1, n - 1 - pd);
    l, g := pb + 1 - pa, n - (pd + 1 - pc);
  }

  /** Sorts one part if it has more than one element. */
  method SortPart<T(!new)>(a: array<T>, lo: nat, n: nat, i: nat, j: nat, cmp: (T, T) -> int)
    requires Reflexive(cmp) && lo + n <= a.Length && i <= j <= n
    modifies a
    ensures var t := old(a[lo..lo + n]); a[lo..lo + n] == t[..i] + Part(t[i..j], cmp) + t[j..]
    ensures a[..lo] == old(a[..lo]) && a[lo + n..] == old(a[lo + n..])
    decreases j - i, 1
  {
    hide Reflexive, Quick;
    ghost var b := a[..];
    SubSlice(b, lo, lo + n, i, j);
    if j - i > 1 {
      Qsort(a, lo + i, j - i, cmp);
      SortedInside(a, b, lo, n, i, j);
    } else {
      ghost var t := b[lo..lo + n];
      assert t == t[..i] + t[i..j] + t[j..];
    }
  }

  /** An array that differs from `b` in one stretch only, seen in a longer stretch. */
  lemma SortedInside<T>(a: array<T>, b: seq<T>, lo: nat, n: nat, i: nat, j: nat)
    requires lo + n <= a.Length == |b| && i <= j <= n
    requires a[..lo + i] == b[..lo + i] && a[lo + i + (j - i)..] == b[lo + i + (j - i)..]
    ensures var t := b[lo..lo + n]; a[lo..lo + n] == t[..i] + a[lo + i..lo + i + (j - i)] + t[j..]
    ensures a[..lo] == b[..lo] && a[lo + n..] == b[lo + n..]
  {
    assert lo + i + (j - i) == lo + j;
    var c := a[..];
    assert c[..lo + i] == b[..lo + i] && c[lo + j..] == b[lo + j..];
    Replaced(b, c, lo, lo + i, lo + j, lo + n);
  }

  lemma SubSlice<T>(b: seq<T>, lo: nat, hi: nat, i: nat, j: nat)
    requires i <= j && lo + j <= hi <= |b|
    ensures b[lo..hi][i..j] == b[lo + i..lo + j]
  {
    var x, y := b[lo..hi][i..j], b[lo + i..lo + j];
    assert |x| == |y|;
    forall k | 0 <= k < |x| ensures x[k] == y[k] { assert x[k] == b[lo..hi][i + k] == b[lo + i + k]; }
  }

  /** A change confined to a stretch of an array, seen in a longer one. */
  lemma Replaced<T>(b: seq<T>, c: seq<T>, lo: nat, i: nat, j: nat, hi: nat)
    requires lo <= i <= j <= hi <= |b| == |c|
    requires c[..i] == b[..i] && c[j..] == b[j..]
    ensures c[lo..hi] == b[lo..hi][..i - lo] + c[i..j] + b[lo..hi][j - lo..]
    ensures c[..lo] == b[..lo] && c[hi..] == b[hi..]
  {
    assert forall k :: 0 <= k < i ==> c[k] == c[..i][k] == b[..i][k] == b[k];
    assert forall k :: j <= k < |b| ==> c[k] == c[j..][k - j] == b[j..][k - j] == b[k];
    var x, y := c[lo..hi], b[lo..hi][..i - lo] + c[i..j] + b[lo..hi][j - lo..];
    forall k | 0 <= k < hi - lo ensures x[k] == y[k] {
      if k >= j - lo { assert y[k] == b[lo..hi][j - lo..][k - (j - lo)] == b[lo + k]; }
    }
  }

  lemma QuickSmall<T(!new)>(s: seq<T>, cmp: (T, T) -> int)
    requires Reflexive(cmp) && |s| < 7
    ensures Quick(s, cmp) == InsertFrom(s, 1, cmp)
  {
    hide InsertFrom;
  }

  /** CLG_(qsort) on the `n` elements from `lo`. */
  method Qsort<T(!new)>(a: array<T>, lo: nat, n: nat, cmp: (T, T) -> int)
    requires Reflexive(cmp) && lo + n <= a.Length
    modifies a
    ensures a[lo..lo + n] == Quick(old(a[lo..lo + n]), cmp)
    ensures a[..lo] == old(a[..lo]) && a[lo + n..] == old(a[lo + n..])
    decreases n, 0
  {
    hide Reflexive, Quick, Parted, Gathered, InsertFrom, Part;
    ghost var s := a[lo..lo + n];
    if n < 7 {
      Insertion(a, lo, n, cmp);
      QuickSmall(s, cmp);
      return;
    }
    QuickUnfold(s, cmp);
    var l, g := Gather(a, lo, n, cmp);
    ghost var t := a[lo..lo + n];
    SortPart(a, lo, n, 0, l, cmp);
    ghost var u := a[lo..lo + n];
    assert u[g..n] == t[g..];
    SortPart(a, lo, n, g, n, cmp);
    TwoParts(t, u, a[lo..lo + n], l, g, Part(t[..l], cmp), Part(t[g..], cmp));
  }

  lemma TwoParts<T>(t: seq<T>, u: seq<T>, w: seq<T>, l: nat, g: nat, a: seq<T>, b: seq<T>)
    requires l <= g <= |t| && |a| == l && |b| == |t| - g
    requires u == t[..0] + a + t[l..]
    requires w == u[..g] + b + u[|t|..]
    ensures w == a + t[l..g] + b
  {
    assert u[..g] == a + t[l..g];
  }
}
