/** The quicksort of callgrind/dump.c as functions on sequences: three-way partition with the
elements equal to the pivot collected at both ends and moved to the middle afterwards. */
module QSort {
  /** Equal things compare equal; enough for the sort to terminate and to permute. */
  ghost predicate Reflexive<T(!new)>(cmp: (T, T) -> int) {
    forall x: T :: cmp(x, x) == 0
  }

  /** A consistent comparator: a total preorder. */
  ghost predicate Consistent<T(!new)>(cmp: (T, T) -> int) {
    && Reflexive(cmp)
    && (forall x: T, y: T :: cmp(x, y) < 0 <==> cmp(y, x) > 0)
    && (forall x: T, y: T, z: T :: cmp(x, y) <= 0 && cmp(y, z) <= 0 ==> cmp(x, z) <= 0)
  }

  ghost predicate Sorted<T>(s: seq<T>, cmp: (T, T) -> int) {
    forall i, j :: 0 <= i < j < |s| ==> cmp(s[i], s[j]) <= 0
  }

  function Swap<T>(s: seq<T>, i: nat, j: nat): (r: seq<T>)
    requires i < |s| && j < |s|
    ensures |r| == |s| && r[i] == s[j] && r[j] == s[i]
    ensures forall k :: 0 <= k < |s| && k != i && k != j ==> r[k] == s[k]
  {
    s[i := s[j]][j := s[i]]
  }

  lemma SwapPermutes<T>(s: seq<T>, i: nat, j: nat)
    requires i < |s| && j < |s|
    ensures multiset(Swap(s, i, j)) == multiset(s)
  {
  }

  // ---------------------------------------------------------------- small arrays

  /** The element at `i` moved down to its place in a sorted prefix. */
  function SiftDown<T>(s: seq<T>, i: nat, cmp: (T, T) -> int): (r: seq<T>)
    requires i < |s|
    ensures |r| == |s|
    decreases i
  {
    if i > 0 && cmp(s[i - 1], s[i]) > 0 then SiftDown(Swap(s, i, i - 1), i - 1, cmp) else s
  }

  function InsertFrom<T>(s: seq<T>, i: nat, cmp: (T, T) -> int): (r: seq<T>)
    requires i >= 1
    ensures |r| == |s|
    decreases |s| - i
  {
    if i < |s| then InsertFrom(SiftDown(s, i, cmp), i + 1, cmp) else s
  }

  lemma {:induction false} SiftDownPermutes<T>(s: seq<T>, i: nat, cmp: (T, T) -> int)
    requires i < |s|
    ensures multiset(SiftDown(s, i, cmp)) == multiset(s)
    ensures forall k :: i < k < |s| ==> SiftDown(s, i, cmp)[k] == s[k]
    decreases i
  {
    if i > 0 && cmp(s[i - 1], s[i]) > 0 {
      SwapPermutes(s, i, i - 1);
      SiftDownPermutes(Swap(s, i, i - 1), i - 1, cmp);
    }
  }

  /** Sorted up to `n`, leaving out position `i`, whose element is below what follows it. */
  ghost predicate SortedBut<T>(s: seq<T>, i: nat, n: nat, cmp: (T, T) -> int)
    requires i < n <= |s|
  {
    && (forall j, k :: 0 <= j < k < n && j != i && k != i ==> cmp(s[j], s[k]) <= 0)
    && (forall k :: i < k < n ==> cmp(s[i], s[k]) <= 0)
  }

  lemma {:induction false} SiftDownSorts<T(!new)>(s: seq<T>, i: nat, n: nat, cmp: (T, T) -> int)
    requires Consistent(cmp) && i < n <= |s| && SortedBut(s, i, n, cmp)
    ensures Sorted(SiftDown(s, i, cmp)[..n], cmp)
    decreases i
  {
    hide Consistent;
    if i > 0 && cmp(s[i - 1], s[i]) > 0 {
      var t := Swap(s, i, i - 1);
      Turned(s[i], s[i - 1], cmp);
      SiftedOnce(s, i, n, cmp);
      hide SortedBut, Sorted;
      SiftDownSorts(t, i - 1, n, cmp);
    } else {
      forall j | 0 <= j < i ensures cmp(s[j], s[i]) <= 0 {
        if j < i - 1 { Through(s[j], s[i - 1], s[i], cmp); }
      }
    }
  }

  lemma SiftedOnce<T>(s: seq<T>, i: nat, n: nat, cmp: (T, T) -> int)
    requires 0 < i < n <= |s| && SortedBut(s, i, n, cmp) && cmp(s[i], s[i - 1]) <= 0
    ensures SortedBut(Swap(s, i, i - 1), i - 1, n, cmp)
  {
  }

  lemma Turned<T(!new)>(x: T, y: T, cmp: (T, T) -> int)
    requires Consistent(cmp) && cmp(y, x) > 0
    ensures cmp(x, y) <= 0
  {
  }

  lemma Through<T(!new)>(x: T, y: T, z: T, cmp: (T, T) -> int)
    requires Consistent(cmp) && cmp(x, y) <= 0 && cmp(y, z) <= 0
    ensures cmp(x, z) <= 0
  {
  }

  lemma {:induction false} InsertFromPermutes<T>(s: seq<T>, i: nat, cmp: (T, T) -> int)
    requires 1 <= i
    ensures multiset(InsertFrom(s, i, cmp)) == multiset(s)
    decreases |s| - i
  {
    if i < |s| {
      SiftDownPermutes(s, i, cmp);
      InsertFromPermutes(SiftDown(s, i, cmp), i + 1, cmp);
    }
  }

  lemma {:induction false} InsertFromSorts<T(!new)>(s: seq<T>, i: nat, cmp: (T, T) -> int)
    requires 1 <= i <= |s| && Consistent(cmp) && Sorted(s[..i], cmp)
    ensures Sorted(InsertFrom(s, i, cmp), cmp)
    decreases |s| - i
  {
    hide Consistent, Sorted, SiftDown;
    if i < |s| {
      PrefixSorted(s, i, cmp);
      SiftDownSorts(s, i, i + 1, cmp);
      InsertFromSorts(SiftDown(s, i, cmp), i + 1, cmp);
    } else {
      assert s[..i] == s;
    }
  }

  lemma PrefixSorted<T>(s: seq<T>, i: nat, cmp: (T, T) -> int)
    requires i < |s| && Sorted(s[..i], cmp)
    ensures SortedBut(s, i, i + 1, cmp)
  {
    forall j, k | 0 <= j < k < i ensures cmp(s[j], s[k]) <= 0 {
      assert s[..i][j] == s[j] && s[..i][k] == s[k];
    }
  }

  // ---------------------------------------------------------------- the pivot

  function Med3<T>(s: seq<T>, a: nat, b: nat, c: nat, cmp: (T, T) -> int): (m: nat)
    requires a < |s| && b < |s| && c < |s|
    ensures m < |s|
  {
    if cmp(s[a], s[b]) < 0 then
      if cmp(s[b], s[c]) < 0 then b else if cmp(s[a], s[c]) < 0 then c else a
    else
      if cmp(s[b], s[c]) > 0 then b else if cmp(s[a], s[c]) > 0 then c else a
  }

  /** Middle element, median of three, or pseudomedian of nine, by size. */
  function Pivot<T>(s: seq<T>, cmp: (T, T) -> int): (m: nat)
    requires |s| >= 7
    ensures m < |s|
  {
    var n := |s|;
    var d := n / 8;
    if n == 7 then n / 2
    else if n <= 40 then Med3(s, 0, n / 2, n - 1, cmp)
    else
      Med3(s, Med3(s, 0, d, 2 * d, cmp), Med3(s, n / 2 - d, n / 2, n / 2 + d, cmp),
           Med3(s, n - 1 - 2 * d, n - 1 - d, n - 1, cmp), cmp)
  }

  // ---------------------------------------------------------------- the partition

  /** The array and the four positions of the partition: equal below `pa`, smaller up to `pb`,
      larger above `pc` up to `pd`, equal from there on. */
  datatype Parts<T> = Parts(s: seq<T>, pa: int, pb: int, pc: int, pd: int)

  ghost predicate InBounds<T>(p: Parts<T>) {
    0 <= p.pa <= p.pb <= p.pc + 1 && p.pc <= p.pd < |p.s|
  }

  /** One element not above the pivot passed by the upward scan; equal ones go to the start. */
  function UpStep<T>(p: Parts<T>, v: T, cmp: (T, T) -> int): (r: Parts<T>)
    requires InBounds(p) && p.pb <= p.pc
    ensures InBounds(r) && |r.s| == |p.s| && r.pb == p.pb + 1 && r.pc == p.pc && r.pd == p.pd
  {
    if cmp(p.s[p.pb], v) == 0 then p.(s := Swap(p.s, p.pa, p.pb), pa := p.pa + 1, pb := p.pb + 1)
    else p.(pb := p.pb + 1)
  }

  function ScanUp<T>(p: Parts<T>, v: T, cmp: (T, T) -> int): (r: Parts<T>)
    requires InBounds(p)
    ensures InBounds(r) && |r.s| == |p.s| && r.pc == p.pc && r.pd == p.pd && r.pb >= p.pb
    ensures r.pb <= r.pc ==> cmp(r.s[r.pb], v) > 0
    decreases p.pc + 1 - p.pb
  {
    if p.pb <= p.pc && cmp(p.s[p.pb], v) <= 0 then ScanUp(UpStep(p, v, cmp), v, cmp) else p
  }

  /** One element not below the pivot passed by the downward scan; equal ones go to the end. */
  function DownStep<T>(p: Parts<T>, v: T, cmp: (T, T) -> int): (r: Parts<T>)
    requires InBounds(p) && p.pb <= p.pc
    ensures InBounds(r) && |r.s| == |p.s| && r.pc == p.pc - 1 && r.pa == p.pa && r.pb == p.pb
    ensures forall k :: 0 <= k < p.pc ==> r.s[k] == p.s[k]
  {
    if cmp(p.s[p.pc], v) == 0 then p.(s := Swap(p.s, p.pc, p.pd), pd := p.pd - 1, pc := p.pc - 1)
    else p.(pc := p.pc - 1)
  }

  function ScanDown<T>(p: Parts<T>, v: T, cmp: (T, T) -> int): (r: Parts<T>)
    requires InBounds(p)
    ensures InBounds(r) && |r.s| == |p.s| && r.pa == p.pa && r.pb == p.pb && r.pc <= p.pc
    ensures r.pb <= r.pc ==> cmp(r.s[r.pc], v) < 0
    ensures forall k :: 0 <= k <= r.pc ==> r.s[k] == p.s[k]
    decreases p.pc + 1 - p.pb
  {
    if p.pb <= p.pc && cmp(p.s[p.pc], v) >= 0 then ScanDown(DownStep(p, v, cmp), v, cmp) else p
  }

  /** A larger and a smaller element exchanged where the scans stopped. */
  function Exchange<T>(p: Parts<T>): (r: Parts<T>)
    requires InBounds(p) && p.pb < p.pc
    ensures InBounds(r) && |r.s| == |p.s| && r.pc - r.pb == p.pc - p.pb - 2
  {
    p.(s := Swap(p.s, p.pb, p.pc), pb := p.pb + 1, pc := p.pc - 1)
  }

  /** All elements from `lo` up to `hi` are below, equal to or above the pivot. */
  ghost predicate AllBelow<T>(s: seq<T>, lo: int, hi: int, v: T, cmp: (T, T) -> int)
    requires 0 <= lo && hi <= |s|
  {
    forall k :: lo <= k < hi ==> cmp(s[k], v) < 0
  }

  ghost predicate AllEqual<T>(s: seq<T>, lo: int, hi: int, v: T, cmp: (T, T) -> int)
    requires 0 <= lo && hi <= |s|
  {
    forall k :: lo <= k < hi ==> cmp(s[k], v) == 0
  }

  ghost predicate AllAbove<T>(s: seq<T>, lo: int, hi: int, v: T, cmp: (T, T) -> int)
    requires 0 <= lo && hi <= |s|
  {
    forall k :: lo <= k < hi ==> cmp(s[k], v) > 0
  }

  /** What the scans have found out so far. */
  ghost predicate Classified<T>(p: Parts<T>, v: T, cmp: (T, T) -> int) {
    && InBounds(p)
    && AllEqual(p.s, 0, p.pa, v, cmp) && AllBelow(p.s, p.pa, p.pb, v, cmp)
    && AllAbove(p.s, p.pc + 1, p.pd + 1, v, cmp) && AllEqual(p.s, p.pd + 1, |p.s|, v, cmp)
  }

  lemma UpStepKeeps<T>(p: Parts<T>, v: T, cmp: (T, T) -> int)
    requires Classified(p, v, cmp) && p.pb <= p.pc && cmp(p.s[p.pb], v) <= 0
    ensures Classified(UpStep(p, v, cmp), v, cmp) && multiset(UpStep(p, v, cmp).s) == multiset(p.s)
  {
    SwapPermutes(p.s, p.pa, p.pb);
  }

  lemma DownStepKeeps<T>(p: Parts<T>, v: T, cmp: (T, T) -> int)
    requires Classified(p, v, cmp) && p.pb <= p.pc && cmp(p.s[p.pc], v) >= 0
    ensures Classified(DownStep(p, v, cmp), v, cmp) && multiset(DownStep(p, v, cmp).s) == multiset(p.s)
  {
    SwapPermutes(p.s, p.pc, p.pd);
  }

  lemma ExchangeKeeps<T>(p: Parts<T>, v: T, cmp: (T, T) -> int)
    requires Classified(p, v, cmp) && p.pb < p.pc && cmp(p.s[p.pb], v) > 0 && cmp(p.s[p.pc], v) < 0
    ensures Classified(Exchange(p), v, cmp) && multiset(Exchange(p).s) == multiset(p.s)
  {
    SwapPermutes(p.s, p.pb, p.pc);
  }

  lemma {:induction false} ScanUpKeeps<T>(p: Parts<T>, v: T, cmp: (T, T) -> int)
    requires Classified(p, v, cmp)
    ensures Classified(ScanUp(p, v, cmp), v, cmp) && multiset(ScanUp(p, v, cmp).s) == multiset(p.s)
    decreases p.pc + 1 - p.pb
  {
    if p.pb <= p.pc && cmp(p.s[p.pb], v) <= 0 {
      UpStepKeeps(p, v, cmp);
      hide UpStep, Classified;
      ScanUpKeeps(UpStep(p, v, cmp), v, cmp);
    }
  }

  lemma {:induction false} ScanDownKeeps<T>(p: Parts<T>, v: T, cmp: (T, T) -> int)
    requires Classified(p, v, cmp)
    ensures Classified(ScanDown(p, v, cmp), v, cmp) && multiset(ScanDown(p, v, cmp).s) == multiset(p.s)
    decreases p.pc + 1 - p.pb
  {
    if p.pb <= p.pc && cmp(p.s[p.pc], v) >= 0 {
      DownStepKeeps(p, v, cmp);
      hide DownStep, Classified;
      ScanDownKeeps(DownStep(p, v, cmp), v, cmp);
    }
  }

  /** The partition loop; at the end the two scans have met. */
  function Partition<T>(p: Parts<T>, v: T, cmp: (T, T) -> int): (r: Parts<T>)
    requires InBounds(p)
    ensures InBounds(r) && |r.s| == |p.s| && r.pb == r.pc + 1
    decreases p.pc + 1 - p.pb
  {
    var q := ScanDown(ScanUp(p, v, cmp), v, cmp);
    if q.pb > q.pc then q else Partition(Exchange(q), v, cmp)
  }

  lemma {:induction false} PartitionKeeps<T>(p: Parts<T>, v: T, cmp: (T, T) -> int)
    requires Classified(p, v, cmp)
    ensures Classified(Partition(p, v, cmp), v, cmp) && multiset(Partition(p, v, cmp).s) == multiset(p.s)
    decreases p.pc + 1 - p.pb
  {
    hide ScanUp, ScanDown, Exchange, Classified;
    assert InBounds(p) by { ClassifiedBounds(p, v, cmp); }
    var up := ScanUp(p, v, cmp);
    var q := ScanDown(up, v, cmp);
    ScanUpKeeps(p, v, cmp);
    ScanDownKeeps(up, v, cmp);
    if q.pb <= q.pc {
      ExchangeKeeps(q, v, cmp);
      PartitionKeeps(Exchange(q), v, cmp);
    }
  }

  lemma ClassifiedBounds<T>(p: Parts<T>, v: T, cmp: (T, T) -> int)
    requires Classified(p, v, cmp)
    ensures InBounds(p)
  {
  }

  function Start<T>(s: seq<T>): Parts<T> { Parts(s, 0, 0, |s| - 1, |s| - 1) }

  // ---------------------------------------------------------------- equal elements to the middle

  /** swap(i + r, j + r) for the remaining r below `n`. */
  function SwapRun<T>(s: seq<T>, i: nat, j: nat, r: nat, n: nat): (t: seq<T>)
    requires r <= n && i + n <= |s| && j + n <= |s|
    ensures |t| == |s|
    decreases n - r
  {
    if r == n then s else SwapRun(Swap(s, i + r, j + r), i, j, r + 1, n)
  }

  lemma {:induction false} SwapRunPermutes<T>(s: seq<T>, i: nat, j: nat, r: nat, n: nat)
    requires r <= n && i + n <= |s| && j + n <= |s|
    ensures multiset(SwapRun(s, i, j, r, n)) == multiset(s)
    decreases n - r
  {
    hide Swap;
    if r < n {
      var t := Swap(s, i + r, j + r);
      SwapPermutes(s, i + r, j + r);
      assert SwapRun(s, i, j, r, n) == SwapRun(t, i, j, r + 1, n);
      SwapRunPermutes(t, i, j, r + 1, n);
    }
  }

  lemma {:induction false} SwapRunOutside<T>(s: seq<T>, i: nat, j: nat, r: nat, n: nat, k: nat)
    requires r <= n && i + n <= |s| && j + n <= |s| && k < |s|
    requires (k < i || k >= i + n) && (k < j || k >= j + n)
    ensures SwapRun(s, i, j, r, n)[k] == s[k]
    decreases n - r
  {
    if r < n { SwapRunOutside(Swap(s, i + r, j + r), i, j, r + 1, n, k); }
  }

  /** The end move: `g` larger elements followed by `n` equal ones change places, whatever the two
      numbers are. */
  lemma {:induction false} EndMove<T>(s: seq<T>, i: nat, g: nat, r: nat, n: nat, v: T, cmp: (T, T) -> int)
    requires r <= n && i + g + n <= |s|
    requires AllEqual(s, i, i + r, v, cmp) && AllAbove(s, i + r, i + r + g, v, cmp)
    requires AllEqual(s, i + r + g, i + g + n, v, cmp)
    ensures AllEqual(SwapRun(s, i, i + g, r, n), i, i + n, v, cmp)
    ensures AllAbove(SwapRun(s, i, i + g, r, n), i + n, i + n + g, v, cmp)
    decreases n - r
  {
    if r < n {
      var t := Swap(s, i + r, i + g + r);
      EndMove(t, i, g, r + 1, n, v, cmp);
      hide AllEqual, AllAbove;
      assert SwapRun(s, i, i + g, r, n) == SwapRun(t, i, i + g, r + 1, n);
    }
  }

  /** The start move with at least as many smaller elements as equal ones: `n` equal and `l`
      smaller elements change places. */
  lemma {:induction false} StartMove<T>(s: seq<T>, l: nat, r: nat, n: nat, v: T, cmp: (T, T) -> int)
    requires r <= n <= l && n + l <= |s|
    requires AllBelow(s, 0, r, v, cmp) && AllEqual(s, r, n, v, cmp) && AllBelow(s, n, l, v, cmp)
    requires AllEqual(s, l, l + r, v, cmp) && AllBelow(s, l + r, l + n, v, cmp)
    ensures AllBelow(SwapRun(s, 0, l, r, n), 0, l, v, cmp)
    ensures AllEqual(SwapRun(s, 0, l, r, n), l, l + n, v, cmp)
    decreases n - r
  {
    if r < n {
      var t := Swap(s, r, l + r);
      StartMove(t, l, r + 1, n, v, cmp);
      hide AllEqual, AllBelow;
      assert SwapRun(s, 0, l, r, n) == SwapRun(t, 0, l, r + 1, n);
    }
  }

  /** The start move with fewer smaller elements than equal ones: the smaller elements stop short
      of the start. */
  lemma {:induction false} StartMoveShort<T>(s: seq<T>, l: nat, r: nat, n: nat, v: T, cmp: (T, T) -> int)
    requires r <= n && l <= n && n + l <= |s|
    requires AllEqual(s, 0, n - l, v, cmp) && AllBelow(s, n - l, r, v, cmp)
    requires AllEqual(s, if r < n - l then n - l else r, if r < n - l then n else l + r, v, cmp)
    requires AllBelow(s, if r < n - l then n else l + r, n + l, v, cmp)
    ensures AllEqual(SwapRun(s, 0, l, r, n), 0, n - l, v, cmp)
    ensures AllBelow(SwapRun(s, 0, l, r, n), n - l, n, v, cmp)
    ensures AllEqual(SwapRun(s, 0, l, r, n), n, n + l, v, cmp)
    decreases n - r
  {
    if r < n {
      var t := Swap(s, r, l + r);
      StartMoveShort(t, l, r + 1, n, v, cmp);
      hide AllEqual, AllBelow;
      assert SwapRun(s, 0, l, r, n) == SwapRun(t, 0, l, r + 1, n);
    }
  }

  // ---------------------------------------------------------------- the sort

  function Parted<T>(s: seq<T>, cmp: (T, T) -> int): (p: Parts<T>)
    requires |s| >= 7
    ensures InBounds(p) && |p.s| == |s| && p.pb == p.pc + 1
  {
    Partition(Start(s), s[Pivot(s, cmp)], cmp)
  }

  /** Numbers of smaller and larger elements, and of equal ones found at either end. */
  function Smaller<T>(p: Parts<T>): int { p.pb - p.pa }
  function Larger<T>(p: Parts<T>): int { p.pd - p.pc }
  function EqualFirst<T>(p: Parts<T>): int { p.pa }
  function EqualLast<T>(p: Parts<T>): int { |p.s| - 1 - p.pd }

  /** Both block moves. */
  function Gathered<T>(p: Parts<T>): (t: seq<T>)
    requires InBounds(p) && p.pb == p.pc + 1
    ensures |t| == |p.s|
  {
    var t := SwapRun(p.s, 0, Smaller(p), 0, EqualFirst(p));
    SwapRun(t, p.pb, p.pb + Larger(p), 0, EqualLast(p))
  }

  lemma PartedFacts<T>(s: seq<T>, cmp: (T, T) -> int)
    requires |s| >= 7
    ensures var p := Parted(s, cmp);
            && Classified(p, s[Pivot(s, cmp)], cmp)
            && multiset(p.s) == multiset(s) == multiset(Gathered(p))
  {
    hide Partition, Pivot, SwapRun;
    var p := Parted(s, cmp);
    PartitionKeeps(Start(s), s[Pivot(s, cmp)], cmp);
    SwapRunPermutes(p.s, 0, Smaller(p), 0, EqualFirst(p));
    SwapRunPermutes(SwapRun(p.s, 0, Smaller(p), 0, EqualFirst(p)), p.pb, p.pb + Larger(p), 0, EqualLast(p));
  }

  /** Parts that do not reach the other part's elements are left alone by a block move. */
  lemma MoveLeaves<T>(s: seq<T>, i: nat, j: nat, n: nat, lo: nat, hi: nat)
    requires i + n <= |s| && j + n <= |s| && lo <= hi <= |s|
    requires (hi <= i || i + n <= lo) && (hi <= j || j + n <= lo)
    ensures SwapRun(s, i, j, 0, n)[lo..hi] == s[lo..hi]
  {
    hide SwapRun;
    forall k | lo <= k < hi ensures SwapRun(s, i, j, 0, n)[k] == s[k] { SwapRunOutside(s, i, j, 0, n, k); }
  }

  /** The pivot is in neither part, so the parts are shorter than the whole. */
  lemma PartsShrink<T(!new)>(s: seq<T>, cmp: (T, T) -> int)
    requires Reflexive(cmp) && |s| >= 7
    ensures var p := Parted(s, cmp); 0 <= Smaller(p) && 0 <= Larger(p) && Smaller(p) + Larger(p) < |s|
  {
    PartedFacts(s, cmp);
    hide Partition, Pivot, SwapRun, Parted;
    var p, v := Parted(s, cmp), s[Pivot(s, cmp)];
    assert v in multiset(p.s);
    var k :| 0 <= k < |p.s| && p.s[k] == v;
  }

  /** CLG_(qsort) */
  ghost function Quick<T(!new)>(s: seq<T>, cmp: (T, T) -> int): (r: seq<T>)
    requires Reflexive(cmp)
    ensures |r| == |s|
    decreases |s|
  {
    hide Parted, Gathered, InsertFrom;
    if |s| < 7 then InsertFrom(s, 1, cmp)
    else
      var p := Parted(s, cmp);
      PartsShrink(s, cmp);
      var t, l, g := Gathered(p), Smaller(p), |s| - Larger(p);
      (if l > 1 then Quick(t[..l], cmp) else t[..l]) + t[l..g] + (if |s| - g > 1 then Quick(t[g..], cmp) else t[g..])
  }

  /** A part after its own call, if there is one. */
  ghost function Part<T(!new)>(s: seq<T>, cmp: (T, T) -> int): (r: seq<T>)
    requires Reflexive(cmp)
    ensures |r| == |s|
  {
    if |s| > 1 then Quick(s, cmp) else s
  }

  lemma QuickUnfold<T(!new)>(s: seq<T>, cmp: (T, T) -> int)
    requires Reflexive(cmp) && |s| >= 7
    ensures var p := Parted(s, cmp);
            var t, l, g := Gathered(p), Smaller(p), |s| - Larger(p);
            0 <= l <= g <= |s| && l < |s| && 0 < g &&
            Quick(s, cmp) == Part(t[..l], cmp) + t[l..g] + Part(t[g..], cmp)
  {
    hide Parted, Gathered, InsertFrom;
    PartsShrink(s, cmp);
  }

  /** Whatever the comparator says, as long as equal things compare equal: a permutation. */
  lemma {:induction false} QuickPermutes<T(!new)>(s: seq<T>, cmp: (T, T) -> int)
    requires Reflexive(cmp)
    ensures multiset(Quick(s, cmp)) == multiset(s)
    decreases |s|, 1
  {
    hide Parted, Gathered, Part, InsertFrom;
    if |s| < 7 {
      InsertFromPermutes(s, 1, cmp);
    } else {
      QuickUnfold(s, cmp);
      PartedFacts(s, cmp);
      hide Quick, Reflexive;
      var p := Parted(s, cmp);
      var t, l, g := Gathered(p), Smaller(p), |s| - Larger(p);
      PartPermutes(t[..l], cmp);
      PartPermutes(t[g..], cmp);
      Reassemble(t, l, g, Part(t[..l], cmp), Part(t[g..], cmp));
    }
  }

  lemma {:induction false} PartPermutes<T(!new)>(s: seq<T>, cmp: (T, T) -> int)
    requires Reflexive(cmp)
    ensures multiset(Part(s, cmp)) == multiset(s)
    decreases |s|, 2
  {
    hide Quick, Reflexive;
    if |s| > 1 { QuickPermutes(s, cmp); }
  }

  lemma Reassemble<T>(t: seq<T>, l: nat, g: nat, a: seq<T>, b: seq<T>)
    requires l <= g <= |t| && multiset(a) == multiset(t[..l]) && multiset(b) == multiset(t[g..])
    ensures multiset(a + t[l..g] + b) == multiset(t)
  {
    assert t == t[..l] + t[l..g] + t[g..];
    assert multiset(t) == multiset(t[..l]) + multiset(t[l..g]) + multiset(t[g..]);
    assert multiset(a + t[l..g] + b) == multiset(a) + multiset(t[l..g]) + multiset(b);
  }

  // ---------------------------------------------------------------- when it sorts

  /** Fewer smaller elements than equal ones at the start: the block move that then overlaps
      itself lacks the bound that would keep the smaller elements together at the start. */
  predicate Short<T>(p: Parts<T>) { 0 < Smaller(p) < EqualFirst(p) }

  /** The start move, by what it leaves in the lower part of the array. */
  lemma FirstMove<T>(p: Parts<T>, v: T, cmp: (T, T) -> int)
    requires Classified(p, v, cmp) && p.pb == p.pc + 1
    ensures var t, l, e := SwapRun(p.s, 0, Smaller(p), 0, EqualFirst(p)), Smaller(p), EqualFirst(p);
            && t[p.pb..] == p.s[p.pb..]
            && (!Short(p) ==> AllBelow(t, 0, l, v, cmp) && AllEqual(t, l, p.pb, v, cmp))
            && (Short(p) ==> AllEqual(t, 0, e - l, v, cmp) && AllBelow(t, e - l, e, v, cmp))
  {
    hide SwapRun;
    var l, e := Smaller(p), EqualFirst(p);
    MoveLeaves(p.s, 0, l, e, p.pb, |p.s|);
    if e <= l { StartMove(p.s, l, 0, e, v, cmp); } else { StartMoveShort(p.s, l, 0, e, v, cmp); }
  }

  lemma SecondMove<T>(p: Parts<T>, t: seq<T>, v: T, cmp: (T, T) -> int)
    requires Classified(p, v, cmp) && p.pb == p.pc + 1 && |t| == |p.s| && t[p.pb..] == p.s[p.pb..]
    ensures var u, g := SwapRun(t, p.pb, p.pb + Larger(p), 0, EqualLast(p)), |p.s| - Larger(p);
            u[..p.pb] == t[..p.pb] && AllEqual(u, p.pb, g, v, cmp) && AllAbove(u, g, |p.s|, v, cmp)
  {
    hide SwapRun;
    assert forall k :: p.pb <= k < |t| ==> t[k] == t[p.pb..][k - p.pb] == p.s[k];
    MoveLeaves(t, p.pb, p.pb + Larger(p), EqualLast(p), 0, p.pb);
    EndMove(t, p.pb, Larger(p), 0, EqualLast(p), v, cmp);
  }

  /** Where everything is when the moves are done. */
  lemma GatheredFacts<T>(s: seq<T>, cmp: (T, T) -> int)
    requires |s| >= 7
    ensures var p, v := Parted(s, cmp), s[Pivot(s, cmp)];
            var t, l, g, e := Gathered(p), Smaller(p), |s| - Larger(p), EqualFirst(p);
            && 0 <= l <= p.pb <= g <= |s| && e <= p.pb
            && AllAbove(t, g, |s|, v, cmp)
            && (!Short(p) ==> AllBelow(t, 0, l, v, cmp) && AllEqual(t, l, g, v, cmp))
            && (Short(p) ==> AllEqual(t, 0, e - l, v, cmp) && AllBelow(t, e - l, e, v, cmp))
  {
    hide Pivot, SwapRun, Parted, Classified, AllBelow, AllEqual, AllAbove;
    PartedFacts(s, cmp);
    var p, v := Parted(s, cmp), s[Pivot(s, cmp)];
    FirstMove(p, v, cmp);
    var t := SwapRun(p.s, 0, Smaller(p), 0, EqualFirst(p));
    SecondMove(p, t, v, cmp);
    SamePrefix(Gathered(p), t, p.pb, |s| - Larger(p), Smaller(p), EqualFirst(p), v, cmp);
  }

  lemma SamePrefix<T>(u: seq<T>, t: seq<T>, n: nat, g: nat, l: nat, e: nat, v: T, cmp: (T, T) -> int)
    requires l <= n <= g <= |t| == |u| && e <= n && u[..n] == t[..n] && AllEqual(u, n, g, v, cmp)
    ensures AllBelow(t, 0, l, v, cmp) && AllEqual(t, l, n, v, cmp) ==> AllBelow(u, 0, l, v, cmp) && AllEqual(u, l, g, v, cmp)
    ensures AllEqual(t, 0, e - l, v, cmp) && e >= l ==> AllEqual(u, 0, e - l, v, cmp)
    ensures e >= l && AllBelow(t, e - l, e, v, cmp) ==> AllBelow(u, e - l, e, v, cmp)
  {
    assert forall k :: 0 <= k < n ==> u[k] == u[..n][k] == t[k];
  }

  /** No call of the recursion runs into the short start move.  A caller can decide this by
      partitioning; it is the guard the block move should have had. */
  ghost predicate Smooth<T(!new)>(s: seq<T>, cmp: (T, T) -> int)
    requires Reflexive(cmp)
    decreases |s|
  {
    hide Parted, Gathered;
    |s| < 7 ||
      var p := Parted(s, cmp);
      PartsShrink(s, cmp);
      var t, l, g := Gathered(p), Smaller(p), |s| - Larger(p);
      !Short(p) && Smooth(t[..l], cmp) && Smooth(t[g..], cmp)
  }

  /** Neighbouring blocks sort independently. */
  lemma SortedBlocks<T(!new)>(a: seq<T>, m: seq<T>, b: seq<T>, v: T, cmp: (T, T) -> int)
    requires Consistent(cmp)
    requires AllBelow(a, 0, |a|, v, cmp) && AllEqual(m, 0, |m|, v, cmp) && AllAbove(b, 0, |b|, v, cmp)
    ensures Sorted(a + m + b, cmp) <==> Sorted(a, cmp) && Sorted(b, cmp)
  {
    var r := a + m + b;
    if Sorted(r, cmp) {
      assert forall i :: 0 <= i < |a| ==> r[i] == a[i];
      assert forall i :: 0 <= i < |b| ==> r[|a| + |m| + i] == b[i];
    }
    if Sorted(a, cmp) && Sorted(b, cmp) {
      hide Consistent;
      forall i, j | 0 <= i < j < |r| ensures cmp(r[i], r[j]) <= 0 {
        Between(r[i], r[j], v, cmp);
        if j >= |a| + |m| && i >= |a| + |m| { assert cmp(b[i - |a| - |m|], b[j - |a| - |m|]) <= 0; }
      }
    }
  }

  lemma Between<T(!new)>(x: T, y: T, v: T, cmp: (T, T) -> int)
    requires Consistent(cmp)
    ensures cmp(x, v) <= 0 && cmp(y, v) >= 0 ==> cmp(x, y) <= 0
    ensures cmp(x, v) == 0 && cmp(y, v) < 0 ==> cmp(x, y) > 0
  {
    assert cmp(v, y) <= 0 <==> cmp(y, v) >= 0;
    assert cmp(v, x) <= 0 <==> cmp(x, v) >= 0;
    assert cmp(v, y) > 0 <==> cmp(y, v) < 0;
    if cmp(x, v) <= 0 && cmp(v, y) <= 0 { assert cmp(x, y) <= 0; }
    if cmp(v, x) <= 0 && cmp(x, y) <= 0 { assert cmp(v, y) <= 0; }
  }

  lemma PermutedBelow<T>(a: seq<T>, b: seq<T>, v: T, cmp: (T, T) -> int)
    requires multiset(a) == multiset(b)
    ensures AllBelow(a, 0, |a|, v, cmp) ==> AllBelow(b, 0, |b|, v, cmp)
    ensures AllAbove(a, 0, |a|, v, cmp) ==> AllAbove(b, 0, |b|, v, cmp)
  {
    forall k | 0 <= k < |b| ensures exists j :: 0 <= j < |a| && a[j] == b[k] {
      assert b[k] in multiset(b);
      assert b[k] in a;
    }
  }

  /** A short start move leaves an equal element before a smaller one, for good. */
  lemma ShortUnsorted<T(!new)>(t: seq<T>, l: nat, g: nat, e: nat, a: seq<T>, b: seq<T>, v: T, cmp: (T, T) -> int)
    requires Consistent(cmp) && 0 < l < e <= g <= |t| && multiset(a) == multiset(t[..l]) && |a| == l
    requires AllEqual(t, 0, e - l, v, cmp) && AllBelow(t, e - l, e, v, cmp)
    ensures !Sorted(a + t[l..g] + b, cmp)
  {
    assert t[0] == t[..l][0] && t[0] in multiset(t[..l]);
    var i :| 0 <= i < |a| && a[i] == t[0];
    var r := a + t[l..g] + b;
    assert r[i] == t[0] && r[e - 1] == t[l..g][e - 1 - l] == t[e - 1];
    Between(t[0], t[e - 1], v, cmp);
  }

  lemma Slices<T>(t: seq<T>, l: nat, g: nat, v: T, cmp: (T, T) -> int)
    requires l <= g <= |t|
    ensures AllBelow(t, 0, l, v, cmp) ==> AllBelow(t[..l], 0, l, v, cmp)
    ensures AllEqual(t, l, g, v, cmp) ==> AllEqual(t[l..g], 0, g - l, v, cmp)
    ensures AllAbove(t, g, |t|, v, cmp) ==> AllAbove(t[g..], 0, |t| - g, v, cmp)
  {
  }

  /** The pieces of one call put together. */
  lemma Joined<T(!new)>(t: seq<T>, l: nat, g: nat, e: nat, short: bool, a: seq<T>, b: seq<T>, v: T, cmp: (T, T) -> int)
    requires Consistent(cmp) && l <= g <= |t| && e <= g && (short ==> 0 < l < e)
    requires multiset(a) == multiset(t[..l]) && multiset(b) == multiset(t[g..]) && |a| == l && |b| == |t| - g
    requires AllAbove(t, g, |t|, v, cmp)
    requires !short ==> AllBelow(t, 0, l, v, cmp) && AllEqual(t, l, g, v, cmp)
    requires short ==> AllEqual(t, 0, e - l, v, cmp) && AllBelow(t, e - l, e, v, cmp)
    ensures Sorted(a + t[l..g] + b, cmp) <==> !short && Sorted(a, cmp) && Sorted(b, cmp)
  {
    hide Consistent, Sorted, AllBelow, AllEqual, AllAbove;
    if short {
      ShortUnsorted(t, l, g, e, a, b, v, cmp);
    } else {
      Slices(t, l, g, v, cmp);
      PermutedBelow(t[..l], a, v, cmp);
      PermutedBelow(t[g..], b, v, cmp);
      SortedBlocks(a, t[l..g], b, v, cmp);
    }
  }

  lemma SmoothUnfold<T(!new)>(s: seq<T>, cmp: (T, T) -> int)
    requires Reflexive(cmp) && |s| >= 7
    ensures var p := Parted(s, cmp);
            var t, l, g := Gathered(p), Smaller(p), |s| - Larger(p);
            0 <= l <= g <= |s| && l < |s| && 0 < g &&
            (Smooth(s, cmp) <==> !Short(p) && Smooth(t[..l], cmp) && Smooth(t[g..], cmp))
  {
    hide Parted, Gathered, Short;
    PartsShrink(s, cmp);
  }

  /** The result is sorted if and only if no call ran into the short start move. */
  lemma {:induction false} SortsExactlyWhenSmooth<T(!new)>(s: seq<T>, cmp: (T, T) -> int)
    requires Consistent(cmp)
    ensures Sorted(Quick(s, cmp), cmp) <==> Smooth(s, cmp)
    decreases |s|, 1
  {
    if |s| < 7 {
      InsertionSorts(s, cmp);
    } else {
      ConsistentReflexive(cmp);
      hide *;
      QuickUnfold(s, cmp);
      GatheredFacts(s, cmp);
      SmoothUnfold(s, cmp);
      var p, v := Parted(s, cmp), s[Pivot(s, cmp)];
      var t, l, g, e := Gathered(p), Smaller(p), |s| - Larger(p), EqualFirst(p);
      PartPermutes(t[..l], cmp);
      PartPermutes(t[g..], cmp);
      ShortMeans(p);
      Joined(t, l, g, e, Short(p), Part(t[..l], cmp), Part(t[g..], cmp), v, cmp);
      PartSortsExactly(t[..l], cmp);
      PartSortsExactly(t[g..], cmp);
    }
  }

  lemma ShortMeans<T>(p: Parts<T>)
    ensures Short(p) <==> 0 < Smaller(p) < EqualFirst(p)
  {
  }

  lemma {:induction false} PartSortsExactly<T(!new)>(s: seq<T>, cmp: (T, T) -> int)
    requires Consistent(cmp)
    ensures Sorted(Part(s, cmp), cmp) <==> Smooth(s, cmp)
    decreases |s|, 2
  {
    hide Quick;
    if |s| > 1 { SortsExactlyWhenSmooth(s, cmp); }
  }

  lemma ConsistentReflexive<T(!new)>(cmp: (T, T) -> int)
    requires Consistent(cmp)
    ensures Reflexive(cmp)
  {
  }

  lemma InsertionSorts<T(!new)>(s: seq<T>, cmp: (T, T) -> int)
    requires Consistent(cmp) && |s| < 7
    ensures Sorted(Quick(s, cmp), cmp)
  {
    if |s| > 0 {
      InsertFromSorts(s, 1, cmp);
    }
  }

  // ---------------------------------------------------------------- no ties

  ghost predicate NoTies<T>(s: seq<T>, cmp: (T, T) -> int) {
    forall i, j :: 0 <= i < j < |s| ==> cmp(s[i], s[j]) != 0
  }

  lemma {:induction false} CountTwice<T>(s: seq<T>, i: nat, j: nat)
    requires i < j < |s| && s[i] == s[j]
    ensures multiset(s)[s[i]] >= 2
  {
    assert s == s[..j] + [s[j]] + s[j + 1..];
    assert s[..j][i] == s[i];
    assert multiset(s)[s[i]] == multiset(s[..j])[s[i]] + 1 + multiset(s[j + 1..])[s[i]];
  }

  lemma {:induction false} FindTwice<T>(s: seq<T>, x: T) returns (i: nat, j: nat)
    requires multiset(s)[x] >= 2
    ensures i < j < |s| && s[i] == x && s[j] == x
  {
    assert s == [s[0]] + s[1..];
    if s[0] == x {
      assert x in multiset(s[1..]);
      var k :| 0 <= k < |s[1..]| && s[1..][k] == x;
      i, j := 0, k + 1;
    } else {
      i, j := FindTwice(s[1..], x);
      i, j := i + 1, j + 1;
    }
  }

  /** Being free of ties does not depend on the order, nor on the rest of a longer sequence. */
  lemma NoTiesPermuted<T(!new)>(s: seq<T>, t: seq<T>, cmp: (T, T) -> int)
    requires Consistent(cmp) && NoTies(s, cmp) && multiset(t) <= multiset(s)
    ensures NoTies(t, cmp)
  {
    forall i, j | 0 <= i < j < |t| ensures cmp(t[i], t[j]) != 0 {
      var x, y := t[i], t[j];
      if x == y {
        CountTwice(t, i, j);
        var k, l := FindTwice(s, x);
      } else {
        assert x in multiset(t) && y in multiset(t);
        assert x in multiset(s) && y in multiset(s);
        var k :| 0 <= k < |s| && s[k] == x;
        var l :| 0 <= l < |s| && s[l] == y;
        assert cmp(x, y) < 0 <==> cmp(y, x) > 0;
        assert cmp(y, x) < 0 <==> cmp(x, y) > 0;
        if k < l { assert cmp(s[k], s[l]) != 0; } else { assert cmp(s[l], s[k]) != 0; }
      }
    }
  }

  lemma PieceWithin<T>(t: seq<T>, lo: nat, hi: nat)
    requires lo <= hi <= |t|
    ensures multiset(t[lo..hi]) <= multiset(t)
  {
    assert t == t[..lo] + t[lo..hi] + t[hi..];
    assert multiset(t) == multiset(t[..lo]) + multiset(t[lo..hi]) + multiset(t[hi..]);
  }

  lemma PartedPermutes<T>(s: seq<T>, cmp: (T, T) -> int)
    requires |s| >= 7
    ensures multiset(Gathered(Parted(s, cmp))) == multiset(s)
  {
    hide Parted, Gathered, Classified, Pivot;
    PartedFacts(s, cmp);
  }

  lemma PieceNoTies<T(!new)>(s: seq<T>, t: seq<T>, lo: nat, hi: nat, cmp: (T, T) -> int)
    requires Consistent(cmp) && NoTies(s, cmp) && multiset(t) == multiset(s) && lo <= hi <= |t|
    ensures NoTies(t[lo..hi], cmp)
  {
    hide Consistent, NoTies;
    PieceWithin(t, lo, hi);
    NoTiesPermuted(s, t[lo..hi], cmp);
  }

  lemma PiecesNoTies<T(!new)>(s: seq<T>, t: seq<T>, l: nat, g: nat, cmp: (T, T) -> int)
    requires Consistent(cmp) && NoTies(s, cmp) && multiset(t) == multiset(s) && l <= g <= |t|
    ensures NoTies(t[..l], cmp) && NoTies(t[g..], cmp)
  {
    hide Consistent, NoTies;
    PieceNoTies(s, t, 0, l, cmp);
    PieceNoTies(s, t, g, |t|, cmp);
    assert t[0..l] == t[..l] && t[g..|t|] == t[g..];
  }

  lemma NoTiesNotShort<T(!new)>(s: seq<T>, cmp: (T, T) -> int)
    requires Consistent(cmp) && NoTies(s, cmp) && |s| >= 7
    ensures !Short(Parted(s, cmp))
  {
    PartedFacts(s, cmp);
    hide Parted, Gathered, Pivot;
    var p, v := Parted(s, cmp), s[Pivot(s, cmp)];
    NoTiesPermuted(s, p.s, cmp);
    if p.pa >= 2 {
      Between(p.s[0], p.s[1], v, cmp);
      Between(p.s[1], p.s[0], v, cmp);
      assert cmp(p.s[0], p.s[1]) != 0;
    }
  }

  lemma SmallSmooth<T(!new)>(s: seq<T>, cmp: (T, T) -> int)
    requires Reflexive(cmp) && |s| < 7
    ensures Smooth(s, cmp)
  {
  }

  lemma {:induction false} NoTiesSmooth<T(!new)>(s: seq<T>, cmp: (T, T) -> int)
    requires Consistent(cmp) && NoTies(s, cmp)
    ensures Smooth(s, cmp)
    decreases |s|
  {
    hide *;
    ConsistentReflexive(cmp);
    if |s| < 7 {
      SmallSmooth(s, cmp);
    } else {
      var t, l, g := NoTiesParts(s, cmp);
      NoTiesSmooth(t[..l], cmp);
      NoTiesSmooth(t[g..], cmp);
    }
  }

  /** Both parts are free of ties, and their smoothness decides. */
  lemma NoTiesParts<T(!new)>(s: seq<T>, cmp: (T, T) -> int) returns (t: seq<T>, l: nat, g: nat)
    requires Consistent(cmp) && Reflexive(cmp) && NoTies(s, cmp) && |s| >= 7
    ensures |t| == |s| && l < |s| && 0 < g <= |s| && NoTies(t[..l], cmp) && NoTies(t[g..], cmp)
    ensures Smooth(t[..l], cmp) && Smooth(t[g..], cmp) ==> Smooth(s, cmp)
  {
    hide *;
    NoTiesNotShort(s, cmp);
    SmoothUnfold(s, cmp);
    PartedPermutes(s, cmp);
    var p := Parted(s, cmp);
    t, l, g := Gathered(p), Smaller(p), |s| - Larger(p);
    PiecesNoTies(s, t, l, g, cmp);
  }

  /** For a consistent comparator and no ties the result is sorted. */
  lemma SortsWithoutTies<T(!new)>(s: seq<T>, cmp: (T, T) -> int)
    requires Consistent(cmp) && NoTies(s, cmp)
    ensures Sorted(Quick(s, cmp), cmp)
  {
    hide *;
    NoTiesSmooth(s, cmp);
    SortsExactlyWhenSmooth(s, cmp);
  }

  lemma {:induction false} UpOverEquals<T>(s: seq<T>, k: nat, v: T, cmp: (T, T) -> int)
    requires |s| == 7 && k <= 6 && (forall i :: 0 <= i < 6 ==> cmp(s[i], v) == 0) && cmp(s[6], v) < 0
    ensures ScanUp(Parts(s, k, k, 6, 6), v, cmp) == Parts(s, 6, 7, 6, 6)
    decreases 6 - k
  {
    if k < 6 {
      assert Swap(s, k, k) == s;
      UpOverEquals(s, k + 1, v, cmp);
    } else {
      assert UpStep(Parts(s, 6, 6, 6, 6), v, cmp) == Parts(s, 6, 7, 6, 6);
    }
  }

  /** With ties it can fail: six equal elements and a smaller one come out with the smaller one
      second to last. */
  lemma TiesCanBreakIt<T(!new)>(x: T, y: T, cmp: (T, T) -> int)
    requires Consistent(cmp) && cmp(y, x) < 0
    ensures !Sorted(Quick([x, x, x, x, x, x, y], cmp), cmp)
  {
    var s := [x, x, x, x, x, x, y];
    assert Pivot(s, cmp) == 3;
    UpOverEquals(s, 0, x, cmp);
    assert Parted(s, cmp) == Parts(s, 6, 7, 6, 6);
    SortsExactlyWhenSmooth(s, cmp);
    SmoothUnfold(s, cmp);
  }
}
