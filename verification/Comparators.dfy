/** The key orders of a profile's two maps (cachegrind/cg_merge.c): both meet the contract that a
WordFM asks of its comparator. */
module Comparators {
  import opened SortedList
  import opened WordFMs
  import opened Profile

  /** strcmp on the characters before the NUL. */
  function Strcmp(a: string, b: string): int {
    if a == "" && b == "" then 0
    else if a == "" then -1
    else if b == "" then 1
    else if a[0] != b[0] then a[0] as int - b[0] as int
    else Strcmp(a[1..], b[1..])
  }

  /** cmp_FileFn */
  function CmpFileFn(x: FileFn, y: FileFn): int {
    var r := Strcmp(x.fi, y.fi);
    if r == 0 then Strcmp(x.fn, y.fn) else r
  }

  /** cmp_unboxed_UWord */
  function CmpUWord(x: nat, y: nat): int {
    if x < y then -1 else if x > y then 1 else 0
  }

  lemma {:induction false} StrcmpEqual(a: string, b: string)
    ensures Strcmp(a, b) == 0 <==> a == b
    decreases |a|
  {
    if a != "" && b != "" {
      StrcmpEqual(a[1..], b[1..]);
      assert a == [a[0]] + a[1..] && b == [b[0]] + b[1..];
    }
  }

  lemma {:induction false} StrcmpTurned(a: string, b: string)
    ensures Strcmp(a, b) < 0 <==> Strcmp(b, a) > 0
    decreases |a|
  {
    if a != "" && b != "" { StrcmpTurned(a[1..], b[1..]); }
  }

  lemma {:induction false} StrcmpThrough(a: string, b: string, c: string)
    requires Strcmp(a, b) < 0 && Strcmp(b, c) < 0
    ensures Strcmp(a, c) < 0
    decreases |a|
  {
    if a != "" && b != "" && c != "" && a[0] == b[0] && b[0] == c[0] { StrcmpThrough(a[1..], b[1..], c[1..]); }
  }

  /** Dictionary order: at the first place where they differ, the first string ends or has the smaller
      character. */
  ghost predicate Before(a: string, b: string) {
    exists i: nat :: DiffersAt(a, b, i)
  }

  predicate DiffersAt(a: string, b: string, i: nat) {
    i <= |a| && i < |b| && a[..i] == b[..i] && (i == |a| || a[i] < b[i])
  }

  lemma {:induction false} StrcmpBefore(a: string, b: string)
    ensures Strcmp(a, b) < 0 <==> Before(a, b)
    decreases |a|
  {
    if a != "" && b != "" && a[0] == b[0] {
      StrcmpBefore(a[1..], b[1..]);
      if Before(a[1..], b[1..]) {
        var i: nat :| DiffersAt(a[1..], b[1..], i);
        assert a[..i + 1] == [a[0]] + a[1..][..i] && b[..i + 1] == [b[0]] + b[1..][..i];
        assert DiffersAt(a, b, i + 1);
      }
      if Before(a, b) {
        var i: nat :| DiffersAt(a, b, i);
        assert i > 0;
        assert a[1..][..i - 1] == a[..i][1..] && b[1..][..i - 1] == b[..i][1..];
        assert DiffersAt(a[1..], b[1..], i - 1);
      }
    } else if b != "" && (a == "" || a[0] < b[0]) {
      assert DiffersAt(a, b, 0);
    } else if Before(a, b) {
      var i: nat :| DiffersAt(a, b, i);
      assert i > 0 ==> a[..i][0] == b[..i][0];
    }
  }

  /** Keys come in the dictionary order of file names, and of function names within a file; line
      numbers from the smallest. */
  lemma KeysInOrder(x: FileFn, y: FileFn, l: nat, m: nat)
    ensures CmpFileFn(x, y) < 0 <==> Before(x.fi, y.fi) || (x.fi == y.fi && Before(x.fn, y.fn))
    ensures CmpUWord(l, m) < 0 <==> l < m
  {
    hide Strcmp, Before;
    StrcmpEqual(x.fi, y.fi);
    StrcmpBefore(x.fi, y.fi);
    StrcmpBefore(x.fn, y.fn);
  }

  lemma FileFnThrough(x: FileFn, y: FileFn, z: FileFn)
    requires CmpFileFn(x, y) < 0 && CmpFileFn(y, z) < 0
    ensures CmpFileFn(x, z) < 0
  {
    hide Strcmp;
    StrcmpEqual(x.fi, y.fi);
    StrcmpEqual(y.fi, z.fi);
    StrcmpEqual(x.fi, z.fi);
    if Strcmp(x.fi, y.fi) != 0 && Strcmp(y.fi, z.fi) != 0 { StrcmpThrough(x.fi, y.fi, z.fi); }
    if Strcmp(x.fi, y.fi) == 0 && Strcmp(y.fi, z.fi) == 0 { StrcmpThrough(x.fn, y.fn, z.fn); }
  }

  lemma FileFnEqual(x: FileFn, y: FileFn)
    ensures CmpFileFn(x, y) == 0 <==> x == y
    ensures CmpFileFn(x, y) < 0 <==> CmpFileFn(y, x) > 0
  {
    hide Strcmp;
    StrcmpEqual(x.fi, y.fi);
    StrcmpEqual(x.fn, y.fn);
    StrcmpTurned(x.fi, y.fi);
    StrcmpTurned(y.fi, x.fi);
    StrcmpTurned(x.fn, y.fn);
    StrcmpEqual(y.fi, x.fi);
  }

  /** File name first, then function name: a total order on the keys of the outer map. */
  lemma FileFnOrder()
    ensures TotalOrder(CmpFileFn)
  {
    hide CmpFileFn;
    forall x: FileFn, y: FileFn ensures (CmpFileFn(x, y) == 0 <==> x == y) && (CmpFileFn(x, y) < 0 <==> CmpFileFn(y, x) > 0) {
      FileFnEqual(x, y);
    }
    forall x: FileFn, y: FileFn, z: FileFn | CmpFileFn(x, y) < 0 && CmpFileFn(y, z) < 0 ensures CmpFileFn(x, z) < 0 {
      FileFnThrough(x, y, z);
    }
  }

  /** Line numbers: a total order on the keys of the inner maps. */
  lemma LineOrder()
    ensures TotalOrder(CmpUWord)
  {
  }

  /** The two kinds of map a profile is made of, as parse_CacheProfFile and handle_counts make them. */
  method NewMaps() returns (outer: WordFM<FileFn, WordFM<nat, array<nat>>>, inner: WordFM<nat, array<nat>>)
    ensures fresh(outer) && outer.Valid() && outer.Bindings() == map[]
    ensures fresh(inner) && inner.Valid() && inner.Bindings() == map[]
  {
    FileFnOrder();
    LineOrder();
    outer := new WordFM<FileFn, WordFM<nat, array<nat>>>(CmpFileFn);
    inner := new WordFM<nat, array<nat>>(CmpUWord);
  }
}
