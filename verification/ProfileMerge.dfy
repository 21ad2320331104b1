/** Profiles as cachegrind/cg_merge.c holds them: one count vector per line, added to in place. */
module ProfileMerge {
  import opened Words
  import opened Profile
  import opened ProfileSums

  type Vec = array<nat>
  type LineTable = map<nat, Vec>
  type FunTable = map<FileFn, LineTable>

  ghost function LineVecs(m: LineTable): (r: set<Vec>)
    ensures forall l :: l in m ==> m[l] in r
  {
    set l | l in m :: m[l]
  }

  ghost function Vecs(o: FunTable): (r: set<Vec>)
    ensures forall k, l :: k in o && l in o[k] ==> o[k][l] in r
  {
    set k, l | k in o && l in o[k] :: o[k][l]
  }

  /** No vector is used for two lines. */
  ghost predicate Apart(o: FunTable) {
    forall j, i, k, l :: j in o && i in o[j] && k in o && l in o[k] && o[j][i] == o[k][l] ==> j == k && i == l
  }

  ghost function LineValues(m: LineTable): (r: Inner)
    reads LineVecs(m)
    ensures r.Keys == m.Keys && forall l :: l in m ==> r[l] == m[l][..]
  {
    map l | l in m :: m[l][..]
  }

  ghost function Values(o: FunTable): (r: Outer)
    reads Vecs(o)
    ensures r.Keys == o.Keys && forall k :: k in o ==> r[k] == LineValues(o[k])
  {
    map k | k in o :: LineValues(o[k])
  }

  function AllLines(o: FunTable, k: FileFn): LineTable { if k in o then o[k] else map[] }

  // ---------------------------------------------------------------- one line changed

  /** The map with one vector put in. */
  function Inserted(o: FunTable, k: FileFn, l: nat, c: Vec): FunTable { o[k := AllLines(o, k)[l := c]] }

  lemma InsertedAt(o: FunTable, k: FileFn, l: nat, c: Vec, j: FileFn, i: nat)
    ensures var p := Inserted(o, k, l, c);
            && ((j in p && i in p[j]) <==> (j == k && i == l) || (j in o && i in o[j]))
            && (j == k && i == l ==> p[j][i] == c)
            && (!(j == k && i == l) && j in o && i in o[j] ==> p[j][i] == o[j][i])
  {
  }

  lemma InsertedApart(o: FunTable, k: FileFn, l: nat, c: Vec)
    requires Apart(o) && c !in Vecs(o) && l !in AllLines(o, k)
    ensures Apart(Inserted(o, k, l, c)) && Vecs(Inserted(o, k, l, c)) == Vecs(o) + {c}
  {
    var p := Inserted(o, k, l, c);
    hide Inserted;
    forall x, y, z, w | x in p && y in p[x] && z in p && w in p[z] && p[x][y] == p[z][w] ensures x == z && y == w {
      InsertedAt(o, k, l, c, x, y);
      InsertedAt(o, k, l, c, z, w);
    }
    forall v | v in Vecs(p) ensures v in Vecs(o) + {c} {
      var j, i :| j in p && i in p[j] && p[j][i] == v;
      InsertedAt(o, k, l, c, j, i);
    }
    forall v | v in Vecs(o) + {c} ensures v in Vecs(p) {
      InsertedAt(o, k, l, c, k, l);
      if v != c {
        var j, i :| j in o && i in o[j] && o[j][i] == v;
        InsertedAt(o, k, l, c, j, i);
      }
    }
  }

  lemma InsertedValues(o: FunTable, k: FileFn, l: nat, c: Vec)
    requires l !in AllLines(o, k) && OuterOk(Values(o), c.Length)
    ensures Values(Inserted(o, k, l, c)) == AddLine(Values(o), k, l, c[..])
  {
    hide OuterOk;
    var x, y := Values(Inserted(o, k, l, c)), AddLine(Values(o), k, l, c[..]);
    assert LineValues(AllLines(o, k)[l := c]) == InnerAt(Values(o), k)[l := c[..]];
    assert x.Keys == y.Keys;
  }

  function WithLine(o: Outer, k: FileFn, l: nat, c: Counts): Outer
    requires k in o
  {
    var m: Inner := o[k][l := c];
    o[k := m]
  }

  /** Values after one vector has changed. */
  lemma ValuesChanged(o: FunTable, before: Outer, k: FileFn, l: nat, sum: Counts)
    requires k in o && l in o[k] && o.Keys == before.Keys && forall j :: j in o ==> o[j].Keys == before[j].Keys
    requires forall j, i :: j in o && i in o[j] ==> o[j][i][..] == if j == k && i == l then sum else before[j][i]
    ensures Values(o) == WithLine(before, k, l, sum)
  {
    var r := WithLine(before, k, l, sum);
    forall j | j in o ensures Values(o)[j] == r[j] {
      assert Values(o)[j].Keys == r[j].Keys;
      forall i | i in o[j] ensures Values(o)[j][i] == r[j][i] { }
    }
    assert Values(o).Keys == r.Keys;
  }

  /** addCounts */
  method AddCounts(a: Vec, b: Vec)
    requires a != b && a.Length == b.Length
    modifies a
    ensures a[..] == Add(old(a[..]), b[..])
  {
    var i := 0;
    while i < a.Length
      invariant 0 <= i <= a.Length
      invariant forall e :: 0 <= e < i ==> a[e] == AddWords(old(a[e]), b[e])
      invariant forall e :: i <= e < a.Length ==> a[e] == old(a[e])
    {
      a[i] := AddWords(a[i], b[i]);
      i := i + 1;
    }
    assert a[..] == Add(old(a[..]), b[..]);
  }

  /** dopy_Counts */
  method CopyCounts(v: Vec) returns (c: Vec)
    ensures fresh(c) && c[..] == v[..]
  {
    c := new nat[v.Length](i requires 0 <= i < v.Length reads v => v[i]);
  }

  class ProfileFile {
    const events: nat
    const eventsLine: string
    var outer: FunTable
    const summary: Vec

    ghost predicate Valid()
      reads this, Vecs(outer), summary
    {
      OuterOk(Value(), events) && Apart(outer) && summary !in Vecs(outer) && IsCounts(summary[..], events)
    }

    ghost function Repr(): set<Vec>
      reads this
    {
      Vecs(outer) + {summary}
    }

    ghost function Value(): (o: Outer)
      reads this, Vecs(outer)
    {
      Values(outer)
    }

    /** The summary is the sum of all lines. */
    ghost predicate Consistent()
      reads this, Vecs(outer), summary
    {
      Balanced(Value(), summary[..], events)
    }

    constructor (eventsLine: string, events: nat)
      ensures Valid() && Value() == map[] && summary[..] == Zero(events) && Consistent()
      ensures this.events == events && this.eventsLine == eventsLine && fresh(summary) && outer == map[]
    {
      this.events, this.eventsLine, outer := events, eventsLine, map[];
      summary := new nat[events](_ => 0);
      new;
      assert summary[..] == Zero(events);
      EmptyBalanced(events);
    }

    method AddToVec(k: FileFn, l: nat, c: Vec)
      requires Apart(outer) && k in outer && l in outer[k] && c !in Vecs(outer) && outer[k][l].Length == c.Length
      modifies outer[k][l]
      ensures outer[k][l][..] == Add(old(outer[k][l][..]), c[..])
      ensures forall j, i :: j in outer && i in outer[j] && !(j == k && i == l) ==> outer[j][i][..] == old(outer[j][i][..])
    {
      hide Add;
      AddCounts(outer[k][l], c);
    }

    /** Adds to a line that is there. */
    method AddAt(k: FileFn, l: nat, c: Vec)
      requires Valid() && k in outer && l in outer[k] && IsCounts(c[..], events) && c !in Repr()
      modifies outer[k][l]
      ensures Valid() && Value() == AddLine(old(Value()), k, l, c[..]) && summary[..] == old(summary[..])
    {
      hide OuterOk;
      ghost var before := Value();
      LineOk(before, k, l, events);
      AddLineOk(before, k, l, c[..]);
      assert outer[k][l].Length == c.Length;
      hide Add, IsCounts, Apart;
      AddToVec(k, l, c);
      ValuesChanged(outer, before, k, l, Add(before[k][l], c[..]));
    }

    /** Makes a vector the counts of a line that is not there yet. */
    method Insert(k: FileFn, l: nat, c: Vec)
      requires Valid() && l !in AllLines(outer, k) && IsCounts(c[..], events) && c !in Repr()
      modifies this`outer
      ensures Valid() && Value() == AddLine(old(Value()), k, l, c[..])
      ensures Vecs(outer) == old(Vecs(outer)) + {c}
    {
      hide OuterOk, Apart, AddLine;
      ghost var o := outer;
      AddLineOk(Value(), k, l, c[..]);
      outer := outer[k := AllLines(outer, k)[l := c]];
      InsertedApart(o, k, l, c);
      InsertedValues(o, k, l, c);
      assert outer == Inserted(o, k, l, c);
    }

    /** addCountsToMap on the function's lines: adds to the line or makes the vector its counts. */
    method AddCountsToMap(k: FileFn, l: nat, c: Vec) returns (merged: bool)
      requires Valid() && IsCounts(c[..], events) && c !in Repr()
      modifies this`outer, Vecs(outer)
      ensures Valid() && Value() == AddLine(old(Value()), k, l, c[..])
      ensures summary[..] == old(summary[..]) && c[..] == old(c[..])
      ensures merged <==> l in old(AllLines(outer, k))
      ensures Vecs(outer) == old(Vecs(outer)) + if merged then {} else {c}
    {
      hide ProfileFile.Valid, ProfileFile.Value, Vecs, AddLine, OuterOk, IsCounts;
      if k in outer && l in outer[k] {
        assert outer[k][l] in Vecs(outer);
        AddAt(k, l, c);
        merged := true;
      } else {
        Insert(k, l, c);
        merged := false;
      }
    }

    method AddToSummary(c: Vec)
      requires Valid() && IsCounts(c[..], events) && c != summary
      modifies summary
      ensures Valid() && Value() == old(Value()) && summary[..] == Add(old(summary[..]), c[..])
    {
      hide OuterOk, Add, Apart, Values;
      AddCounts(summary, c);
    }

    /** handle_counts: false stands for the parse error about the number of counts. */
    method HandleCounts(k: FileFn, l: nat, c: Vec) returns (ok: bool)
      requires Valid() && Consistent() && IsCounts(c[..], c.Length) && c !in Repr()
      modifies this`outer, Repr()
      ensures ok == (c.Length == events) && Valid() && Consistent()
      ensures old(Repr()) <= Repr() <= old(Repr()) + {c}
      ensures ok ==> Value() == AddLine(old(Value()), k, l, c[..]) && summary[..] == Add(old(summary[..]), c[..])
      ensures !ok ==> Value() == old(Value())
    {
      ok := c.Length == events;
      if !ok { return; }
      ghost var before, sum := Value(), summary[..];
      AddLineBalanced(before, sum, k, l, c[..]);
      assert IsCounts(sum, events);
      hide ProfileFile.Valid, ProfileFile.Value, OuterOk, AddLine, Balanced, Add;
      var merged := AddCountsToMap(k, l, c);
      AddToSummary(c);
    }

    /** A function with no lines yet. */
    method AddFunction(k: FileFn)
      requires Valid() && k !in outer
      modifies this`outer
      ensures Valid() && k in outer && Vecs(outer) == old(Vecs(outer)) && Value() == WithInner(old(Value()), k, map[])
    {
      hide OuterOk, IsCounts, Apart, WithInner;
      EmptyFunction(outer, k, events);
      outer := outer[k := map[]];
    }

    /** A copied line. */
    method InsertCopy(k: FileFn, l: nat, c0: Vec)
      requires Valid() && l !in AllLines(outer, k) && IsCounts(c0[..], events)
      modifies this`outer
      ensures Valid() && Value() == AddLine(old(Value()), k, l, c0[..])
      ensures Repr() >= old(Repr()) && forall v :: v in Repr() && v !in old(Repr()) ==> fresh(v)
    {
      hide OuterOk, IsCounts, Apart, AddLine;
      ghost var before, repr := Value(), Repr();
      var c := CopyCounts(c0);
      assert c !in repr && Value() == before;
      Insert(k, l, c);
    }

    /** One line of another profile: added to the line that is there, or copied. */
    method MergeLine(k: FileFn, l: nat, c0: Vec)
      requires Valid() && IsCounts(c0[..], events) && c0 !in Repr()
      modifies this`outer, Repr()
      ensures Valid() && Value() == AddLine(old(Value()), k, l, old(c0[..]))
      ensures summary[..] == old(summary[..])
      ensures Repr() >= old(Repr()) && forall v :: v in Repr() && v !in old(Repr()) ==> fresh(v)
    {
      hide ProfileFile.Valid, ProfileFile.Value, AddLine, OuterOk, IsCounts;
      if k in outer && l in outer[k] { AddAt(k, l, c0); } else { InsertCopy(k, l, c0); }
    }

    /** The same for a line of another profile, which is left alone. */
    method MergeLineOf(src: ProfileFile, k: FileFn, l: nat)
      requires src != this && Valid() && src.Valid() && Repr() !! src.Repr()
      requires events == src.events && k in src.outer && l in src.outer[k]
      modifies this`outer, Repr()
      ensures Valid() && k in old(src.Value()) && l in old(src.Value())[k]
      ensures |old(src.Value())[k][l]| == events && Value() == AddLine(old(Value()), k, l, old(src.Value())[k][l])
      ensures summary[..] == old(summary[..]) && Repr() >= old(Repr())
      ensures forall v :: v in Repr() && v !in old(Repr()) ==> fresh(v)
      ensures src.Valid() && src.outer == old(src.outer) && src.Value() == old(src.Value()) && Repr() !! src.Repr()
    {
      hide ProfileFile.Valid, ProfileFile.Value, AddLine, OuterOk, Vecs, IsCounts;
      src.Line(k, l);
      src.VecsAllocated();
      MergeLine(k, l, src.outer[k][l]);
    }

    lemma VecsAllocated()
      ensures forall v :: v in Vecs(outer) ==> allocated(v)
    {
    }

    /** Merges the lines of one function of another profile. */
    method MergeLines(src: ProfileFile, k: FileFn)
      requires src != this && Valid() && src.Valid() && Repr() !! src.Repr()
      requires events == src.events && k in outer && k in src.outer
      modifies this`outer, Repr()
      ensures Valid() && k in old(Value()) && k in old(src.Value())
      ensures InnerOk(old(Value())[k], events) && InnerOk(old(src.Value())[k], events)
      ensures Value() == WithInner(old(Value()), k, MergeInner(old(Value())[k], old(src.Value())[k], events))
      ensures summary[..] == old(summary[..]) && Repr() >= old(Repr())
      ensures forall v :: v in Repr() && v !in old(Repr()) ==> fresh(v)
      ensures src.Valid() && src.outer == old(src.outer) && src.Value() == old(src.Value()) && Repr() !! src.Repr()
    {
      hide *;
      ghost var cur, other, done, ours := Value(), src.Value(), {}, Repr();
      ValidValue();
      src.ValidValue();
      NoLinesYet(cur, other, k, events);
      var lines := src.outer[k];
      var rest := lines.Keys;
      while rest != {}
        invariant done + rest == lines.Keys && done !! rest
        invariant Valid() && src.Valid() && src.outer == old(src.outer) && src.Value() == other && Repr() !! src.Repr()
        invariant Repr() >= ours && forall v :: v in Repr() && v !in ours ==> fresh(v)
        invariant SoFar(Value(), cur, other, k, done, events)
        invariant summary[..] == old(summary[..])
        decreases |rest|
      {
        var l :| l in rest;
        OneMoreLine(Value(), cur, other, k, done, l, events);
        label L:
        MergeLineOf(src, k, l);
        forall v | v in Repr() && v !in ours ensures fresh(v) {
          assert old(allocated(v)) ==> old@L(allocated(v));
        }
        done := done + {l};
        rest := rest - {l};
      }
      AllLinesMerged(Value(), cur, other, k, done, events);
    }

    /** One function of another profile: its lines are merged, or copied if it is new here. */
    method MergeFunction(src: ProfileFile, k: FileFn)
      requires src != this && Valid() && src.Valid() && Repr() !! src.Repr() && events == src.events && k in src.outer
      modifies this`outer, Repr()
      ensures Valid() && k in old(src.Value())
      ensures InnerOk(InnerAt(old(Value()), k), events) && InnerOk(old(src.Value())[k], events)
      ensures Value() == WithInner(old(Value()), k, MergeInner(InnerAt(old(Value()), k), old(src.Value())[k], events))
      ensures summary[..] == old(summary[..]) && Repr() >= old(Repr())
      ensures forall v :: v in Repr() && v !in old(Repr()) ==> fresh(v)
      ensures src.Valid() && src.outer == old(src.outer) && src.Value() == old(src.Value()) && Repr() !! src.Repr()
    {
      hide ProfileFile.Valid, ProfileFile.Value, Vecs, OuterOk, InnerOk, IsCounts, MergeInner;
      ValidValue();
      src.VecsAllocated();
      if k !in outer { AddFunction(k); }
      label L:
      MergeLines(src, k);
      forall v | v in Repr() && v !in old(Repr()) ensures fresh(v) {
        assert old(allocated(v)) ==> old@L(allocated(v));
      }
    }

    /** merge_CacheProfInfo, in whatever order the functions and lines come; false stands for
        different events lines. */
    method MergeFrom(src: ProfileFile) returns (ok: bool)
      requires src != this && Valid() && src.Valid() && Repr() !! src.Repr()
      requires eventsLine == src.eventsLine ==> events == src.events
      modifies this`outer, Repr()
      ensures ok == (eventsLine == src.eventsLine) && Valid() && src.Valid() && Repr() !! src.Repr()
      ensures src.outer == old(src.outer) && src.Value() == old(src.Value()) && src.summary[..] == old(src.summary[..])
      ensures !ok ==> Value() == old(Value()) && summary[..] == old(summary[..])
      ensures ok ==> OuterOk(old(Value()), events) && OuterOk(old(src.Value()), events)
      ensures ok ==> Value() == Merge(old(Value()), old(src.Value()), events)
      ensures ok ==> summary.Length == src.summary.Length && summary[..] == Add(old(summary[..]), old(src.summary[..]))
      ensures ok && old(Consistent() && src.Consistent()) ==> Consistent()
    {
      ok := eventsLine == src.eventsLine;
      if !ok { return; }
      ghost var sum := summary[..];
      MergeAllFunctions(src);
      AddOther(src);
      if old(Consistent() && src.Consistent()) {
        MergeBalanced(old(Value()), src.Value(), sum, src.summary[..], events);
      }
    }

    /** The two summaries. */
    method AddOther(src: ProfileFile)
      requires src != this && Valid() && src.Valid() && Repr() !! src.Repr() && events == src.events
      modifies summary
      ensures Valid() && src.Valid() && Value() == old(Value()) && src.Value() == old(src.Value())
      ensures summary.Length == src.summary.Length && src.summary[..] == old(src.summary[..])
      ensures summary[..] == Add(old(summary[..]), src.summary[..])
    {
      hide OuterOk, Apart, Values, Add;
      AddToSummary(src.summary);
    }

    /** The outer loop of merge_CacheProfInfo. */
    method MergeAllFunctions(src: ProfileFile)
      requires src != this && Valid() && src.Valid() && Repr() !! src.Repr() && events == src.events
      modifies this`outer, Repr()
      ensures Valid() && OuterOk(old(Value()), events) && OuterOk(old(src.Value()), events)
      ensures Value() == Merge(old(Value()), old(src.Value()), events)
      ensures summary[..] == old(summary[..]) && src.summary[..] == old(src.summary[..])
      ensures src.Valid() && src.outer == old(src.outer) && src.Value() == old(src.Value()) && Repr() !! src.Repr()
    {
      hide ProfileFile.Valid, ProfileFile.Value, Vecs, OuterOk, InnerOk, IsCounts, MergeInner, Merge, SoManyFunctions, WithInner;
      ghost var cur, other, done, ours := Value(), src.Value(), {}, Repr();
      ValidValue();
      src.ValidValue();
      NoFunctionsYet(cur, other, events);
      var rest := src.outer.Keys;
      while rest != {}
        invariant done + rest == src.outer.Keys && done !! rest
        invariant Valid() && src.Valid() && src.outer == old(src.outer) && src.Value() == other && Repr() !! src.Repr()
        invariant Repr() >= ours && forall v :: v in Repr() && v !in ours ==> fresh(v)
        invariant SoManyFunctions(Value(), cur, other, done, events)
        invariant summary[..] == old(summary[..]) && src.summary[..] == old(src.summary[..])
        decreases |rest|
      {
        var k :| k in rest;
        OneMoreFunction(Value(), cur, other, k, done, events);
        label L:
        MergeFunction(src, k);
        forall v | v in Repr() && v !in ours ensures fresh(v) {
          assert old(allocated(v)) ==> old@L(allocated(v));
        }
        done := done + {k};
        rest := rest - {k};
      }
      AllFunctionsMerged(Value(), cur, other, done, events);
    }

    lemma ValidValue()
      requires Valid()
      ensures OuterOk(Value(), events) && IsCounts(summary[..], events) && Value().Keys == outer.Keys
      ensures forall k :: k in outer ==> Value()[k].Keys == outer[k].Keys
    {
    }

    lemma Line(k: FileFn, l: nat)
      requires Valid() && k in outer && l in outer[k]
      ensures IsCounts(outer[k][l][..], events) && outer[k][l] in Repr()
      ensures k in Value() && l in Value()[k] && Value()[k][l] == outer[k][l][..]
    {
      LineOk(Value(), k, l, events);
    }
  }

  lemma LineOk(o: Outer, k: FileFn, l: nat, n: nat)
    requires OuterOk(o, n) && k in o && l in o[k]
    ensures IsCounts(o[k][l], n)
  {
  }

  lemma AddLineOk(o: Outer, k: FileFn, l: nat, c: Counts)
    requires OuterOk(o, |c|) && IsCounts(c, |c|)
    ensures OuterOk(AddLine(o, k, l, c), |c|)
  {
    hide Add;
  }

  // ---------------------------------------------------------------- merging one by one

  /** The bindings of some keys. */
  ghost function Part<K(!new), V>(m: map<K, V>, some: set<K>): (r: map<K, V>)
    ensures forall k :: k in r <==> k in m && k in some
    ensures forall k :: k in r ==> r[k] == m[k]
  {
    map k | k in m && k in some :: m[k]
  }

  lemma AllOf<K(!new), V>(m: map<K, V>)
    ensures Part(m, m.Keys) == m
  {
  }

  ghost function WithInner(o: Outer, k: FileFn, m: Inner): Outer { o[k := m] }

  /** The profile once some lines of one function have been merged. */
  ghost predicate SoFar(now: Outer, cur: Outer, other: Outer, k: FileFn, done: set<nat>, n: nat) {
    && OuterOk(now, n) && OuterOk(cur, n) && OuterOk(other, n) && k in cur && k in other
    && InnerOk(Part(other[k], done), n)
    && now == WithInner(cur, k, MergeInner(cur[k], Part(other[k], done), n))
  }

  lemma NoLinesYet(cur: Outer, other: Outer, k: FileFn, n: nat)
    requires OuterOk(cur, n) && OuterOk(other, n) && k in cur && k in other
    ensures SoFar(cur, cur, other, k, {}, n)
  {
    hide MergeInner;
    assert Part(other[k], {}) == map[];
    MergeInnerNothing(cur[k], n);
  }

  lemma OneMoreLine(now: Outer, cur: Outer, other: Outer, k: FileFn, done: set<nat>, l: nat, n: nat)
    requires SoFar(now, cur, other, k, done, n) && l in other[k] && l !in done
    ensures OuterOk(now, n) && |other[k][l]| == n
    ensures SoFar(AddLine(now, k, l, other[k][l]), cur, other, k, done + {l}, n)
  {
    hide Add, IsCounts;
    LineOk(other, k, l, n);
    AddLineOk(now, k, l, other[k][l]);
    MergeInnerMore(cur[k], other[k], done, l, n);
  }

  lemma MergeInnerMore(m: Inner, s: Inner, done: set<nat>, l: nat, n: nat)
    requires InnerOk(m, n) && InnerOk(s, n) && l in s && l !in done
    ensures InnerOk(Part(s, done), n) && InnerOk(Part(s, done + {l}), n) && |s[l]| == n
    ensures InnerOk(MergeInner(m, Part(s, done), n), n)
    ensures var x := MergeInner(m, Part(s, done), n);
            (l in x ==> |x[l]| == n) && AddToInner(x, l, s[l]) == MergeInner(m, Part(s, done + {l}), n)
  {
    hide Add, MergeInner, IsCounts;
    var p, q := Part(s, done), Part(s, done + {l});
    var x, y := MergeInner(m, p, n), MergeInner(m, q, n);
    Profile.MergeLine(m, s, n, l);
    MergeOkay(m, p, n, l);
    var z := AddToInner(x, l, s[l]);
    assert z.Keys == y.Keys;
    forall i | i in z.Keys ensures z[i] == y[i] {
      Profile.MergeLine(m, p, n, i);
      Profile.MergeLine(m, q, n, i);
      Profile.MergeLine(m, p, n, l);
    }
  }

  lemma MergeOkay(m: Inner, p: Inner, n: nat, l: nat)
    requires InnerOk(m, n) && InnerOk(p, n)
    ensures InnerOk(MergeInner(m, p, n), n) && (l in MergeInner(m, p, n) ==> |MergeInner(m, p, n)[l]| == n)
  {
  }

  lemma AllLinesMerged(now: Outer, cur: Outer, other: Outer, k: FileFn, done: set<nat>, n: nat)
    requires SoFar(now, cur, other, k, done, n) && done == other[k].Keys
    ensures InnerOk(cur[k], n) && InnerOk(other[k], n)
    ensures now == WithInner(cur, k, MergeInner(cur[k], other[k], n))
  {
    AllOf(other[k]);
  }

  /** The profile once some functions have been merged. */
  ghost predicate SoManyFunctions(now: Outer, cur: Outer, other: Outer, done: set<FileFn>, n: nat) {
    && OuterOk(cur, n) && OuterOk(other, n) && OuterOk(Part(other, done), n)
    && now == Merge(cur, Part(other, done), n)
  }

  lemma NoFunctionsYet(cur: Outer, other: Outer, n: nat)
    requires OuterOk(cur, n) && OuterOk(other, n)
    ensures SoManyFunctions(cur, cur, other, {}, n)
  {
    hide Merge;
    assert Part(other, {}) == map[];
    MergeNothing(cur, n);
  }

  lemma OneMoreFunction(now: Outer, cur: Outer, other: Outer, k: FileFn, done: set<FileFn>, n: nat)
    requires SoManyFunctions(now, cur, other, done, n) && k in other && k !in done
    ensures InnerOk(InnerAt(now, k), n) && InnerOk(other[k], n)
    ensures SoManyFunctions(WithInner(now, k, MergeInner(InnerAt(now, k), other[k], n)), cur, other, done + {k}, n)
  {
    hide MergeInner, InnerOk, Merge;
    var p, q := Part(other, done), Part(other, done + {k});
    MergeAt(cur, p, n, k);
    MergeInnerNothing(InnerAt(cur, k), n);
    assert InnerAt(now, k) == InnerAt(cur, k);
    var x, y := WithInner(now, k, MergeInner(InnerAt(now, k), other[k], n)), Merge(cur, q, n);
    assert x.Keys == y.Keys;
    forall j | j in x.Keys ensures x[j] == y[j] {
      MergeAt(cur, p, n, j);
      MergeAt(cur, q, n, j);
    }
  }

  lemma AllFunctionsMerged(now: Outer, cur: Outer, other: Outer, done: set<FileFn>, n: nat)
    requires SoManyFunctions(now, cur, other, done, n) && done == other.Keys
    ensures now == Merge(cur, other, n)
  {
    AllOf(other);
  }

  lemma EmptyFunction(o: FunTable, k: FileFn, n: nat)
    requires k !in o && Apart(o) && OuterOk(Values(o), n)
    ensures Apart(o[k := map[]]) && Vecs(o[k := map[]]) == Vecs(o)
    ensures Values(o[k := map[]]) == WithInner(Values(o), k, map[]) && OuterOk(Values(o[k := map[]]), n)
  {
    EmptyVecs(o, k);
    EmptyValues(o, k);
    EmptyInnerOk(Values(o), k, n);
    hide *;
  }

  lemma EmptyVecs(o: FunTable, k: FileFn)
    requires k !in o && Apart(o)
    ensures Apart(o[k := map[]]) && Vecs(o[k := map[]]) == Vecs(o)
  {
    var p := o[k := map[]];
    forall j, i ensures j in p && i in p[j] <==> j in o && i in o[j] { }
    SameVecs(o, p);
  }

  lemma EmptyValues(o: FunTable, k: FileFn)
    requires k !in o
    ensures Values(o[k := map[]]) == WithInner(Values(o), k, map[])
  {
    assert LineValues(map[]) == map[];
    var p, q := Values(o[k := map[]]), WithInner(Values(o), k, map[]);
    assert p.Keys == q.Keys;
  }

  lemma EmptyInnerOk(o: Outer, k: FileFn, n: nat)
    requires OuterOk(o, n)
    ensures OuterOk(WithInner(o, k, map[]), n)
  {
  }

  lemma SameVecs(o: FunTable, p: FunTable)
    requires forall j, i :: j in p && i in p[j] <==> j in o && i in o[j]
    requires forall j, i :: j in o && i in o[j] ==> p[j][i] == o[j][i]
    ensures Vecs(p) == Vecs(o)
  {
    forall v | v in Vecs(p) ensures v in Vecs(o) { var j, i :| j in p && i in p[j] && p[j][i] == v; }
    forall v | v in Vecs(o) ensures v in Vecs(p) { var j, i :| j in o && i in o[j] && o[j][i] == v; }
  }
}
