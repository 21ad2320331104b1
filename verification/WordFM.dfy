/** The finite map of cachegrind/cg_merge.c: an AVL tree with an explicit-stack iterator. */
module WordFMs {
  import opened SortedList
  import opened AvlNodes
  import AvlTree

  /** A stack slot: a node and which of its three visits comes next. */
  datatype Frame<P, K, V> = Frame(sub: AvlTree.Tree<P, K, V>, num: int)

  /** What a slot still has to deliver: 1 everything below the node, 2 the node and its right
      side, 3 its right side. */
  function Load<P, K, V>(f: Frame<P, K, V>): seq<Entry<P, K, V>>
    requires f.sub.Node?
  {
    if f.num == 1 then AvlTree.InOrder(f.sub)
    else if f.num == 2 then [f.sub.Entry()] + AvlTree.InOrder(f.sub.right)
    else AvlTree.InOrder(f.sub.right)
  }

  ghost predicate WellStacked<P, K, V>(fs: seq<Frame<P, K, V>>, depth: nat) {
    forall i :: 0 <= i < |fs| ==>
      fs[i].sub.Node? && 1 <= fs[i].num <= 3 && AvlTree.LeftDepth(fs[i].sub) + i <= depth
  }

  /** Everything the stack still has to deliver, top slot first. */
  function Pending<P, K, V>(fs: seq<Frame<P, K, V>>): seq<Entry<P, K, V>>
    requires forall i :: 0 <= i < |fs| ==> fs[i].sub.Node?
  {
    if fs == [] then [] else Load(fs[|fs| - 1]) + Pending(fs[..|fs| - 1])
  }

  /** Visits a slot still needs. */
  function Cost<P, K, V>(f: Frame<P, K, V>): nat
    requires f.sub.Node?
  {
    if f.num == 1 then 3 * |AvlTree.InOrder(f.sub)|
    else if f.num == 2 then 2 + 3 * |AvlTree.InOrder(f.sub.right)|
    else 1 + 3 * |AvlTree.InOrder(f.sub.right)|
  }

  /** Visits left before the iterator is exhausted. */
  function Visits<P, K, V>(fs: seq<Frame<P, K, V>>): nat
    requires forall i :: 0 <= i < |fs| ==> fs[i].sub.Node?
  {
    if fs == [] then 0 else Cost(fs[|fs| - 1]) + Visits(fs[..|fs| - 1])
  }

  lemma {:induction false} PushOne<P, K, V>(fs: seq<Frame<P, K, V>>, f: Frame<P, K, V>)
    requires forall i :: 0 <= i < |fs| ==> fs[i].sub.Node?
    requires f.sub.Node?
    ensures Pending(fs + [f]) == Load(f) + Pending(fs)
    ensures Visits(fs + [f]) == Cost(f) + Visits(fs)
  {
    assert (fs + [f])[..|fs|] == fs;
  }

  lemma Concat3<T>(a: seq<T>, b: seq<T>, c: seq<T>)
    ensures a + (b + c) == (a + b) + c
  {
  }

  /** Replacing a first visit by the second visit of the node and the first of its left child. */
  lemma {:induction false} FirstVisit<P, K, V>(fs: seq<Frame<P, K, V>>, t: AvlTree.Tree<P, K, V>)
    requires forall i :: 0 <= i < |fs| ==> fs[i].sub.Node?
    requires t.Node?
    ensures var gs := fs + [Frame(t, 2)] + if t.left.Node? then [Frame(t.left, 1)] else [];
            Pending(gs) == Pending(fs + [Frame(t, 1)]) && Visits(gs) < Visits(fs + [Frame(t, 1)])
  {
    var l, m := AvlTree.InOrder(t.left), Load(Frame(t, 2));
    FrameParts(t);
    hide AvlTree.InOrder, Load, Cost, Pending, Visits;
    PushOne(fs, Frame(t, 1));
    var hs := fs + [Frame(t, 2)];
    PushOne(fs, Frame(t, 2));
    if t.left.Node? {
      PushOne(hs, Frame(t.left, 1));
      Concat3(l, m, Pending(fs));
    } else {
      assert hs + [] == hs;
      assert l + m == m;
    }
  }

  /** What the visits of a node deliver and cost. */
  lemma FrameParts<P, K, V>(t: AvlTree.Tree<P, K, V>)
    requires t.Node?
    ensures Load(Frame(t, 1)) == AvlTree.InOrder(t.left) + Load(Frame(t, 2))
    ensures Load(Frame(t, 2)) == [t.Entry()] + Load(Frame(t, 3))
    ensures Cost(Frame(t, 1)) == 3 * |AvlTree.InOrder(t.left)| + 1 + Cost(Frame(t, 2))
    ensures Cost(Frame(t, 2)) == 1 + Cost(Frame(t, 3)) && Cost(Frame(t, 3)) == 1 + 3 * |AvlTree.InOrder(t.right)|
    ensures t.left.Node? ==> Load(Frame(t.left, 1)) == AvlTree.InOrder(t.left) && Cost(Frame(t.left, 1)) == 3 * |AvlTree.InOrder(t.left)|
    ensures t.right.Node? ==> Load(Frame(t.right, 1)) == AvlTree.InOrder(t.right) && Cost(Frame(t.right, 1)) == 3 * |AvlTree.InOrder(t.right)|
    ensures Load(Frame(t, 3)) == AvlTree.InOrder(t.right)
    ensures t.left.Leaf? ==> AvlTree.InOrder(t.left) == []
    ensures t.right.Leaf? ==> AvlTree.InOrder(t.right) == []
  {
    var l, r := AvlTree.InOrder(t.left), AvlTree.InOrder(t.right);
    assert AvlTree.InOrder(t) == l + [t.Entry()] + r;
    assert l + [t.Entry()] + r == l + ([t.Entry()] + r);
  }

  lemma {:induction false} SecondVisit<P, K, V>(fs: seq<Frame<P, K, V>>, t: AvlTree.Tree<P, K, V>)
    requires forall i :: 0 <= i < |fs| ==> fs[i].sub.Node?
    requires t.Node?
    ensures Pending(fs + [Frame(t, 2)]) == [t.Entry()] + Pending(fs + [Frame(t, 3)])
  {
    PushOne(fs, Frame(t, 2));
    PushOne(fs, Frame(t, 3));
    Concat3([t.Entry()], AvlTree.InOrder(t.right), Pending(fs));
  }

  lemma {:induction false} ThirdVisit<P, K, V>(fs: seq<Frame<P, K, V>>, t: AvlTree.Tree<P, K, V>)
    requires forall i :: 0 <= i < |fs| ==> fs[i].sub.Node?
    requires t.Node?
    ensures var gs := fs + if t.right.Node? then [Frame(t.right, 1)] else [];
            Pending(gs) == Pending(fs + [Frame(t, 3)]) && Visits(gs) < Visits(fs + [Frame(t, 3)])
  {
    FrameParts(t);
    hide AvlTree.InOrder, Load, Cost, Pending, Visits;
    PushOne(fs, Frame(t, 3));
    if t.right.Node? {
      PushOne(fs, Frame(t.right, 1));
    } else {
      assert fs + [] == fs;
    }
  }

  // ---------------------------------------------------------------- the stack over a whole walk

  ghost predicate Stack<P, K, V>(fs: seq<Frame<P, K, V>>) {
    forall i :: 0 <= i < |fs| ==> fs[i].sub.Node? && 1 <= fs[i].num <= 3
  }

  /** One turn of nextIterFM's loop on the stack. */
  function Turn<P, K, V>(fs: seq<Frame<P, K, V>>): seq<Frame<P, K, V>>
    requires fs != [] && fs[|fs| - 1].sub.Node?
  {
    var rest, f := fs[..|fs| - 1], fs[|fs| - 1];
    if f.num == 1 then rest + [Frame(f.sub, 2)] + (if f.sub.left.Node? then [Frame(f.sub.left, 1)] else [])
    else if f.num == 2 then rest + [Frame(f.sub, 3)]
    else rest + (if f.sub.right.Node? then [Frame(f.sub.right, 1)] else [])
  }

  lemma TurnOf<P, K, V>(rest: seq<Frame<P, K, V>>, f: Frame<P, K, V>)
    requires f.sub.Node?
    ensures Turn(rest + [f]) ==
            if f.num == 1 then rest + [Frame(f.sub, 2)] + (if f.sub.left.Node? then [Frame(f.sub.left, 1)] else [])
            else if f.num == 2 then rest + [Frame(f.sub, 3)]
            else rest + (if f.sub.right.Node? then [Frame(f.sub.right, 1)] else [])
  {
    assert (rest + [f])[..|rest|] == rest;
  }

  lemma TurnSteps<P, K, V>(rest: seq<Frame<P, K, V>>, f: Frame<P, K, V>)
    requires Stack(rest) && f.sub.Node? && 1 <= f.num <= 3
    ensures Stack(rest + [f]) && Stack(Turn(rest + [f])) && Visits(Turn(rest + [f])) < Visits(rest + [f])
  {
    hide Turn, Visits, Load, Cost, Pending;
    TurnOf(rest, f);
    if f.num == 1 {
      FirstVisit(rest, f.sub);
    } else if f.num == 2 {
      FrameParts(f.sub);
      PushOne(rest, f);
      PushOne(rest, Frame(f.sub, 3));
    } else {
      ThirdVisit(rest, f.sub);
    }
  }

  lemma TopFrame<P, K, V>(fs: seq<Frame<P, K, V>>)
    requires Stack(fs) && fs != []
    ensures var n := |fs| - 1; fs == fs[..n] + [fs[n]] && Stack(fs[..n]) && fs[n].sub.Node? && 1 <= fs[n].num <= 3
  {
  }

  function Max(a: nat, b: nat): nat { if a < b then b else a }

  /** The most slots in use at any time until the walk is over. */
  ghost function Peak<P, K, V>(fs: seq<Frame<P, K, V>>): nat
    requires Stack(fs)
    decreases Visits(fs)
  {
    if fs == [] then 0
    else
      TopFrame(fs);
      TurnSteps(fs[..|fs| - 1], fs[|fs| - 1]);
      Max(|fs|, Peak(Turn(fs)))
  }

  /** Slots one frame will need on top of those below it. */
  function Need<P, K, V>(f: Frame<P, K, V>): nat
    requires f.sub.Node?
  {
    if f.num == 1 then AvlTree.LeftDepth(f.sub) else Max(1, AvlTree.LeftDepth(f.sub.right))
  }

  lemma PeakTurn<P, K, V>(fs: seq<Frame<P, K, V>>, f: Frame<P, K, V>)
    requires Stack(fs) && f.sub.Node? && 1 <= f.num <= 3
    ensures Stack(fs + [f]) && Stack(Turn(fs + [f])) && Visits(Turn(fs + [f])) < Visits(fs + [f])
    ensures Peak(fs + [f]) == Max(|fs| + 1, Peak(Turn(fs + [f])))
  {
    hide Visits, Turn, Stack;
    TurnSteps(fs, f);
  }

  lemma PushCosts<P, K, V>(fs: seq<Frame<P, K, V>>, f: Frame<P, K, V>)
    requires Stack(fs) && f.sub.Node?
    ensures Visits(fs) < Visits(fs + [f])
  {
    PushOne(fs, f);
    if f.num == 1 { assert |AvlTree.InOrder(f.sub)| > 0; }
  }

  lemma {:induction false} PeakOver<P, K, V>(fs: seq<Frame<P, K, V>>, f: Frame<P, K, V>)
    requires Stack(fs) && f.sub.Node? && 1 <= f.num <= 3
    ensures Stack(fs + [f]) && Peak(fs + [f]) == Max(|fs| + Need(f), Peak(fs))
    decreases Visits(fs + [f])
  {
    hide Visits, Turn, Peak, Stack, Need, AvlTree.LeftDepth;
    PeakTurn(fs, f);
    TurnCases(fs, f);
    NeedParts(f);
    if f.num == 1 {
      var second := Frame(f.sub, 2);
      var gs := fs + [second];
      StackSnoc(fs, second);
      if f.sub.left.Node? {
        var left := Frame(f.sub.left, 1);
        PushCosts(gs, left);
        PeakOver(gs, left);
      }
      PeakOver(fs, second);
    } else if f.num == 2 {
      PeakOver(fs, Frame(f.sub, 3));
    } else if f.sub.right.Node? {
      PeakOver(fs, Frame(f.sub.right, 1));
    }
  }

  lemma NeedParts<P, K, V>(f: Frame<P, K, V>)
    requires f.sub.Node? && 1 <= f.num <= 3
    ensures var l, r := f.sub.left, f.sub.right;
            && (f.num == 1 ==> Need(f) == Max(if l.Node? then 1 + Need(Frame(l, 1)) else 1, Need(Frame(f.sub, 2))))
            && (f.num == 2 ==> Need(f) == Need(Frame(f.sub, 3)))
            && (f.num != 1 ==> Need(f) == Max(1, if r.Node? then Need(Frame(r, 1)) else 0))
  {
    assert f.sub.left.Leaf? ==> AvlTree.LeftDepth(f.sub.left) == 0;
    assert f.sub.right.Leaf? ==> AvlTree.LeftDepth(f.sub.right) == 0;
  }

  lemma TurnCases<P, K, V>(rest: seq<Frame<P, K, V>>, f: Frame<P, K, V>)
    requires f.sub.Node? && 1 <= f.num <= 3
    ensures var u, second := Turn(rest + [f]), rest + [Frame(f.sub, 2)];
            && (f.num == 1 && f.sub.left.Node? ==> u == second + [Frame(f.sub.left, 1)])
            && (f.num == 1 && f.sub.left.Leaf? ==> u == second)
            && (f.num == 2 ==> u == rest + [Frame(f.sub, 3)])
            && (f.num == 3 && f.sub.right.Node? ==> u == rest + [Frame(f.sub.right, 1)])
            && (f.num == 3 && f.sub.right.Leaf? ==> u == rest)
  {
    hide Turn;
    TurnOf(rest, f);
    var none: seq<Frame<P, K, V>> := [];
    assert rest + [Frame(f.sub, 2)] + none == rest + [Frame(f.sub, 2)] && rest + none == rest;
  }

  lemma StackSnoc<P, K, V>(fs: seq<Frame<P, K, V>>, f: Frame<P, K, V>)
    requires Stack(fs) && f.sub.Node? && 1 <= f.num <= 3
    ensures Stack(fs + [f])
  {
  }

  /** From initIterFM to exhaustion. */
  ghost function WalkPeak<P, K, V>(t: AvlTree.Tree<P, K, V>): nat {
    if t.Leaf? then 0 else Peak([Frame(t, 1)])
  }

  /** A whole walk uses exactly as many slots as the tree's left depth. */
  lemma WalkNeedsLeftDepth<P, K, V>(t: AvlTree.Tree<P, K, V>)
    ensures WalkPeak(t) == AvlTree.LeftDepth(t)
  {
    if t.Node? {
      assert [] + [Frame(t, 1)] == [Frame(t, 1)];
      PeakOver([], Frame(t, 1));
    }
  }

  /** So the stack's assertion cannot fail below 9227464 entries. */
  lemma SmallWalksFit<P, K, V>(t: AvlTree.Tree<P, K, V>)
    requires AvlTree.Balanced(t) && |AvlTree.InOrder(t)| < 9227464
    ensures WalkPeak(t) <= AvlTree.STKMAX
  {
    AvlTree.SmallTreesFitStack(t);
    WalkNeedsLeftDepth(t);
  }

  /** And it does fail for some valid map of just that size: its walk needs a 33rd slot. */
  lemma LargeWalkOverruns() returns (t: AvlTree.Tree<int, int, int>)
    ensures AvlTree.Balanced(t) && AvlTree.Ordered(t, (a: int, b: int) => a - b)
    ensures |AvlTree.InOrder(t)| == 9227464 && WalkPeak(t) == AvlTree.STKMAX + 1
  {
    t := AvlTree.BoundIsTight();
    WalkNeedsLeftDepth(t);
  }

  /** A slot of the stack of a map on the heap. */
  type Slot<K, V> = Frame<AvlNode<K, V>, K, V>

  class WordFM<K(!new), V> {
    var root: AvlNode?<K, V>
    const kCmp: (K, K) -> int
    const nodeStack: array<AvlNode?<K, V>>
    const numStack: array<int>
    var stackTop: nat
    ghost var tree: Tree<K, V>
    ghost var frames: seq<Slot<K, V>>

    ghost predicate Valid()
      reads this, AvlTree.TreeCells(tree)
    {
      && AvlNodes.Valid(root, tree, kCmp)
      && nodeStack.Length == numStack.Length == AvlTree.STKMAX
    }

    /** The map this structure stands for. */
    ghost function Bindings(): map<K, V>
      reads this
    {
      AvlTree.MapOf(tree)
    }

    ghost function Cells(): set<AvlNode<K, V>>
      reads this
    {
      AvlTree.TreeCells(tree)
    }

    /** The node holding a key, as a set of at most one node. */
    ghost function CellOf(k: K): set<AvlNode<K, V>>
      reads this
    {
      match AvlTree.Find(tree, k, kCmp) case None => {} case Some(e) => {e.ptr}
    }

    constructor (cmp: (K, K) -> int)
      requires TotalOrder(cmp)
      ensures Valid() && kCmp == cmp && Bindings() == map[] && Cells() == {} && stackTop == 0 && frames == []
      ensures fresh(nodeStack) && fresh(numStack)
    {
      root, kCmp, stackTop := null, cmp, 0;
      nodeStack := new AvlNode?<K, V>[AvlTree.STKMAX](_ => null);
      numStack := new int[AvlTree.STKMAX](_ => 0);
      tree, frames := AvlTree.Leaf, [];
    }

    /** addToFM is map update; a key already present keeps its node and links no other. */
    method Add(k: K, v: V)
      requires Valid()
      modifies this`root, this`tree, Cells()
      ensures Valid()
      ensures Bindings() == old(Bindings())[k := v]
      ensures fresh(Cells() - old(Cells()))
      ensures k in old(Bindings()) ==> Cells() == old(Cells())
    {
      hide Rep, TotalOrder, AvlTree.Ordered, AvlTree.Balanced, AvlTree.Distinct, AvlTree.MapOf, AvlTree.Insert;
      CellsAllocated(tree);
      var node := new AvlNode(k, v);
      ghost var e := Entry(node, k, v);
      AvlTree.InsertKeeps(tree, e, kCmp);
      AvlTree.InsertIsUpdate(tree, e, kCmp);
      ghost var t := AvlTree.Insert(tree, e, kCmp).tree;
      var grew, prev;
      root, grew, prev := InsertWrk(root, node, kCmp, tree);
      tree := t;
    }

    method Lookup(k: K) returns (r: Option<V>)
      requires Valid()
      ensures r == if k in Bindings() then Some(Bindings()[k]) else None
    {
      AvlTree.FindIsLookup(tree, k, kCmp);
      var n := FindNode(root, k, kCmp, tree);
      r := if n == null then None else Some(n.val);
    }

    /** delFromFM removes exactly the binding of the key and unlinks exactly its node. */
    method Delete(k: K) returns (r: Option<V>)
      requires Valid()
      modifies this`root, this`tree, Cells()
      ensures Valid()
      ensures Bindings() == old(Bindings()) - {k}
      ensures r == if k in old(Bindings()) then Some(old(Bindings())[k]) else None
      ensures Cells() == old(Cells()) - old(CellOf(k))
    {
      hide Rep, TotalOrder, AvlTree.Ordered, AvlTree.Balanced, AvlTree.Distinct, AvlTree.TreeCells, AvlTree.MapOf;
      hide AvlTree.Find, AvlTree.Remove;
      CellsAllocated(tree);
      AvlTree.FindIsLookup(tree, k, kCmp);
      var node := FindNode(root, k, kCmp, tree);
      if node == null {
        r := None;
      } else {
        AvlTree.RemoveKeeps(tree, k, kCmp);
        AvlTree.RemoveIsRemoval(tree, k, kCmp);
        ghost var t := AvlTree.Remove(tree, k, kCmp).0;
        var ch;
        root, ch := RemoveWrk(root, node, kCmp, tree);
        tree := t;
        r := Some(node.val);
      }
    }
  
    /** dopyFM copies the map onto nodes of its own; values go through `dopyV`. */
    constructor Dopy(fm: WordFM<K, V>, dopyV: V -> V)
      requires fm.Valid() && fm.stackTop == 0
      ensures Valid() && kCmp == fm.kCmp && stackTop == 0
      ensures Bindings() == map k | k in fm.Bindings() :: dopyV(fm.Bindings()[k])
      ensures fresh(Cells()) && fresh(nodeStack) && fresh(numStack)
      ensures fm.Valid() && fm.Bindings() == old(fm.Bindings()) && fm.Cells() == old(fm.Cells())
    {
      hide TotalOrder, AvlTree.Ordered, AvlTree.Balanced, AvlTree.Distinct, AvlTree.MapOf, AvlTree.Copies;
      root, kCmp, stackTop := null, fm.kCmp, 0;
      nodeStack := new AvlNode?<K, V>[AvlTree.STKMAX](_ => null);
      numStack := new int[AvlTree.STKMAX](_ => 0);
      tree, frames := AvlTree.Leaf, [];
      new;
      CellsAllocated(fm.tree);
      if fm.root != null {
        var n;
        ghost var u;
        n, u := AvlNodes.Dopy(fm.root, dopyV, fm.tree);
        AvlTree.CopyKeeps(u, fm.tree, dopyV, kCmp);
        root, tree := n, u;
      } else {
        AvlTree.NothingBound(tree);
      }
    }

    // -------------------------------------------------------------- iteration

    /** The slot mirrors a subtree of the map. */
    ghost predicate Mirrors(i: nat, f: Slot<K, V>)
      requires i < nodeStack.Length && i < numStack.Length
      reads this, nodeStack, numStack, AvlTree.TreeCells(f.sub)
    {
      && f.sub.Node? && nodeStack[i] == f.sub.ptr && numStack[i] == f.num
      && Rep(f.sub.ptr, f.sub)
    }

    ghost predicate Iterating()
      reads this, nodeStack, numStack, Cells()
    {
      && Valid() && AvlTree.LeftDepth(tree) <= AvlTree.STKMAX
      && stackTop == |frames| <= AvlTree.STKMAX
      && WellStacked(frames, AvlTree.LeftDepth(tree))
      && (forall i :: 0 <= i < |frames| ==> AvlTree.TreeCells(frames[i].sub) <= Cells())
      && (forall i :: 0 <= i < |frames| ==> Mirrors(i, frames[i]))
    }

    /** The entries not yet delivered, in delivery order. */
    ghost function Remaining(): seq<Entry<AvlNode<K, V>, K, V>>
      requires WellStacked(frames, AvlTree.LeftDepth(tree))
      reads this
    {
      Pending(frames)
    }

    method Push(n: AvlNode<K, V>, i: int, ghost f: Slot<K, V>)
      requires Iterating() && f.sub.Node? && f.num == i && 1 <= i <= 3
      requires n == f.sub.ptr && Rep(n, f.sub) && AvlTree.TreeCells(f.sub) <= Cells()
      requires AvlTree.LeftDepth(f.sub) + stackTop <= AvlTree.LeftDepth(tree)
      modifies this`stackTop, this`frames, nodeStack, numStack
      ensures Iterating() && frames == old(frames) + [f]
    {
      hide TotalOrder, AvlTree.Ordered, AvlTree.Balanced, AvlTree.Distinct, AvlTree.TreeCells, AvlTree.LeftDepth;
      assert stackTop < AvlTree.STKMAX;
      nodeStack[stackTop] := n;
      numStack[stackTop] := i;
      stackTop := stackTop + 1;
      frames := frames + [f];
    }

    method Pop() returns (n: AvlNode<K, V>, i: int)
      requires Iterating() && stackTop > 0
      modifies this`stackTop, this`frames, nodeStack, numStack
      ensures Iterating() && |old(frames)| > 0 && frames == old(frames)[..|old(frames)| - 1]
      ensures var f := old(frames)[|old(frames)| - 1];
              && n == f.sub.ptr && i == f.num && Rep(n, f.sub) && AvlTree.TreeCells(f.sub) <= Cells()
    {
      hide TotalOrder, AvlTree.Ordered, AvlTree.Balanced, AvlTree.Distinct, AvlTree.TreeCells, AvlTree.LeftDepth;
      stackTop := stackTop - 1;
      assert Mirrors(stackTop, frames[stackTop]);
      n := nodeStack[stackTop];
      i := numStack[stackTop];
      nodeStack[stackTop] := null;
      numStack[stackTop] := 0;
      frames := frames[..|frames| - 1];
    }

    method ClearStack()
      requires Valid() && AvlTree.LeftDepth(tree) <= AvlTree.STKMAX
      modifies this`stackTop, this`frames, nodeStack, numStack
      ensures Iterating() && frames == []
    {
      CellsAllocated(tree);
      for i := 0 to AvlTree.STKMAX {
        nodeStack[i] := null;
        numStack[i] := 0;
      }
      stackTop, frames := 0, [];
    }

    /** initIterFM, for a map whose walk never needs a 33rd slot: everything is still to come, in ascending key order. */
    method InitIter()
      requires Valid() && AvlTree.LeftDepth(tree) <= AvlTree.STKMAX
      modifies this`stackTop, this`frames, nodeStack, numStack
      ensures Iterating() && Remaining() == AvlTree.InOrder(tree)
    {
      CellsAllocated(tree);
      ClearStack();
      if root != null {
        Push(root, 1, Frame(tree, 1));
        PushOne([], Frame(tree, 1));
      }
    }

    method VisitFirst(n: AvlNode<K, V>, ghost t: Tree<K, V>)
      requires Iterating() && t.Node?
      requires n == t.ptr && Rep(n, t) && AvlTree.TreeCells(t) <= Cells()
      requires AvlTree.LeftDepth(t) + stackTop <= AvlTree.LeftDepth(tree)
      modifies this`stackTop, this`frames, nodeStack, numStack
      ensures Iterating()
      ensures frames == old(frames) + [Frame(t, 2)] + if t.left.Node? then [Frame(t.left, 1)] else []
    {
      CellsAllocated(t);
      assert Rep(n.left, t.left);
      Push(n, 2, Frame(t, 2));
      if n.left != null { Push(n.left, 1, Frame(t.left, 1)); }
    }

    method VisitThird(n: AvlNode<K, V>, ghost t: Tree<K, V>)
      requires Iterating() && t.Node?
      requires n == t.ptr && Rep(n, t) && AvlTree.TreeCells(t) <= Cells()
      requires AvlTree.LeftDepth(t) + stackTop <= AvlTree.LeftDepth(tree)
      modifies this`stackTop, this`frames, nodeStack, numStack
      ensures Iterating()
      ensures frames == old(frames) + if t.right.Node? then [Frame(t.right, 1)] else []
    {
      assert Rep(n.right, t.right);
      if n.right != null { Push(n.right, 1, Frame(t.right, 1)); }
    }

    method VisitSecond(n: AvlNode<K, V>, ghost t: Tree<K, V>) returns (r: (K, V))
      requires Iterating() && t.Node?
      requires n == t.ptr && Rep(n, t) && AvlTree.TreeCells(t) <= Cells()
      requires AvlTree.LeftDepth(t) + stackTop <= AvlTree.LeftDepth(tree)
      modifies this`stackTop, this`frames, nodeStack, numStack
      ensures Iterating() && frames == old(frames) + [Frame(t, 3)]
      ensures r == (t.key, t.val)
    {
      Push(n, 3, Frame(t, 3));
      r := (n.key, n.val);
    }

    /** One turn of nextIterFM's loop. */
    method Visit() returns (r: Option<(K, V)>)
      requires Iterating() && stackTop > 0
      modifies this`stackTop, this`frames, nodeStack, numStack
      ensures Iterating() && |old(frames)| > 0 && frames == Turn(old(frames))
      ensures r.None? ==> Remaining() == old(Remaining()) && Visits(frames) < old(Visits(frames))
      ensures r.Some? ==>
                && |old(Remaining())| > 0
                && r.value == (old(Remaining())[0].key, old(Remaining())[0].val)
                && Remaining() == old(Remaining())[1..]
    {
      hide AvlNodes.Valid, TotalOrder, AvlTree.TreeCells, AvlTree.InOrder;
      ghost var t := frames[|frames| - 1].sub;
      ghost var rest := frames[..|frames| - 1];
      assert frames == rest + [frames[|frames| - 1]];
      var n, i := Pop();
      r := None;
      if i == 1 {
        FirstVisit(rest, t);
        VisitFirst(n, t);
      } else if i == 2 {
        SecondVisit(rest, t);
        var b := VisitSecond(n, t);
        r := Some(b);
      } else {
        ThirdVisit(rest, t);
        VisitThird(n, t);
      }
    }

    /** nextIterFM delivers the entries one by one, each once, then stays exhausted. */
    method NextIter() returns (r: Option<(K, V)>)
      requires Iterating()
      modifies this`stackTop, this`frames, nodeStack, numStack
      ensures Iterating()
      ensures old(Remaining()) == [] ==> r == None && Remaining() == []
      ensures old(Remaining()) != [] ==>
                && r == Some((old(Remaining())[0].key, old(Remaining())[0].val))
                && Remaining() == old(Remaining())[1..]
    {
      while stackTop > 0
        invariant Iterating() && Remaining() == old(Remaining())
        decreases Visits(frames)
      {
        r := Visit();
        if r.Some? { return; }
      }
      r := None;
    }
  }
}
