/** The AVL algorithm of cachegrind/cg_merge.c on immutable trees.

A `Tree` is a snapshot of the node graph hanging off a root pointer: each node
records the identity of its cell (`ptr`) next to the fields of that cell.  The
functions here are the source's algorithm, one per C function.  Their reference is
a sorted association list (`SortedList`): the in-order walk of the tree. */
module AvlTree {
  import opened SortedList

  datatype Tree<P, K, V> =
    | Leaf
    | Node(left: Tree<P, K, V>, ptr: P, key: K, val: V, bal: int, right: Tree<P, K, V>)
  {
    function Entry(): Entry<P, K, V>
      requires Node?
    {
      SortedList.Entry(ptr, key, val)
    }
  }

  // ---------------------------------------------------------------- what a tree means

  function Height<P, K, V>(t: Tree<P, K, V>): nat {
    if t.Leaf? then 0
    else if Height(t.left) < Height(t.right) then Height(t.right) + 1 else Height(t.left) + 1
  }

  /** The entries of the tree from left to right. */
  function InOrder<P, K, V>(t: Tree<P, K, V>): seq<Entry<P, K, V>> {
    if t.Leaf? then [] else InOrder(t.left) + [t.Entry()] + InOrder(t.right)
  }

  ghost predicate Ordered<P, K, V>(t: Tree<P, K, V>, cmp: (K, K) -> int) {
    Sorted(InOrder(t), cmp)
  }

  /** The cells linked into the tree. */
  ghost function TreeCells<P, K, V>(t: Tree<P, K, V>): set<P> {
    if t.Leaf? then {} else TreeCells(t.left) + {t.ptr} + TreeCells(t.right)
  }

  /** No cell is linked twice. */
  ghost predicate Distinct<P, K, V>(t: Tree<P, K, V>) {
    t.Node? ==>
      && Distinct(t.left) && Distinct(t.right)
      && t.ptr !in TreeCells(t.left) && t.ptr !in TreeCells(t.right)
      && TreeCells(t.left) !! TreeCells(t.right)
  }

  /** Every stored balance factor is exact and within -1..1. */
  ghost predicate Balanced<P, K, V>(t: Tree<P, K, V>) {
    t.Node? ==>
      && Balanced(t.left) && Balanced(t.right)
      && t.bal == Height(t.right) - Height(t.left)
      && -1 <= t.bal <= 1
  }

  // ---------------------------------------------------------------- swings

  function SwingLeft<P, K, V>(t: Tree<P, K, V>): (u: Tree<P, K, V>)
    requires t.Node? && t.right.Node?
    ensures InOrder(u) == InOrder(t)
  {
    t.right.(left := t.(right := t.right.left))
  }

  function SwingRight<P, K, V>(t: Tree<P, K, V>): (u: Tree<P, K, V>)
    requires t.Node? && t.left.Node?
    ensures InOrder(u) == InOrder(t)
  {
    t.left.(right := t.(left := t.left.right))
  }

  function Nasty<P, K, V>(t: Tree<P, K, V>): (u: Tree<P, K, V>)
    requires t.Node? && t.left.Node? && t.right.Node?
    ensures InOrder(u) == InOrder(t)
  {
    var lb := if t.bal == 1 then -1 else 0;
    var rb := if t.bal == -1 then 1 else 0;
    t.(bal := 0, left := t.left.(bal := lb), right := t.right.(bal := rb))
  }

  /** A single swing followed by the two balance stores the source makes after it. */
  function SingleLeft<P, K, V>(t: Tree<P, K, V>, rootBal: int, leftBal: int): (u: Tree<P, K, V>)
    requires t.Node? && t.right.Node?
    ensures InOrder(u) == InOrder(t)
  {
    var u := SwingLeft(t);
    u.(bal := rootBal, left := u.left.(bal := leftBal))
  }

  function SingleRight<P, K, V>(t: Tree<P, K, V>, rootBal: int, rightBal: int): (u: Tree<P, K, V>)
    requires t.Node? && t.left.Node?
    ensures InOrder(u) == InOrder(t)
  {
    var u := SwingRight(t);
    u.(bal := rootBal, right := u.right.(bal := rightBal))
  }

  function DoubleLeft<P, K, V>(t: Tree<P, K, V>): (u: Tree<P, K, V>)
    requires t.Node? && t.right.Node? && t.right.left.Node?
    ensures InOrder(u) == InOrder(t)
  {
    Nasty(SwingLeft(t.(right := SwingRight(t.right))))
  }

  function DoubleRight<P, K, V>(t: Tree<P, K, V>): (u: Tree<P, K, V>)
    requires t.Node? && t.left.Node? && t.left.right.Node?
    ensures InOrder(u) == InOrder(t)
  {
    Nasty(SwingRight(t.(left := SwingLeft(t.left))))
  }

  lemma SingleLeftBalances<P, K, V>(t: Tree<P, K, V>)
    requires t.Node? && t.right.Node? && Balanced(t.left) && Balanced(t.right)
    requires Height(t.right) == Height(t.left) + 2 && t.right.bal >= 0
    ensures var b := t.right.bal;
            var u := SingleLeft(t, b - 1, 1 - b);
            Balanced(u) && Height(u) == Height(t.right) + 1 - b
  {
    var b := t.right.bal;
    var a := t.(right := t.right.left, bal := 1 - b);
    assert Balanced(a) && Height(a) == Height(t.left) + 2 - b;
    assert SingleLeft(t, b - 1, 1 - b) == t.right.(left := a, bal := b - 1);
  }

  lemma SingleRightBalances<P, K, V>(t: Tree<P, K, V>)
    requires t.Node? && t.left.Node? && Balanced(t.left) && Balanced(t.right)
    requires Height(t.left) == Height(t.right) + 2 && t.left.bal <= 0
    ensures var b := t.left.bal;
            var u := SingleRight(t, b + 1, -1 - b);
            Balanced(u) && Height(u) == Height(t.left) + 1 + b
  {
    var b := t.left.bal;
    var a := t.(left := t.left.right, bal := -1 - b);
    assert Balanced(a) && Height(a) == Height(t.right) + 2 + b;
    assert SingleRight(t, b + 1, -1 - b) == t.left.(right := a, bal := b + 1);
  }

  lemma DoubleLeftBalances<P, K, V>(t: Tree<P, K, V>)
    requires t.Node? && t.right.Node? && Balanced(t.left) && Balanced(t.right)
    requires Height(t.right) == Height(t.left) + 2 && t.right.bal == -1
    ensures t.right.left.Node? && -1 <= t.right.left.bal <= 1
    ensures Balanced(DoubleLeft(t)) && Height(DoubleLeft(t)) == Height(t.right)
  {
    var c := t.right.left;
    assert c.Node?;
    var a := t.(right := c.left, bal := if c.bal == 1 then -1 else 0);
    var b := t.right.(left := c.right, bal := if c.bal == -1 then 1 else 0);
    assert Balanced(a) && Height(a) == Height(t.left) + 1;
    assert Balanced(b) && Height(b) == Height(t.left) + 1;
    assert DoubleLeft(t) == c.(left := a, right := b, bal := 0);
  }

  lemma DoubleRightBalances<P, K, V>(t: Tree<P, K, V>)
    requires t.Node? && t.left.Node? && Balanced(t.left) && Balanced(t.right)
    requires Height(t.left) == Height(t.right) + 2 && t.left.bal == 1
    ensures t.left.right.Node? && -1 <= t.left.right.bal <= 1
    ensures Balanced(DoubleRight(t)) && Height(DoubleRight(t)) == Height(t.left)
  {
    var c := t.left.right;
    assert c.Node?;
    var a := t.(left := c.right, bal := if c.bal == -1 then 1 else 0);
    var b := t.left.(right := c.left, bal := if c.bal == 1 then -1 else 0);
    assert Balanced(a) && Height(a) == Height(t.right) + 1;
    assert Balanced(b) && Height(b) == Height(t.right) + 1;
    assert DoubleRight(t) == c.(left := b, right := a, bal := 0);
  }

  // ---------------------------------------------------------------- rebalancing

  /** The left subtree has been replaced by `l`, one level taller.  Returns the new
      tree and whether it is itself taller. */
  function LeftGrew<P, K, V>(t: Tree<P, K, V>, l: Tree<P, K, V>): (r: (Tree<P, K, V>, bool))
    requires t.Node? && Balanced(t) && Balanced(l)
    requires l.Node? && l.bal != 0 && Height(l) == Height(t.left) + 1
    ensures Balanced(r.0) && Height(r.0) == Height(t) + if r.1 then 1 else 0
    ensures r.1 ==> r.0.ptr == t.ptr && r.0.bal != 0
    ensures InOrder(r.0) == InOrder(l) + [t.Entry()] + InOrder(t.right)
  {
    var u := t.(left := l, bal := t.bal - 1);
    if t.bal == 1 then (u, false)
    else if t.bal == 0 then (u, true)
    else if l.bal < 0 then SingleRightBalances(u); (SingleRight(u, 0, 0), false)
    else DoubleRightBalances(u); (DoubleRight(u), false)
  }

  function RightGrew<P, K, V>(t: Tree<P, K, V>, r: Tree<P, K, V>): (s: (Tree<P, K, V>, bool))
    requires t.Node? && Balanced(t) && Balanced(r)
    requires r.Node? && r.bal != 0 && Height(r) == Height(t.right) + 1
    ensures Balanced(s.0) && Height(s.0) == Height(t) + if s.1 then 1 else 0
    ensures s.1 ==> s.0.ptr == t.ptr && s.0.bal != 0
    ensures InOrder(s.0) == InOrder(t.left) + [t.Entry()] + InOrder(r)
  {
    var u := t.(right := r, bal := t.bal + 1);
    if t.bal == -1 then (u, false)
    else if t.bal == 0 then (u, true)
    else if r.bal > 0 then SingleLeftBalances(u); (SingleLeft(u, 0, 0), false)
    else DoubleLeftBalances(u); (DoubleLeft(u), false)
  }

  /** The left subtree has been replaced by `l`, one level shorter.  Returns the new
      tree and whether it is itself shorter. */
  function LeftShrank<P, K, V>(t: Tree<P, K, V>, l: Tree<P, K, V>): (r: (Tree<P, K, V>, bool))
    requires t.Node? && Balanced(t) && Balanced(l) && Height(l) + 1 == Height(t.left)
    ensures Balanced(r.0) && Height(r.0) == Height(t) - if r.1 then 1 else 0
    ensures t.bal <= 0 ==> r.0 == t.(left := l, bal := t.bal + 1)
    ensures InOrder(r.0) == InOrder(l) + [t.Entry()] + InOrder(t.right)
  {
    var u := t.(left := l, bal := t.bal + 1);
    if t.bal == -1 then (u, true)
    else if t.bal == 0 then (u, false)
    else if t.right.bal == 0 then SingleLeftBalances(u); (SingleLeft(u, -1, 1), false)
    else if t.right.bal == 1 then SingleLeftBalances(u); (SingleLeft(u, 0, 0), true)
    else DoubleLeftBalances(u); (DoubleLeft(u), true)
  }

  function RightShrank<P, K, V>(t: Tree<P, K, V>, r: Tree<P, K, V>): (s: (Tree<P, K, V>, bool))
    requires t.Node? && Balanced(t) && Balanced(r) && Height(r) + 1 == Height(t.right)
    ensures Balanced(s.0) && Height(s.0) == Height(t) - if s.1 then 1 else 0
    ensures t.bal >= 0 ==> s.0 == t.(right := r, bal := t.bal - 1)
    ensures InOrder(s.0) == InOrder(t.left) + [t.Entry()] + InOrder(r)
  {
    var u := t.(right := r, bal := t.bal - 1);
    if t.bal == 1 then (u, true)
    else if t.bal == 0 then (u, false)
    else if t.left.bal == 0 then SingleRightBalances(u); (SingleRight(u, 1, -1), false)
    else if t.left.bal == -1 then SingleRightBalances(u); (SingleRight(u, 0, 0), true)
    else DoubleRightBalances(u); (DoubleRight(u), true)
  }

  // ---------------------------------------------------------------- insertion

  datatype Inserted<P, K, V> = Inserted(tree: Tree<P, K, V>, grew: bool, prev: Option<V>)

  function Insert<P, K, V>(t: Tree<P, K, V>, e: Entry<P, K, V>, cmp: (K, K) -> int): (r: Inserted<P, K, V>)
    requires Balanced(t)
    ensures Balanced(r.tree)
    ensures Height(r.tree) == Height(t) + if r.grew then 1 else 0
    ensures r.tree.Node? && (r.grew && t.Node? ==> r.tree.ptr == t.ptr && r.tree.bal != 0)
  {
    if t.Leaf? then Inserted(Node(Leaf, e.ptr, e.key, e.val, 0, Leaf), true, None)
    else
      var c := cmp(t.key, e.key);
      if c > 0 then
        if t.left.Node? then
          var i := Insert(t.left, e, cmp);
          if i.grew then
            var g := LeftGrew(t, i.tree);
            Inserted(g.0, g.1, i.prev)
          else Inserted(t.(left := i.tree), false, i.prev)
        else
          Inserted(t.(left := Node(Leaf, e.ptr, e.key, e.val, 0, Leaf), bal := t.bal - 1), t.bal == 0, None)
      else if c < 0 then
        if t.right.Node? then
          var i := Insert(t.right, e, cmp);
          if i.grew then
            var g := RightGrew(t, i.tree);
            Inserted(g.0, g.1, i.prev)
          else Inserted(t.(right := i.tree), false, i.prev)
        else
          Inserted(t.(right := Node(Leaf, e.ptr, e.key, e.val, 0, Leaf), bal := t.bal + 1), t.bal == 0, None)
      else Inserted(t.(val := e.val), false, Some(t.val))
  }

  // ---------------------------------------------------------------- removal

  function Leftmost<P, K, V>(t: Tree<P, K, V>): (n: Tree<P, K, V>)
    requires t.Node?
    ensures n.Node? && n.left.Leaf? && InOrder(t)[0] == n.Entry()
  {
    if t.left.Leaf? then t else Leftmost(t.left)
  }

  function Rightmost<P, K, V>(t: Tree<P, K, V>): (n: Tree<P, K, V>)
    requires t.Node?
    ensures n.Node? && n.right.Leaf? && InOrder(t)[|InOrder(t)| - 1] == n.Entry()
  {
    if t.right.Leaf? then t else Rightmost(t.right)
  }

  /** Result of a removal: the new tree and whether it is one level shorter. */
  ghost predicate Shrinks<P, K, V>(t: Tree<P, K, V>, r: (Tree<P, K, V>, bool)) {
    Balanced(r.0) && Height(r.0) == Height(t) - if r.1 then 1 else 0
  }

  function Remove<P, K, V>(t: Tree<P, K, V>, k: K, cmp: (K, K) -> int): (r: (Tree<P, K, V>, bool))
    requires Balanced(t)
    ensures Shrinks(t, r)
    decreases t, 1
  {
    if t.Leaf? then (t, false)
    else
      var c := cmp(t.key, k);
      if c > 0 then RemoveLeft(t, k, cmp)
      else if c < 0 then RemoveRight(t, k, cmp)
      else RemoveRoot(t, cmp)
  }

  function RemoveLeft<P, K, V>(t: Tree<P, K, V>, k: K, cmp: (K, K) -> int): (r: (Tree<P, K, V>, bool))
    requires Balanced(t) && t.Node?
    ensures Shrinks(t, r)
    ensures t.bal <= 0 ==> r.0.Node? && r.0 == t.(left := Remove(t.left, k, cmp).0, bal := r.0.bal)
    decreases t.left, 2
  {
    var i := Remove(t.left, k, cmp);
    if i.1 then LeftShrank(t, i.0) else (t.(left := i.0), false)
  }

  function RemoveRight<P, K, V>(t: Tree<P, K, V>, k: K, cmp: (K, K) -> int): (r: (Tree<P, K, V>, bool))
    requires Balanced(t) && t.Node?
    ensures Shrinks(t, r)
    ensures t.bal >= 0 ==> r.0.Node? && r.0 == t.(right := Remove(t.right, k, cmp).0, bal := r.0.bal)
    decreases t.right, 2
  {
    var i := Remove(t.right, k, cmp);
    if i.1 then RightShrank(t, i.0) else (t.(right := i.0), false)
  }

  function RemoveRoot<P, K, V>(t: Tree<P, K, V>, cmp: (K, K) -> int): (r: (Tree<P, K, V>, bool))
    requires Balanced(t) && t.Node?
    ensures Shrinks(t, r)
    decreases t, 0
  {
    if t.left.Leaf? then (t.right, true)
    else if t.right.Leaf? then (t.left, true)
    else
      var a := if t.bal < 0 then Rightmost(t.left) else Leftmost(t.right);
      var i := if t.bal < 0 then RemoveLeft(t, a.key, cmp) else RemoveRight(t, a.key, cmp);
      (i.0.(ptr := a.ptr, key := a.key, val := a.val), i.0.bal == 0 && i.1)
  }

  // ---------------------------------------------------------------- refinement of the sorted list

  lemma OrderedParts<P, K(!new), V>(t: Tree<P, K, V>, cmp: (K, K) -> int)
    requires t.Node? && Ordered(t, cmp)
    ensures Ordered(t.left, cmp) && Ordered(t.right, cmp)
    ensures AllBelow(InOrder(t.left), t.key, cmp) && AllAbove(InOrder(t.right), t.key, cmp)
  {
    SortedSplit(InOrder(t.left), t.Entry(), InOrder(t.right), cmp);
  }

  function Find<P, K, V>(t: Tree<P, K, V>, k: K, cmp: (K, K) -> int): Option<Entry<P, K, V>> {
    if t.Leaf? then None
    else
      var c := cmp(t.key, k);
      if c > 0 then Find(t.left, k, cmp)
      else if c < 0 then Find(t.right, k, cmp)
      else Some(t.Entry())
  }

  /** The search path finds the entry a full scan would find. */
  lemma {:induction false} FindScans<P, K(!new), V>(t: Tree<P, K, V>, k: K, cmp: (K, K) -> int)
    requires TotalOrder(cmp) && Ordered(t, cmp)
    ensures Find(t, k, cmp) == Get(InOrder(t), k, cmp)
  {
    if t.Node? {
      OrderedParts(t, cmp);
      if cmp(t.key, k) > 0 {
        FindScans(t.left, k, cmp);
        GetLeftOf(InOrder(t.left), t.Entry(), InOrder(t.right), k, cmp);
      } else if cmp(t.key, k) < 0 {
        FindScans(t.right, k, cmp);
        GetRightOf(InOrder(t.left), t.Entry(), InOrder(t.right), k, cmp);
      } else {
        GetAt(InOrder(t.left), t.Entry(), InOrder(t.right), k, cmp);
      }
    }
  }

  /** Inserting into the tree is inserting into the sorted list. */
  lemma {:induction false} InsertIsPut<P, K(!new), V>(t: Tree<P, K, V>, e: Entry<P, K, V>, cmp: (K, K) -> int)
    requires TotalOrder(cmp) && Ordered(t, cmp) && Balanced(t)
    ensures InOrder(Insert(t, e, cmp).tree) == Put(InOrder(t), e, cmp)
  {
    if t.Node? {
      OrderedParts(t, cmp);
      if cmp(t.key, e.key) > 0 {
        InsertIsPut(t.left, e, cmp);
        PutBefore(InOrder(t.left), t.Entry(), InOrder(t.right), e, cmp);
      } else if cmp(t.key, e.key) < 0 {
        InsertIsPut(t.right, e, cmp);
        PutRightOf(InOrder(t.left), t.Entry(), InOrder(t.right), e, cmp);
      } else {
        PutAt(InOrder(t.left), t.Entry(), InOrder(t.right), e, cmp);
      }
    }
  }

  /** The value reported as displaced is the one the key was bound to. */
  lemma {:induction false} InsertReportsPrevious<P, K(!new), V>(t: Tree<P, K, V>, e: Entry<P, K, V>, cmp: (K, K) -> int)
    requires Balanced(t)
    ensures Insert(t, e, cmp).prev ==
            match Find(t, e.key, cmp) case None => None case Some(f) => Some(f.val)
  {
    if t.Node? {
      InsertReportsPrevious(t.left, e, cmp);
      InsertReportsPrevious(t.right, e, cmp);
    }
  }

  /** Removing from the tree is removing from the sorted list. */
  lemma {:induction false} RemoveIsDrop<P, K(!new), V>(t: Tree<P, K, V>, k: K, cmp: (K, K) -> int)
    requires TotalOrder(cmp) && Ordered(t, cmp) && Balanced(t)
    ensures InOrder(Remove(t, k, cmp).0) == Drop(InOrder(t), k, cmp)
    decreases t, 1
  {
    if t.Node? {
      OrderedParts(t, cmp);
      if cmp(t.key, k) > 0 {
        RemoveIsDrop(t.left, k, cmp);
        DropLeftOf(InOrder(t.left), t.Entry(), InOrder(t.right), k, cmp);
      } else if cmp(t.key, k) < 0 {
        RemoveIsDrop(t.right, k, cmp);
        DropRightOf(InOrder(t.left), t.Entry(), InOrder(t.right), k, cmp);
      } else {
        RemoveRootConcats(t, cmp);
        DropAt(InOrder(t.left), t.Entry(), InOrder(t.right), k, cmp);
      }
    }
  }

  /** The replacement entry comes out of the subtree it was found in and takes the root's place. */
  lemma {:induction false} RemoveRootConcats<P, K(!new), V>(t: Tree<P, K, V>, cmp: (K, K) -> int)
    requires TotalOrder(cmp) && Ordered(t, cmp) && Balanced(t) && t.Node?
    ensures InOrder(RemoveRoot(t, cmp).0) == InOrder(t.left) + InOrder(t.right)
    decreases t, 0
  {
    hide *;
    SoundParts(t, cmp);
    RootReplaced(t, cmp);
    if t.left.Node? && t.right.Node? {
      if t.bal < 0 { RemoveRightmost(t.left, cmp); } else { RemoveLeftmost(t.right, cmp); }
    }
  }

  lemma SoundParts<P, K(!new), V>(t: Tree<P, K, V>, cmp: (K, K) -> int)
    requires Ordered(t, cmp) && Balanced(t) && t.Node?
    ensures Ordered(t.left, cmp) && Ordered(t.right, cmp) && Balanced(t.left) && Balanced(t.right)
  {
    OrderedParts(t, cmp);
  }

  lemma RootReplaced<P, K(!new), V>(t: Tree<P, K, V>, cmp: (K, K) -> int)
    requires Balanced(t) && t.Node?
    ensures var u := RemoveRoot(t, cmp).0;
            if t.left.Leaf? || t.right.Leaf? then InOrder(u) == InOrder(t.left) + InOrder(t.right)
            else if t.bal < 0 then
              var a := Rightmost(t.left);
              InOrder(u) == InOrder(Remove(t.left, a.key, cmp).0) + [a.Entry()] + InOrder(t.right)
            else
              var a := Leftmost(t.right);
              InOrder(u) == InOrder(t.left) + [a.Entry()] + InOrder(Remove(t.right, a.key, cmp).0)
  {
    hide Remove, Shrinks;
  }

  lemma {:induction false} RemoveRightmost<P, K(!new), V>(t: Tree<P, K, V>, cmp: (K, K) -> int)
    requires TotalOrder(cmp) && Ordered(t, cmp) && Balanced(t) && t.Node?
    ensures InOrder(t) == InOrder(Remove(t, Rightmost(t).key, cmp).0) + [Rightmost(t).Entry()]
    decreases t, 2
  {
    RemoveIsDrop(t, Rightmost(t).key, cmp);
    DropLast(InOrder(t), cmp);
  }

  lemma {:induction false} RemoveLeftmost<P, K(!new), V>(t: Tree<P, K, V>, cmp: (K, K) -> int)
    requires TotalOrder(cmp) && Ordered(t, cmp) && Balanced(t) && t.Node?
    ensures InOrder(t) == [Leftmost(t).Entry()] + InOrder(Remove(t, Leftmost(t).key, cmp).0)
    decreases t, 2
  {
    RemoveIsDrop(t, Leftmost(t).key, cmp);
  }

  // ---------------------------------------------------------------- cells

  lemma {:induction false} CellsOfWalk<P, K, V>(t: Tree<P, K, V>)
    ensures TreeCells(t) == Cells(InOrder(t))
    ensures Distinct(t) <==> DistinctCells(InOrder(t))
  {
    if t.Node? {
      CellsOfWalk(t.left);
      CellsOfWalk(t.right);
      CellsConcat(InOrder(t.left), [t.Entry()]);
      CellsConcat(InOrder(t.left) + [t.Entry()], InOrder(t.right));
    }
  }

  /** Trees with the same walk link the same cells. */
  lemma SameWalk<P, K, V>(t: Tree<P, K, V>, u: Tree<P, K, V>)
    requires InOrder(t) == InOrder(u)
    ensures TreeCells(t) == TreeCells(u) && (Distinct(t) <==> Distinct(u))
  {
    CellsOfWalk(t);
    CellsOfWalk(u);
  }

  /** Everything an insertion guarantees except balance: see `Insert` for that. */
  lemma InsertKeeps<P, K(!new), V>(t: Tree<P, K, V>, e: Entry<P, K, V>, cmp: (K, K) -> int)
    requires TotalOrder(cmp) && Ordered(t, cmp) && Balanced(t) && Distinct(t) && e.ptr !in TreeCells(t)
    ensures var i := Insert(t, e, cmp);
            && Ordered(i.tree, cmp) && Distinct(i.tree)
            && TreeCells(i.tree) == TreeCells(t) + if i.prev.Some? then {} else {e.ptr}
  {
    var i := Insert(t, e, cmp);
    InsertIsPut(t, e, cmp);
    InsertReportsPrevious(t, e, cmp);
    FindScans(t, e.key, cmp);
    CellsOfWalk(t);
    CellsOfWalk(i.tree);
    PutCells(InOrder(t), e, cmp);
    PutSorted(InOrder(t), e, cmp);
  }

  /** Everything a removal guarantees except balance: see `Remove` for that. */
  lemma RemoveKeeps<P, K(!new), V>(t: Tree<P, K, V>, k: K, cmp: (K, K) -> int)
    requires TotalOrder(cmp) && Ordered(t, cmp) && Balanced(t) && Distinct(t)
    ensures var u := Remove(t, k, cmp).0;
            var f := Find(t, k, cmp);
            && Ordered(u, cmp) && Distinct(u)
            && TreeCells(u) == TreeCells(t) - (if f.Some? then {f.value.ptr} else {})
            && (f.Some? ==> f.value.ptr in TreeCells(t))
  {
    RemoveIsDrop(t, k, cmp);
    FindScans(t, k, cmp);
    CellsOfWalk(t);
    CellsOfWalk(Remove(t, k, cmp).0);
    DropCells(InOrder(t), k, cmp);
    DropSorted(InOrder(t), k, cmp);
  }

  /** The finite map a tree stands for. */
  ghost function MapOf<P, K, V>(t: Tree<P, K, V>): map<K, V> {
    AsMap(InOrder(t))
  }

  /** Searching the tree is looking up in the map. */
  lemma FindIsLookup<P, K(!new), V>(t: Tree<P, K, V>, k: K, cmp: (K, K) -> int)
    requires TotalOrder(cmp) && Ordered(t, cmp)
    ensures match Find(t, k, cmp)
            case None => k !in MapOf(t)
            case Some(e) => e.key == k && k in MapOf(t) && MapOf(t)[k] == e.val
  {
    FindScans(t, k, cmp);
    GetIsLookup(InOrder(t), k, cmp);
  }

  /** Inserting is map update. */
  lemma InsertIsUpdate<P, K(!new), V>(t: Tree<P, K, V>, e: Entry<P, K, V>, cmp: (K, K) -> int)
    requires TotalOrder(cmp) && Ordered(t, cmp) && Balanced(t)
    ensures MapOf(Insert(t, e, cmp).tree) == MapOf(t)[e.key := e.val]
    ensures Insert(t, e, cmp).prev == if e.key in MapOf(t) then Some(MapOf(t)[e.key]) else None
  {
    InsertIsPut(t, e, cmp);
    PutIsUpdate(InOrder(t), e, cmp);
    InsertReportsPrevious(t, e, cmp);
    FindIsLookup(t, e.key, cmp);
  }

  /** Removing is map removal. */
  lemma RemoveIsRemoval<P, K(!new), V>(t: Tree<P, K, V>, k: K, cmp: (K, K) -> int)
    requires TotalOrder(cmp) && Ordered(t, cmp) && Balanced(t)
    ensures MapOf(Remove(t, k, cmp).0) == MapOf(t) - {k}
  {
    RemoveIsDrop(t, k, cmp);
    DropIsRemove(InOrder(t), k, cmp);
  }

  /** The in-order neighbour picked to replace the root is found by the search path, on the
      side it was picked from. */
  lemma NeighbourFound<P, K(!new), V>(t: Tree<P, K, V>, cmp: (K, K) -> int)
    requires TotalOrder(cmp) && Ordered(t, cmp) && t.Node? && t.left.Node? && t.right.Node?
    ensures var n := if t.bal < 0 then Rightmost(t.left) else Leftmost(t.right);
            && Find(t, n.key, cmp) == Some(n.Entry())
            && (if t.bal < 0 then cmp(t.key, n.key) > 0 else cmp(t.key, n.key) < 0)
  {
    var l, m, r := InOrder(t.left), t.Entry(), InOrder(t.right);
    OrderedParts(t, cmp);
    if t.bal < 0 {
      FindScans(t.left, l[|l| - 1].key, cmp);
      GetMember(l, |l| - 1, cmp);
    } else {
      FindScans(t.right, r[0].key, cmp);
      GetMember(r, 0, cmp);
    }
  }

  // ---------------------------------------------------------------- copies

  /** `u` copies `t` node for node, with each value passed through `dopy`. */
  ghost predicate Copies<P, K, V>(u: Tree<P, K, V>, t: Tree<P, K, V>, dopy: V -> V) {
    if t.Leaf? then u.Leaf?
    else
      && u.Node? && u.key == t.key && u.val == dopy(t.val) && u.bal == t.bal
      && Copies(u.left, t.left, dopy) && Copies(u.right, t.right, dopy)
  }

  lemma {:induction false} CopyWalk<P, K, V>(u: Tree<P, K, V>, t: Tree<P, K, V>, dopy: V -> V)
    requires Copies(u, t, dopy)
    ensures |InOrder(u)| == |InOrder(t)| && Height(u) == Height(t) && (Balanced(t) ==> Balanced(u))
    ensures forall i :: 0 <= i < |InOrder(t)| ==>
              InOrder(u)[i].key == InOrder(t)[i].key && InOrder(u)[i].val == dopy(InOrder(t)[i].val)
  {
    if t.Node? {
      CopyWalk(u.left, t.left, dopy);
      CopyWalk(u.right, t.right, dopy);
    }
  }

  lemma NothingBound<P, K, V>(t: Tree<P, K, V>)
    requires t.Leaf?
    ensures MapOf(t) == map[]
  {
  }

  /** A copy is a valid tree holding the copied values under the same keys. */
  lemma CopyKeeps<P, K(!new), V>(u: Tree<P, K, V>, t: Tree<P, K, V>, dopy: V -> V, cmp: (K, K) -> int)
    requires Copies(u, t, dopy) && Ordered(t, cmp) && Balanced(t)
    ensures Ordered(u, cmp) && Balanced(u)
    ensures MapOf(u) == map k | k in MapOf(t) :: dopy(MapOf(t)[k])
  {
    CopyWalk(u, t, dopy);
    AsMapPointwise(InOrder(u), InOrder(t), dopy);
  }

  // ---------------------------------------------------------------- height against size

  function Fib(n: nat): nat {
    if n < 2 then n else Fib(n - 2) + Fib(n - 1)
  }

  lemma {:induction false} FibMonotone(m: nat, n: nat)
    requires m <= n
    ensures Fib(m) <= Fib(n)
    decreases n
  {
    if m < n && n >= 2 { FibMonotone(m, n - 1); }
  }

  lemma FibSplit(l: nat, r: nat, h: nat)
    requires -1 <= l - r <= 1 && h == if l < r then r + 1 else l + 1
    ensures Fib(h + 2) <= Fib(l + 2) + Fib(r + 2)
  {
    FibMonotone(h, l + 2);
    FibMonotone(h, r + 2);
  }

  lemma FibThirtyFive() returns (n: nat)
    ensures n == 35 && Fib(n) == 9227465
  {
    n := 35;
    assert Fib(14) == 377 && Fib(15) == 610;
    assert Fib(22) == 17711 && Fib(23) == 28657;
    assert Fib(29) == 514229 && Fib(30) == 832040;
  }

  lemma FibFromThirtyFive(n: nat)
    requires n >= 35
    ensures Fib(n) >= 9227465
  {
    var m := FibThirtyFive();
    FibMonotone(m, n);
  }

  /** A balanced tree of height h has at least Fib(h+2)-1 entries. */
  lemma {:induction false} HeightNeedsEntries<P, K, V>(t: Tree<P, K, V>)
    requires Balanced(t)
    ensures |InOrder(t)| + 1 >= Fib(Height(t) + 2)
  {
    hide *;
    if t.Node? {
      BalancedParts(t);
      HeightNeedsEntries(t.left);
      HeightNeedsEntries(t.right);
      FibSplit(Height(t.left), Height(t.right), Height(t));
    } else {
      NoEntries(t);
    }
  }

  lemma BalancedParts<P, K, V>(t: Tree<P, K, V>)
    requires Balanced(t) && t.Node?
    ensures Balanced(t.left) && Balanced(t.right) && -1 <= Height(t.left) - Height(t.right) <= 1
    ensures Height(t) == if Height(t.left) < Height(t.right) then Height(t.right) + 1 else Height(t.left) + 1
    ensures |InOrder(t)| == |InOrder(t.left)| + 1 + |InOrder(t.right)|
  {
  }

  lemma NoEntries<P, K, V>(t: Tree<P, K, V>)
    requires t.Leaf?
    ensures |InOrder(t)| + 1 >= Fib(Height(t) + 2)
  {
  }

  const STKMAX: nat := 32

  /** How many slots an in-order walk needs: going left leaves a slot behind, going right does not. */
  function LeftDepth<P, K, V>(t: Tree<P, K, V>): (d: nat)
    ensures t.Node? ==> d >= 1
  {
    if t.Leaf? then 0
    else if 1 + LeftDepth(t.left) >= LeftDepth(t.right) then 1 + LeftDepth(t.left)
    else LeftDepth(t.right)
  }

  lemma {:induction false} LeftDepthWithinHeight<P, K, V>(t: Tree<P, K, V>)
    ensures LeftDepth(t) <= Height(t)
  {
    if t.Node? {
      LeftDepthWithinHeight(t.left);
      LeftDepthWithinHeight(t.right);
    }
  }

  /** Below Fib(35)-1 entries a balanced tree never needs more than the 32 slots. */
  lemma SmallTreesFitStack<P, K, V>(t: Tree<P, K, V>)
    requires Balanced(t) && |InOrder(t)| < 9227464
    ensures LeftDepth(t) <= Height(t) <= STKMAX
  {
    HeightNeedsEntries(t);
    LeftDepthWithinHeight(t);
    if Height(t) > STKMAX { FibFromThirtyFive(Height(t) + 2); }
  }

  /** A sparsest balanced tree of height h, deeper on the left, with consecutive keys from lo. */
  function Sparse(h: nat, lo: int): Tree<int, int, int> {
    if h == 0 then Leaf
    else
      var l := Sparse(h - 1, lo);
      var k := lo + |InOrder(l)|;
      if h == 1 then Node(l, k, k, 0, 0, Leaf)
      else Node(l, k, k, 0, -1, Sparse(h - 2, k + 1))
  }

  ghost predicate Sparsest<P, K, V>(t: Tree<P, K, V>, h: nat) {
    Balanced(t) && Height(t) == LeftDepth(t) == h && |InOrder(t)| == Fib(h + 2) - 1
  }

  lemma LeftHeavy<P, K, V>(t: Tree<P, K, V>, h: nat)
    requires t.Node? && h >= 2 && Sparsest(t.left, h - 1) && Sparsest(t.right, h - 2) && t.bal == -1
    ensures Sparsest(t, h)
  {
    assert Fib(h + 2) == Fib(h) + Fib(h + 1);
    assert InOrder(t) == InOrder(t.left) + [t.Entry()] + InOrder(t.right);
  }

  lemma SparseStart(lo: int)
    ensures Sparsest(Sparse(0, lo), 0) && Sparsest(Sparse(1, lo), 1)
  {
    assert Sparse(1, lo) == Node(Leaf, lo, lo, 0, 0, Leaf);
  }

  lemma {:induction false} SparseShape(h: nat, lo: int)
    ensures Sparsest(Sparse(h, lo), h)
  {
    hide Sparsest, InOrder;
    if h < 2 {
      SparseStart(lo);
    } else {
      SparseShape(h - 1, lo);
      SparseShape(h - 2, lo + |InOrder(Sparse(h - 1, lo))| + 1);
      LeftHeavy(Sparse(h, lo), h);
    }
  }

  lemma {:induction false} SparseWalk(h: nat, lo: int, i: nat)
    requires i < |InOrder(Sparse(h, lo))|
    ensures InOrder(Sparse(h, lo))[i] == Entry(lo + i, lo + i, 0)
    decreases h
  {
    var l := Sparse(h - 1, lo);
    var n := |InOrder(l)|;
    if i < n {
      SparseWalk(h - 1, lo, i);
    } else if i > n && h > 1 {
      SparseWalk(h - 2, lo + n + 1, i - n - 1);
    }
  }

  lemma SparseWitness(h: nat) returns (t: Tree<int, int, int>)
    ensures Balanced(t) && Ordered(t, (a: int, b: int) => a - b)
    ensures |InOrder(t)| == Fib(h + 2) - 1 && LeftDepth(t) == h
  {
    t := Sparse(h, 0);
    SparseShape(h, 0);
    forall i | 0 <= i < |InOrder(t)| ensures InOrder(t)[i] == Entry(i, i, 0) { SparseWalk(h, 0, i); }
    hide Sparse, InOrder, Fib, LeftDepth, Balanced;
  }

  /** The size bound is tight: a valid tree of exactly 9227464 entries, far fewer than the 2^32 the
      source's comment allows, needs a 33rd slot. */
  lemma BoundIsTight() returns (t: Tree<int, int, int>)
    ensures Balanced(t) && Ordered(t, (a: int, b: int) => a - b)
    ensures |InOrder(t)| == 9227464 && LeftDepth(t) == STKMAX + 1
  {
    var n := FibThirtyFive();
    t := SparseWitness(n - 2);
  }
}
