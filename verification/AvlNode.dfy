/** The pointer code of the AVL tree: every method follows the C function of the same
purpose statement by statement, and is proved to turn the tree it is given into the
tree that `AvlTree` computes.  Where C passes `AvlNode**`, the method returns the new
value of the pointer. */
module AvlNodes {
  import opened SortedList
  import AvlTree

  class AvlNode<K, V> {
    var key: K
    var val: V
    var left: AvlNode?<K, V>
    var right: AvlNode?<K, V>
    var balance: int

    constructor (k: K, v: V)
      ensures key == k && val == v && left == null && right == null
    {
      key, val, left, right, balance := k, v, null, null, 0;
    }
  }

  type Tree<K, V> = AvlTree.Tree<AvlNode<K, V>, K, V>

  /** The nodes reachable from `n` are exactly the tree `t`. */
  ghost predicate Rep<K, V>(n: AvlNode?<K, V>, t: Tree<K, V>)
    reads AvlTree.TreeCells(t)
    decreases t
  {
    if t.Leaf? then n == null
    else
      && n == t.ptr
      && n.key == t.key && n.val == t.val && n.balance == t.bal
      && Rep(n.left, t.left) && Rep(n.right, t.right)
  }

  method SwingLeft<K, V>(root: AvlNode<K, V>, ghost t: Tree<K, V>) returns (r: AvlNode<K, V>)
    requires Rep(root, t) && AvlTree.Distinct(t) && t.Node? && t.right.Node?
    modifies root`left, root`right, root`balance, t.right.ptr`left, t.right.ptr`right, t.right.ptr`balance
    ensures Rep(r, AvlTree.SwingLeft(t))
  {
    var a := root;
    var b := a.right;
    r := b;
    a.right := b.left;
    b.left := a;
  }

  method SwingRight<K, V>(root: AvlNode<K, V>, ghost t: Tree<K, V>) returns (r: AvlNode<K, V>)
    requires Rep(root, t) && AvlTree.Distinct(t) && t.Node? && t.left.Node?
    modifies root`left, root`right, root`balance, t.left.ptr`left, t.left.ptr`right, t.left.ptr`balance
    ensures Rep(r, AvlTree.SwingRight(t))
  {
    var a := root;
    var b := a.left;
    r := b;
    a.left := b.right;
    b.right := a;
  }

  method Nasty<K, V>(root: AvlNode<K, V>, ghost t: Tree<K, V>)
    requires Rep(root, t) && AvlTree.Distinct(t) && t.Node? && t.left.Node? && t.right.Node?
    requires -1 <= t.bal <= 1
    modifies root`balance, t.left.ptr`balance, t.right.ptr`balance
    ensures Rep(root, AvlTree.Nasty(t))
  {
    if root.balance == -1 {
      root.left.balance := 0;
      root.right.balance := 1;
    } else if root.balance == 1 {
      root.left.balance := -1;
      root.right.balance := 0;
    } else {
      root.left.balance := 0;
      root.right.balance := 0;
    }
    root.balance := 0;
  }

  /** Swing left, then the two balance stores that follow it. */
  method SingleLeft<K, V>(root: AvlNode<K, V>, rootBal: int, leftBal: int, ghost t: Tree<K, V>) returns (r: AvlNode<K, V>)
    requires Rep(root, t) && AvlTree.Distinct(t) && t.Node? && t.right.Node?
    modifies root`left, root`right, root`balance, t.right.ptr`left, t.right.ptr`right, t.right.ptr`balance
    ensures Rep(r, AvlTree.SingleLeft(t, rootBal, leftBal))
  {
    r := SwingLeft(root, t);
    AvlTree.SameWalk(t, AvlTree.SwingLeft(t));
    r.balance := rootBal;
    r.left.balance := leftBal;
  }

  method SingleRight<K, V>(root: AvlNode<K, V>, rootBal: int, rightBal: int, ghost t: Tree<K, V>) returns (r: AvlNode<K, V>)
    requires Rep(root, t) && AvlTree.Distinct(t) && t.Node? && t.left.Node?
    modifies root`left, root`right, root`balance, t.left.ptr`left, t.left.ptr`right, t.left.ptr`balance
    ensures Rep(r, AvlTree.SingleRight(t, rootBal, rightBal))
  {
    r := SwingRight(root, t);
    AvlTree.SameWalk(t, AvlTree.SwingRight(t));
    r.balance := rootBal;
    r.right.balance := rightBal;
  }

  method DoubleLeft<K, V>(root: AvlNode<K, V>, ghost t: Tree<K, V>) returns (r: AvlNode<K, V>)
    requires Rep(root, t) && AvlTree.Distinct(t)
    requires t.Node? && t.right.Node? && t.right.left.Node? && -1 <= t.right.left.bal <= 1
    modifies AvlTree.TreeCells(t)`left, AvlTree.TreeCells(t)`right, AvlTree.TreeCells(t)`balance
    ensures Rep(r, AvlTree.DoubleLeft(t))
  {
    ghost var u := t.(right := AvlTree.SwingRight(t.right));
    CellsAllocated(t.left);
    assert Rep(root.right, t.right) && Rep(root.right.left, t.right.left);
    assert t.right.ptr in AvlTree.TreeCells(t.right) && t.right.left.ptr in AvlTree.TreeCells(t.right);
    var b := SwingRight(root.right, t.right);
    AvlTree.SameWalk(t.right, AvlTree.SwingRight(t.right));
    root.right := b;
    assert Rep(root.left, t.left);
    r := SwingLeft(root, u);
    AvlTree.SameWalk(u, AvlTree.SwingLeft(u));
    Nasty(r, AvlTree.SwingLeft(u));
  }

  method DoubleRight<K, V>(root: AvlNode<K, V>, ghost t: Tree<K, V>) returns (r: AvlNode<K, V>)
    requires Rep(root, t) && AvlTree.Distinct(t)
    requires t.Node? && t.left.Node? && t.left.right.Node? && -1 <= t.left.right.bal <= 1
    modifies AvlTree.TreeCells(t)`left, AvlTree.TreeCells(t)`right, AvlTree.TreeCells(t)`balance
    ensures Rep(r, AvlTree.DoubleRight(t))
  {
    ghost var u := t.(left := AvlTree.SwingLeft(t.left));
    CellsAllocated(t.right);
    assert Rep(root.left, t.left) && Rep(root.left.right, t.left.right);
    assert t.left.ptr in AvlTree.TreeCells(t.left) && t.left.right.ptr in AvlTree.TreeCells(t.left);
    var b := SwingLeft(root.left, t.left);
    AvlTree.SameWalk(t.left, AvlTree.SwingLeft(t.left));
    root.left := b;
    assert Rep(root.right, t.right);
    r := SwingRight(root, u);
    AvlTree.SameWalk(u, AvlTree.SwingRight(u));
    Nasty(r, AvlTree.SwingRight(u));
  }

  /** What every tree handed to the workers satisfies. */
  ghost predicate Valid<K(!new), V>(n: AvlNode?<K, V>, t: Tree<K, V>, cmp: (K, K) -> int)
    reads AvlTree.TreeCells(t)
  {
    Rep(n, t) && AvlTree.Distinct(t) && TotalOrder(cmp) && AvlTree.Ordered(t, cmp) && AvlTree.Balanced(t)
  }

  /** After an insertion reported growth in the left subtree.  The new subtree is already
      in place although nothing was stored to `root.left`. */
  method AfterLeftGrew<K, V>(root: AvlNode<K, V>, ghost t: Tree<K, V>, ghost l: Tree<K, V>)
    returns (r: AvlNode<K, V>, grew: bool)
    requires t.Node? && AvlTree.Balanced(t) && AvlTree.Balanced(l)
    requires l.Node? && l.bal != 0 && AvlTree.Height(l) == AvlTree.Height(t.left) + 1
    requires Rep(root, t.(left := l)) && AvlTree.Distinct(t.(left := l))
    modifies AvlTree.TreeCells(t.(left := l))`left, AvlTree.TreeCells(t.(left := l))`right, AvlTree.TreeCells(t.(left := l))`balance
    ensures var g := AvlTree.LeftGrew(t, l); Rep(r, g.0) && grew == g.1
    ensures grew ==> r == root
  {
    ghost var u := t.(left := l, bal := t.bal - 1);
    var was := root.balance;
    root.balance := root.balance - 1;
    assert Rep(root, u);
    if was == 1 { return root, false; }
    if was == 0 { return root, true; }
    if root.left.balance < 0 {
      r := SingleRight(root, 0, 0, u);
    } else {
      AvlTree.DoubleRightBalances(u);
      r := DoubleRight(root, u);
    }
    grew := false;
  }

  method AfterRightGrew<K, V>(root: AvlNode<K, V>, ghost t: Tree<K, V>, ghost s: Tree<K, V>)
    returns (r: AvlNode<K, V>, grew: bool)
    requires t.Node? && AvlTree.Balanced(t) && AvlTree.Balanced(s)
    requires s.Node? && s.bal != 0 && AvlTree.Height(s) == AvlTree.Height(t.right) + 1
    requires Rep(root, t.(right := s)) && AvlTree.Distinct(t.(right := s))
    modifies AvlTree.TreeCells(t.(right := s))`left, AvlTree.TreeCells(t.(right := s))`right, AvlTree.TreeCells(t.(right := s))`balance
    ensures var g := AvlTree.RightGrew(t, s); Rep(r, g.0) && grew == g.1
    ensures grew ==> r == root
  {
    ghost var u := t.(right := s, bal := t.bal + 1);
    var was := root.balance;
    root.balance := root.balance + 1;
    assert Rep(root, u);
    if was == -1 { return root, false; }
    if was == 0 { return root, true; }
    if root.right.balance > 0 {
      r := SingleLeft(root, 0, 0, u);
    } else {
      AvlTree.DoubleLeftBalances(u);
      r := DoubleLeft(root, u);
    }
    grew := false;
  }

  /** avl_insert_wrk: links `a` into the tree, or only copies its value to the node that has
      its key.  When growth is reported for a subtree its root pointer has not changed, so
      the parent need not store it. */
  method InsertWrk<K(!new), V>(root: AvlNode?<K, V>, a: AvlNode<K, V>, cmp: (K, K) -> int, ghost t: Tree<K, V>)
    returns (r: AvlNode<K, V>, grew: bool, prev: Option<V>)
    requires Valid(root, t, cmp) && a !in AvlTree.TreeCells(t)
    modifies AvlTree.TreeCells(t), a`left, a`right, a`balance
    ensures var i := AvlTree.Insert(t, Entry(a, a.key, a.val), cmp);
            Rep(r, i.tree) && grew == i.grew && prev == i.prev
    ensures grew && root != null ==> r == root
    decreases t
  {
    a.left, a.right, a.balance := null, null, 0;
    if root == null { return a, true, None; }
    var cmpres := cmp(root.key, a.key);
    if cmpres > 0 {
      r, grew, prev := InsertLeft(root, a, cmp, t);
    } else if cmpres < 0 {
      r, grew, prev := InsertRight(root, a, cmp, t);
    } else {
      prev := Some(root.val);
      root.val := a.val;
      r, grew := root, false;
    }
  }

  method InsertLeft<K(!new), V>(root: AvlNode<K, V>, a: AvlNode<K, V>, cmp: (K, K) -> int, ghost t: Tree<K, V>)
    returns (r: AvlNode<K, V>, grew: bool, prev: Option<V>)
    requires Valid(root, t, cmp) && a !in AvlTree.TreeCells(t) && cmp(root.key, a.key) > 0
    requires a.left == null && a.right == null && a.balance == 0
    modifies AvlTree.TreeCells(t), a`left, a`right, a`balance
    ensures var i := AvlTree.Insert(t, Entry(a, a.key, a.val), cmp);
            Rep(r, i.tree) && grew == i.grew && prev == i.prev
    ensures grew ==> r == root
    decreases t, 0
  {
    hide TotalOrder, AvlTree.Ordered, AvlTree.Balanced, AvlTree.Height, AvlTree.LeftGrew;
    ghost var e := Entry(a, a.key, a.val);
    assert Rep(root.left, t.left);
    if root.left != null {
      CellsAllocated(t.right);
      ghost var l := InsertLeftPlan(t, e, cmp);
      var sub, g;
      sub, g, prev := InsertWrk(root.left, a, cmp, t.left);
      assert Rep(sub, l) && Rep(root.right, t.right);
      if g {
        assert Rep(root, t.(left := l));
        r, grew := AfterLeftGrew(root, t, l);
      } else {
        root.left := sub;
        assert Rep(root, t.(left := l));
        r, grew := root, false;
      }
    } else {
      grew := LinkLeft(root, a, t);
      r, prev := root, None;
    }
  }

  method LinkLeft<K, V>(root: AvlNode<K, V>, a: AvlNode<K, V>, ghost t: Tree<K, V>) returns (grew: bool)
    requires t.Node? && t.left.Leaf? && Rep(root, t) && AvlTree.Distinct(t) && a !in AvlTree.TreeCells(t)
    requires a.left == null && a.right == null && a.balance == 0
    modifies root
    ensures Rep(root, t.(left := AvlTree.Node(AvlTree.Leaf, a, a.key, a.val, 0, AvlTree.Leaf), bal := t.bal - 1))
    ensures grew <==> t.bal == 0
  {
    root.left := a;
    grew := root.balance == 0;
    root.balance := root.balance - 1;
  }

  lemma InsertLeftPlan<K(!new), V>(t: Tree<K, V>, e: Entry<AvlNode<K, V>, K, V>, cmp: (K, K) -> int) returns (l: Tree<K, V>)
    requires TotalOrder(cmp) && AvlTree.Ordered(t, cmp) && AvlTree.Balanced(t) && AvlTree.Distinct(t)
    requires t.Node? && t.left.Node? && cmp(t.key, e.key) > 0 && e.ptr !in AvlTree.TreeCells(t)
    ensures AvlTree.Ordered(t.left, cmp) && AvlTree.Balanced(t.left)
    ensures var i := AvlTree.Insert(t.left, e, cmp);
            && l == i.tree && AvlTree.Balanced(l)
            && AvlTree.Distinct(t.(left := l))
            && AvlTree.TreeCells(t.(left := l)) <= AvlTree.TreeCells(t) + {e.ptr}
            && (i.grew ==> l.bal != 0 && AvlTree.Height(l) == AvlTree.Height(t.left) + 1 && l.ptr == t.left.ptr)
            && AvlTree.Insert(t, e, cmp) ==
               if i.grew then AvlTree.Inserted(AvlTree.LeftGrew(t, l).0, AvlTree.LeftGrew(t, l).1, i.prev)
               else AvlTree.Inserted(t.(left := l), false, i.prev)
  {
    AvlTree.OrderedParts(t, cmp);
    AvlTree.InsertKeeps(t.left, e, cmp);
    l := AvlTree.Insert(t.left, e, cmp).tree;
  }

  method InsertRight<K(!new), V>(root: AvlNode<K, V>, a: AvlNode<K, V>, cmp: (K, K) -> int, ghost t: Tree<K, V>)
    returns (r: AvlNode<K, V>, grew: bool, prev: Option<V>)
    requires Valid(root, t, cmp) && a !in AvlTree.TreeCells(t) && cmp(root.key, a.key) < 0
    requires a.left == null && a.right == null && a.balance == 0
    modifies AvlTree.TreeCells(t), a`left, a`right, a`balance
    ensures var i := AvlTree.Insert(t, Entry(a, a.key, a.val), cmp);
            Rep(r, i.tree) && grew == i.grew && prev == i.prev
    ensures grew ==> r == root
    decreases t, 0
  {
    hide TotalOrder, AvlTree.Ordered, AvlTree.Balanced, AvlTree.Height, AvlTree.RightGrew;
    ghost var e := Entry(a, a.key, a.val);
    assert Rep(root.right, t.right);
    if root.right != null {
      CellsAllocated(t.left);
      ghost var l := InsertRightPlan(t, e, cmp);
      var sub, g;
      sub, g, prev := InsertWrk(root.right, a, cmp, t.right);
      assert Rep(sub, l) && Rep(root.left, t.left);
      if g {
        assert Rep(root, t.(right := l));
        r, grew := AfterRightGrew(root, t, l);
      } else {
        root.right := sub;
        assert Rep(root, t.(right := l));
        r, grew := root, false;
      }
    } else {
      grew := LinkRight(root, a, t);
      r, prev := root, None;
    }
  }

  method LinkRight<K, V>(root: AvlNode<K, V>, a: AvlNode<K, V>, ghost t: Tree<K, V>) returns (grew: bool)
    requires t.Node? && t.right.Leaf? && Rep(root, t) && AvlTree.Distinct(t) && a !in AvlTree.TreeCells(t)
    requires a.left == null && a.right == null && a.balance == 0
    modifies root
    ensures Rep(root, t.(right := AvlTree.Node(AvlTree.Leaf, a, a.key, a.val, 0, AvlTree.Leaf), bal := t.bal + 1))
    ensures grew <==> t.bal == 0
  {
    root.right := a;
    grew := root.balance == 0;
    root.balance := root.balance + 1;
  }

  lemma InsertRightPlan<K(!new), V>(t: Tree<K, V>, e: Entry<AvlNode<K, V>, K, V>, cmp: (K, K) -> int) returns (l: Tree<K, V>)
    requires TotalOrder(cmp) && AvlTree.Ordered(t, cmp) && AvlTree.Balanced(t) && AvlTree.Distinct(t)
    requires t.Node? && t.right.Node? && cmp(t.key, e.key) < 0 && e.ptr !in AvlTree.TreeCells(t)
    ensures AvlTree.Ordered(t.right, cmp) && AvlTree.Balanced(t.right)
    ensures var i := AvlTree.Insert(t.right, e, cmp);
            && l == i.tree && AvlTree.Balanced(l)
            && AvlTree.Distinct(t.(right := l))
            && AvlTree.TreeCells(t.(right := l)) <= AvlTree.TreeCells(t) + {e.ptr}
            && (i.grew ==> l.bal != 0 && AvlTree.Height(l) == AvlTree.Height(t.right) + 1 && l.ptr == t.right.ptr)
            && AvlTree.Insert(t, e, cmp) ==
               if i.grew then AvlTree.Inserted(AvlTree.RightGrew(t, l).0, AvlTree.RightGrew(t, l).1, i.prev)
               else AvlTree.Inserted(t.(right := l), false, i.prev)
  {
    AvlTree.OrderedParts(t, cmp);
    AvlTree.InsertKeeps(t.right, e, cmp);
    l := AvlTree.Insert(t.right, e, cmp).tree;
  }

  /** After a removal reported that the left subtree lost a level. */
  method AfterLeftShrank<K, V>(root: AvlNode<K, V>, ghost t: Tree<K, V>, ghost l: Tree<K, V>)
    returns (r: AvlNode<K, V>, ch: bool)
    requires t.Node? && AvlTree.Balanced(t) && AvlTree.Balanced(l) && AvlTree.Height(l) + 1 == AvlTree.Height(t.left)
    requires Rep(root, t.(left := l)) && AvlTree.Distinct(t.(left := l))
    modifies AvlTree.TreeCells(t.(left := l))`left, AvlTree.TreeCells(t.(left := l))`right,
             AvlTree.TreeCells(t.(left := l))`balance
    ensures var d := AvlTree.LeftShrank(t, l); Rep(r, d.0) && ch == d.1
  {
    ghost var u := t.(left := l, bal := t.bal + 1);
    var was := root.balance;
    root.balance := root.balance + 1;
    assert Rep(root, u);
    if was == -1 { return root, true; }
    if was == 0 { return root, false; }
    if root.right.balance == 0 {
      r := SingleLeft(root, -1, 1, u);
      return r, false;
    }
    if root.right.balance == 1 {
      r := SingleLeft(root, 0, 0, u);
      return r, true;
    }
    AvlTree.DoubleLeftBalances(u);
    r := DoubleLeft(root, u);
    ch := true;
  }

  method RemoveLeft<K(!new), V>(root: AvlNode<K, V>, a: AvlNode<K, V>, cmp: (K, K) -> int, ghost t: Tree<K, V>)
    returns (r: AvlNode<K, V>, ch: bool)
    requires Valid(root, t, cmp) && cmp(root.key, a.key) > 0
    requires AvlTree.Find(t, a.key, cmp) == Some(Entry(a, a.key, a.val))
    modifies AvlTree.TreeCells(t)`left, AvlTree.TreeCells(t)`right, AvlTree.TreeCells(t)`balance
    ensures var d := AvlTree.RemoveLeft(t, a.key, cmp); Rep(r, d.0) && ch == d.1
    decreases t.left, 3
  {
    CellsAllocated(t.right);
    assert Rep(root.left, t.left);
    ghost var l := RemoveLeftPlan(t, a.key, cmp);
    var sub;
    sub, ch := RemoveWrk(root.left, a, cmp, t.left);
    assert Rep(root.right, t.right);
    root.left := sub;
    assert Rep(root, t.(left := l));
    r := root;
    if ch {
      r, ch := AfterLeftShrank(root, t, l);
    }
  }

  lemma RemoveLeftPlan<K(!new), V>(t: Tree<K, V>, k: K, cmp: (K, K) -> int) returns (l: Tree<K, V>)
    requires TotalOrder(cmp) && AvlTree.Ordered(t, cmp) && AvlTree.Balanced(t) && AvlTree.Distinct(t)
    requires t.Node? && cmp(t.key, k) > 0
    ensures AvlTree.Ordered(t.left, cmp) && AvlTree.Find(t.left, k, cmp) == AvlTree.Find(t, k, cmp)
    ensures l == AvlTree.Remove(t.left, k, cmp).0 && AvlTree.Balanced(l)
    ensures AvlTree.Distinct(t.(left := l)) && AvlTree.TreeCells(t.(left := l)) <= AvlTree.TreeCells(t)
  {
    AvlTree.OrderedParts(t, cmp);
    AvlTree.RemoveKeeps(t.left, k, cmp);
    l := AvlTree.Remove(t.left, k, cmp).0;
  }

  /** After a removal reported that the right subtree lost a level. */
  method AfterRightShrank<K, V>(root: AvlNode<K, V>, ghost t: Tree<K, V>, ghost l: Tree<K, V>)
    returns (r: AvlNode<K, V>, ch: bool)
    requires t.Node? && AvlTree.Balanced(t) && AvlTree.Balanced(l) && AvlTree.Height(l) + 1 == AvlTree.Height(t.right)
    requires Rep(root, t.(right := l)) && AvlTree.Distinct(t.(right := l))
    modifies AvlTree.TreeCells(t.(right := l))`left, AvlTree.TreeCells(t.(right := l))`right,
             AvlTree.TreeCells(t.(right := l))`balance
    ensures var d := AvlTree.RightShrank(t, l); Rep(r, d.0) && ch == d.1
  {
    ghost var u := t.(right := l, bal := t.bal - 1);
    var was := root.balance;
    root.balance := root.balance - 1;
    assert Rep(root, u);
    if was == 1 { return root, true; }
    if was == 0 { return root, false; }
    if root.left.balance == 0 {
      r := SingleRight(root, 1, -1, u);
      return r, false;
    }
    if root.left.balance == -1 {
      r := SingleRight(root, 0, 0, u);
      return r, true;
    }
    AvlTree.DoubleRightBalances(u);
    r := DoubleRight(root, u);
    ch := true;
  }

  method RemoveRight<K(!new), V>(root: AvlNode<K, V>, a: AvlNode<K, V>, cmp: (K, K) -> int, ghost t: Tree<K, V>)
    returns (r: AvlNode<K, V>, ch: bool)
    requires Valid(root, t, cmp) && cmp(root.key, a.key) < 0
    requires AvlTree.Find(t, a.key, cmp) == Some(Entry(a, a.key, a.val))
    modifies AvlTree.TreeCells(t)`left, AvlTree.TreeCells(t)`right, AvlTree.TreeCells(t)`balance
    ensures var d := AvlTree.RemoveRight(t, a.key, cmp); Rep(r, d.0) && ch == d.1
    decreases t.right, 3
  {
    CellsAllocated(t.left);
    assert Rep(root.right, t.right);
    ghost var l := RemoveRightPlan(t, a.key, cmp);
    var sub;
    sub, ch := RemoveWrk(root.right, a, cmp, t.right);
    assert Rep(root.left, t.left);
    root.right := sub;
    assert Rep(root, t.(right := l));
    r := root;
    if ch {
      r, ch := AfterRightShrank(root, t, l);
    }
  }

  lemma RemoveRightPlan<K(!new), V>(t: Tree<K, V>, k: K, cmp: (K, K) -> int) returns (l: Tree<K, V>)
    requires TotalOrder(cmp) && AvlTree.Ordered(t, cmp) && AvlTree.Balanced(t) && AvlTree.Distinct(t)
    requires t.Node? && cmp(t.key, k) < 0
    ensures AvlTree.Ordered(t.right, cmp) && AvlTree.Find(t.right, k, cmp) == AvlTree.Find(t, k, cmp)
    ensures l == AvlTree.Remove(t.right, k, cmp).0 && AvlTree.Balanced(l)
    ensures AvlTree.Distinct(t.(right := l)) && AvlTree.TreeCells(t.(right := l)) <= AvlTree.TreeCells(t)
  {
    AvlTree.OrderedParts(t, cmp);
    AvlTree.RemoveKeeps(t.right, k, cmp);
    l := AvlTree.Remove(t.right, k, cmp).0;
  }

  method LastRight<K, V>(n: AvlNode<K, V>, ghost t: Tree<K, V>) returns (a: AvlNode<K, V>)
    requires t.Node? && Rep(n, t)
    ensures a == AvlTree.Rightmost(t).ptr && a.key == AvlTree.Rightmost(t).key && a.val == AvlTree.Rightmost(t).val
  {
    a := n;
    ghost var s := t;
    while a.right != null
      invariant s.Node? && Rep(a, s) && AvlTree.Rightmost(s) == AvlTree.Rightmost(t)
      decreases s
    {
      a, s := a.right, s.right;
    }
  }

  method LastLeft<K, V>(n: AvlNode<K, V>, ghost t: Tree<K, V>) returns (a: AvlNode<K, V>)
    requires t.Node? && Rep(n, t)
    ensures a == AvlTree.Leftmost(t).ptr && a.key == AvlTree.Leftmost(t).key && a.val == AvlTree.Leftmost(t).val
  {
    a := n;
    ghost var s := t;
    while a.left != null
      invariant s.Node? && Rep(a, s) && AvlTree.Leftmost(s) == AvlTree.Leftmost(t)
      decreases s
    {
      a, s := a.left, s.left;
    }
  }

  /** avl_remove_wrk: unlinks node `a`, which must be in the tree.  `ch` says that the
      depth has shrunk, by exactly one.  The second component of the measure is what makes
      the mutual recursion with `RemoveRootWrk` end: that method only ever calls back for a
      node other than the root. */
  method RemoveWrk<K(!new), V>(root: AvlNode?<K, V>, a: AvlNode<K, V>, cmp: (K, K) -> int, ghost t: Tree<K, V>)
    returns (r: AvlNode?<K, V>, ch: bool)
    requires Valid(root, t, cmp)
    requires AvlTree.Find(t, a.key, cmp) == Some(Entry(a, a.key, a.val))
    modifies AvlTree.TreeCells(t)`left, AvlTree.TreeCells(t)`right, AvlTree.TreeCells(t)`balance
    ensures var d := AvlTree.Remove(t, a.key, cmp); Rep(r, d.0) && ch == d.1
    decreases t, if root == a then 2 else 0
  {
    var cmpres := cmp(root.key, a.key);
    if cmpres > 0 {
      r, ch := RemoveLeft(root, a, cmp, t);
    } else if cmpres < 0 {
      r, ch := RemoveRight(root, a, cmp, t);
    } else {
      assert root == a;
      r, ch := RemoveRootWrk(root, cmp, t);
    }
  }

  /** avl_removeroot_wrk: the nearest neighbour on the deeper side is unlinked and takes over
      the root's links.  That removal never rotates at the root, so the links taken over are
      the root's own. */
  method RemoveRootWrk<K(!new), V>(root: AvlNode<K, V>, cmp: (K, K) -> int, ghost t: Tree<K, V>)
    returns (r: AvlNode?<K, V>, ch: bool)
    requires Valid(root, t, cmp)
    modifies AvlTree.TreeCells(t)`left, AvlTree.TreeCells(t)`right, AvlTree.TreeCells(t)`balance
    ensures var d := AvlTree.RemoveRoot(t, cmp); Rep(r, d.0) && ch == d.1
    decreases t, 1
  {
    assert Rep(root.left, t.left) && Rep(root.right, t.right);
    if root.left == null {
      if root.right == null { return null, true; }
      return root.right, true;
    }
    if root.right == null { return root.left, true; }
    CellsAllocated(t);
    var a;
    if root.balance < 0 {
      a := LastRight(root.left, t.left);
    } else {
      a := LastLeft(root.right, t.right);
    }
    ghost var d := NeighbourPlan(t, a, cmp);
    var top;
    top, ch := RemoveWrk(root, a, cmp, t);
    assert top == root;
    TakeOver(top, a, d);
    r := a;
    if a.balance != 0 { ch := false; }
  }

  method TakeOver<K, V>(top: AvlNode<K, V>, a: AvlNode<K, V>, ghost d: Tree<K, V>)
    requires d.Node? && Rep(top, d) && AvlTree.Distinct(d) && a !in AvlTree.TreeCells(d)
    modifies a`left, a`right, a`balance
    ensures Rep(a, d.(ptr := a, key := a.key, val := a.val))
  {
    a.left := top.left;
    a.right := top.right;
    a.balance := top.balance;
  }

  /** What the neighbour's removal leaves: the same root, and the neighbour's cell free. */
  lemma NeighbourPlan<K(!new), V>(t: Tree<K, V>, a: AvlNode<K, V>, cmp: (K, K) -> int) returns (d: Tree<K, V>)
    requires TotalOrder(cmp) && AvlTree.Ordered(t, cmp) && AvlTree.Balanced(t) && AvlTree.Distinct(t)
    requires t.Node? && t.left.Node? && t.right.Node?
    requires var n := if t.bal < 0 then AvlTree.Rightmost(t.left) else AvlTree.Leftmost(t.right); a == n.ptr
    ensures var n := if t.bal < 0 then AvlTree.Rightmost(t.left) else AvlTree.Leftmost(t.right);
            && AvlTree.Find(t, n.key, cmp) == Some(n.Entry())
            && n.ptr != t.ptr
            && d == AvlTree.Remove(t, n.key, cmp).0 && AvlTree.Distinct(d)
            && d.Node? && d.ptr == t.ptr && n.ptr !in AvlTree.TreeCells(d)
            && n.ptr in AvlTree.TreeCells(t) && AvlTree.TreeCells(d) <= AvlTree.TreeCells(t)
            && AvlTree.RemoveRoot(t, cmp) ==
               (d.(ptr := n.ptr, key := n.key, val := n.val), d.bal == 0 && AvlTree.Remove(t, n.key, cmp).1)
  {
    AvlTree.OrderedParts(t, cmp);
    var n := if t.bal < 0 then AvlTree.Rightmost(t.left) else AvlTree.Leftmost(t.right);
    d := AvlTree.Remove(t, n.key, cmp).0;
    AvlTree.NeighbourFound(t, cmp);
    AvlTree.RemoveKeeps(t, n.key, cmp);
  }

  /** avl_find_node */
  method FindNode<K, V>(root: AvlNode?<K, V>, k: K, cmp: (K, K) -> int, ghost t: Tree<K, V>) returns (n: AvlNode?<K, V>)
    requires Rep(root, t)
    ensures match AvlTree.Find(t, k, cmp)
            case None => n == null
            case Some(e) => n == e.ptr && n.key == e.key && n.val == e.val
  {
    n := root;
    ghost var s := t;
    while n != null
      invariant Rep(n, s) && AvlTree.Find(s, k, cmp) == AvlTree.Find(t, k, cmp)
      decreases s
    {
      var cmpres := cmp(n.key, k);
      if cmpres > 0 {
        n, s := n.left, s.left;
      } else if cmpres < 0 {
        n, s := n.right, s.right;
      } else {
        return n;
      }
    }
  }

  /** avl_dopy: a node-for-node copy on nodes of its own. */
  method Dopy<K, V>(nd: AvlNode?<K, V>, dopyV: V -> V, ghost t: Tree<K, V>)
    returns (nyu: AvlNode?<K, V>, ghost u: Tree<K, V>)
    requires Rep(nd, t)
    ensures Rep(nyu, u) && AvlTree.Distinct(u) && fresh(AvlTree.TreeCells(u))
    ensures AvlTree.Copies(u, t, dopyV)
    decreases t, 0
  {
    if nd == null { return null, AvlTree.Leaf; }
    assert Rep(nd.left, t.left) && Rep(nd.right, t.right);
    CellsAllocated(t.right);
    var left, right;
    ghost var l, r;
    left, l := Dopy(nd.left, dopyV, t.left);
    right, r := DopyBeside(nd.right, dopyV, t.right, left, l);
    CellsAllocated(l);
    CellsAllocated(r);
    var n := new AvlNode(nd.key, dopyV(nd.val));
    n.balance, n.left, n.right := nd.balance, left, right;
    nyu, u := n, AvlTree.Node(l, n, n.key, n.val, n.balance, r);
  }

  /** A second copy leaves a copy made before it alone. */
  method DopyBeside<K, V>(nd: AvlNode?<K, V>, dopyV: V -> V, ghost t: Tree<K, V>,
                          ghost c: AvlNode?<K, V>, ghost s: Tree<K, V>)
    returns (nyu: AvlNode?<K, V>, ghost u: Tree<K, V>)
    requires Rep(nd, t) && Rep(c, s)
    ensures Rep(nyu, u) && AvlTree.Distinct(u) && fresh(AvlTree.TreeCells(u))
    ensures AvlTree.Copies(u, t, dopyV)
    ensures Rep(c, s) && AvlTree.TreeCells(s) !! AvlTree.TreeCells(u)
    decreases t, 1
  {
    CellsAllocated(s);
    nyu, u := Dopy(nd, dopyV, t);
  }

  lemma CellsAllocated<K, V>(t: Tree<K, V>)
    ensures forall o :: o in AvlTree.TreeCells(t) ==> allocated(o)
  {
    if t.Node? {
      CellsAllocated(t.left);
      CellsAllocated(t.right);
    }
  }
}
