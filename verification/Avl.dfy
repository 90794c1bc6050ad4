/** avl.c: an AVL tree whose nodes are also threaded, in order, on a list. */
module Avl {
  import opened Basics
  import opened Lists
  import opened AvlShape
  import opened AvlOrder

  /** tree->list_head */
  const HEAD: Ptr := -1

  /** The parent's cell when its child `node` is replaced by x. */
  function Relink(p: Cell, node: Ptr, x: Ptr): Cell {
    if p.left == node then p.(left := x) else p.(right := x)
  }

  class AvlTree<K(!new)> {
    const cmp: (K, K) -> int
    const allowDups: bool
    const links: LinkTable

    var root: Ptr
    var count: int

    // the nodes: tree part, key and leader flag of each (the list part is in `links`)
    var nodes: Table
    var key: map<Ptr, K>
    var leader: map<Ptr, bool>

    // the abstract value: the tree of leaders and the threaded list of all nodes
    ghost var tree: Tree
    ghost var order: seq<Ptr>

    /** The node table represents t as the subtree in the hole of c, and the balances of
        the ancestors are exact for a subtree of height hh. */
    ghost predicate Holds(c: Ctx, t: Tree, hh: int)
      reads this
    {
      && Rep(nodes, t, CtxParent(c)) && RepCtx(nodes, c, Root(t), hh) && Ids(t) !! CtxIds(c)
      && root == CtxRoot(c, Root(t))
    }

    ghost predicate Whole(t: Tree)
      reads this
    {
      Rep(nodes, t, NULL) && root == Root(t)
    }

    /** The same, with the balances above the innermost ancestor exact for its height hup. */
    ghost predicate HoldsUp(c: Ctx, t: Tree, hh: int, hup: int)
      reads this
    {
      && Rep(nodes, t, CtxParent(c)) && RepUp(nodes, c, Root(t), hh, hup) && Ids(t) !! CtxIds(c)
      && root == CtxRoot(c, Root(t))
    }

    /** The invariant: the node table represents an AVL tree with exact balances, the list
        is well linked, holds all nodes in key order with leaders first in their runs, and
        its leaders are exactly the tree's in-order sequence. */
    ghost predicate Valid()
      reads this, links
    {
      && TotalOrder(cmp) && Whole(tree) && Avl(tree)
      && Ring(links.next, links.prev, HEAD, order) && count == |order|
      && Runs(cmp, key, leader, order) && InOrder(tree) == Leaders(leader, order)
      && (!allowDups ==> AllLead(leader, order))
    }

    /** avl_init */
    constructor (cmp: (K, K) -> int, allowDups: bool, key: map<Ptr, K>)
      requires TotalOrder(cmp)
      ensures Valid() && order == [] && this.cmp == cmp && this.allowDups == allowDups && this.key == key
              && fresh(links)
    {
      this.cmp, this.allowDups, this.key := cmp, allowDups, key;
      links := new LinkTable();
      root, count := NULL, 0;
      nodes, leader := map[], map[];
      tree, order := Nil, [];
      new;
      links.InitHead(HEAD);
    }

    /** The child link of p (or the root pointer) that named `node` now names x. */
    method ReplaceChild(p: Ptr, node: Ptr, x: Ptr)
      requires p == NULL || p in nodes
      modifies `nodes, `root
      ensures p == NULL ==> root == x && nodes == old(nodes)
      ensures p != NULL ==> root == old(root) && nodes == old(nodes)[p := Relink(old(nodes[p]), node, x)]
    {
      if p == NULL {
        root := x;
      } else if nodes[p].left == node {
        nodes := nodes[p := nodes[p].(left := x)];
      } else {
        nodes := nodes[p := nodes[p].(right := x)];
      }
    }

    /** avl_rotate_right, in terms of the cells it writes: those of node, its left child l,
        l's right child b and the parent p. */
    method RotateRight(node: Ptr)
      requires node in nodes && nodes[node].left in nodes
      requires var l, p := nodes[node].left, nodes[node].parent;
               var b := nodes[l].right;
               && (p == NULL || p in nodes) && (b == NULL || b in nodes)
               && node != l && p != node && p != l && b != node && b != l && (b == p ==> b == NULL)
      modifies `nodes, `root
      ensures var n, p := old(nodes[node]), old(nodes[node].parent);
              var l := old(nodes[n.left]);
              var bal := n.balance + 1 - Min(l.balance, 0);
              && SameExcept(old(nodes), nodes, {node, n.left, l.right, p})
              && node in nodes && nodes[node] == Cell(n.left, l.right, n.right, bal)
              && n.left in nodes && nodes[n.left] == Cell(p, l.left, node, l.balance + 1 + Max(bal, 0))
              && (l.right != NULL ==> l.right in nodes && nodes[l.right] == old(nodes[l.right]).(parent := node))
              && (p == NULL ==> root == n.left)
              && (p != NULL ==> root == old(root) && p in nodes && nodes[p] == Relink(old(nodes[p]), node, n.left))
    {
      var l, p := nodes[node].left, nodes[node].parent;
      nodes := nodes[l := nodes[l].(parent := p)];
      nodes := nodes[node := nodes[node].(parent := l)];
      ReplaceChild(p, node, l);
      nodes := nodes[node := nodes[node].(left := nodes[l].right)];
      nodes := nodes[l := nodes[l].(right := node)];
      if nodes[node].left != NULL {
        nodes := nodes[nodes[node].left := nodes[nodes[node].left].(parent := node)];
      }
      nodes := nodes[node := nodes[node].(balance := nodes[node].balance + 1 - Min(nodes[l].balance, 0))];
      nodes := nodes[l := nodes[l].(balance := nodes[l].balance + 1 + Max(nodes[node].balance, 0))];
    }

    /** avl_rotate_left, likewise. */
    method RotateLeft(node: Ptr)
      requires node in nodes && nodes[node].right in nodes
      requires var r, p := nodes[node].right, nodes[node].parent;
               var b := nodes[r].left;
               && (p == NULL || p in nodes) && (b == NULL || b in nodes)
               && node != r && p != node && p != r && b != node && b != r && (b == p ==> b == NULL)
      modifies `nodes, `root
      ensures var n, p := old(nodes[node]), old(nodes[node].parent);
              var r := old(nodes[n.right]);
              var bal := n.balance - (1 + Max(r.balance, 0));
              && SameExcept(old(nodes), nodes, {node, n.right, r.left, p})
              && node in nodes && nodes[node] == Cell(n.right, n.left, r.left, bal)
              && n.right in nodes && nodes[n.right] == Cell(p, node, r.right, r.balance - (1 - Min(bal, 0)))
              && (r.left != NULL ==> r.left in nodes && nodes[r.left] == old(nodes[r.left]).(parent := node))
              && (p == NULL ==> root == n.right)
              && (p != NULL ==> root == old(root) && p in nodes && nodes[p] == Relink(old(nodes[p]), node, n.right))
    {
      var r, p := nodes[node].right, nodes[node].parent;
      nodes := nodes[r := nodes[r].(parent := p)];
      nodes := nodes[node := nodes[node].(parent := r)];
      ReplaceChild(p, node, r);
      nodes := nodes[node := nodes[node].(right := nodes[r].left)];
      nodes := nodes[r := nodes[r].(left := node)];
      if nodes[node].right != NULL {
        nodes := nodes[nodes[node].right := nodes[nodes[node].right].(parent := node)];
      }
      nodes := nodes[node := nodes[node].(balance := nodes[node].balance - (1 + Max(nodes[r].balance, 0)))];
      nodes := nodes[r := nodes[r].(balance := nodes[r].balance - (1 - Min(nodes[node].balance, 0)))];
    }

    /** What avl_rotate_right means for the represented tree. */
    method RotateRightAt(node: Ptr, ghost c: Ctx, ghost t: Tree, ghost hh: int, ghost hup: int)
      requires t.Node? && t.id == node && t.left.Node? && HoldsUp(c, t, hh, hup)
      modifies `nodes, `root
      ensures HoldsUp(c, RotR(t), hh, hup)
    {
      ghost var m, a, l, b, d, p := nodes, t.left.left, t.left.id, t.left.right, t.right, CtxParent(c);
      assert Rep(m, t.left, node) && Rep(m, b, l);
      Apart(m, c, t, p, node, hh, hup, node);
      Apart(m, c, t, p, node, hh, hup, l);
      if b.Node? { Apart(m, c, t, p, node, hh, hup, b.id); }
      RotateRight(node);
      RotateRightBalance(a, l, b, node, d);
      RotateRightRep(m, nodes, c, a, l, b, node, d, hh, hup);
      RotatedOnce(t);
    }

    method RotateLeftAt(node: Ptr, ghost c: Ctx, ghost t: Tree, ghost hh: int, ghost hup: int)
      requires t.Node? && t.id == node && t.right.Node? && HoldsUp(c, t, hh, hup)
      modifies `nodes, `root
      ensures HoldsUp(c, RotL(t), hh, hup)
    {
      ghost var m, a, r, b, d, p := nodes, t.left, t.right.id, t.right.left, t.right.right, CtxParent(c);
      assert Rep(m, t.right, node) && Rep(m, b, r);
      Apart(m, c, t, p, node, hh, hup, node);
      Apart(m, c, t, p, node, hh, hup, r);
      if b.Node? { Apart(m, c, t, p, node, hh, hup, b.id); }
      RotateLeft(node);
      RotateLeftBalance(a, node, b, r, d);
      RotateLeftRep(m, nodes, c, a, node, b, r, d, hh, hup);
      RotatedOnce(t);
    }

    /** avl_rotate_left at the left child `node` of the root of t, then avl_rotate_right at
        that root, which by then is node->parent->parent. */
    method RotateLeftRight(node: Ptr, ghost c: Ctx, ghost t: Tree, ghost hh: int)
      requires t.Node? && t.left.Node? && t.left.id == node && t.left.right.Node? && Holds(c, t, hh)
      requires Height(t.left.right) == Height(t.left.left) + 1 && Avl(t.left.right)
      modifies `nodes, `root
      ensures Holds(c, RotLR(t), hh)
    {
      ghost var n, p, d := t.left, t.id, t.right;
      RotateLeftAt(node, InLeft(c, p, d), n, Height(n), hh);
      assert Rep(nodes, RotL(n), p) && Height(RotL(n)) == Height(n);
      assert Rep(nodes, RotL(n).left, RotL(n).id);
      RotatedOnce(n);
      RotateRightAt(nodes[nodes[node].parent].parent, c, Node(RotL(n), p, d), hh, UpHeight(c, hh));
    }

    method RotateRightLeft(node: Ptr, ghost c: Ctx, ghost t: Tree, ghost hh: int)
      requires t.Node? && t.right.Node? && t.right.id == node && t.right.left.Node? && Holds(c, t, hh)
      requires Height(t.right.left) == Height(t.right.right) + 1 && Avl(t.right.left)
      modifies `nodes, `root
      ensures Holds(c, RotRL(t), hh)
    {
      ghost var n, p, d := t.right, t.id, t.left;
      RotateRightAt(node, InRight(c, d, p), n, Height(n), hh);
      assert Rep(nodes, RotR(n), p) && Height(RotR(n)) == Height(n);
      assert Rep(nodes, RotR(n).right, RotR(n).id);
      RotatedOnce(n);
      RotateLeftAt(nodes[nodes[node].parent].parent, c, Node(d, p, RotR(n)), hh, UpHeight(c, hh));
    }

    /** p is two levels too heavy on the left: one rotation, or two when its left child
        leans the other way. */
    method FixLeft(p: Ptr, ghost c: Ctx, ghost t: Tree, ghost hh: int) returns (ghost t': Tree)
      requires t.Node? && t.id == p && Holds(c, t, hh)
      requires Avl(t.left) && Avl(t.right) && Height(t.left) == Height(t.right) + 2
      modifies `nodes, `root
      ensures t'.Node? && Holds(c, t', hh) && Avl(t') && InOrder(t') == InOrder(t) && p in nodes
              && nodes[p].parent == t'.id
      ensures Height(t') == if Height(t.left.left) == Height(t.left.right) then Height(t) else Height(t) - 1
    {
      RepairLeft(t);
      var l := nodes[p].left;
      assert Rep(nodes, t.left, p);
      if nodes[l].balance <= 0 {
        RotateRightAt(p, c, t, hh, UpHeight(c, hh));
        t' := RotR(t);
        assert Rep(nodes, t'.right, t'.id);
      } else {
        RotateLeftRight(l, c, t, hh);
        t' := RotLR(t);
        assert Rep(nodes, t'.right, t'.id);
      }
    }

    method FixRight(p: Ptr, ghost c: Ctx, ghost t: Tree, ghost hh: int) returns (ghost t': Tree)
      requires t.Node? && t.id == p && Holds(c, t, hh)
      requires Avl(t.left) && Avl(t.right) && Height(t.right) == Height(t.left) + 2
      modifies `nodes, `root
      ensures t'.Node? && Holds(c, t', hh) && Avl(t') && InOrder(t') == InOrder(t) && p in nodes
              && nodes[p].parent == t'.id
      ensures Height(t') == if Height(t.right.left) == Height(t.right.right) then Height(t) else Height(t) - 1
    {
      RepairRight(t);
      var r := nodes[p].right;
      assert Rep(nodes, t.right, p);
      if nodes[r].balance >= 0 {
        RotateLeftAt(p, c, t, hh, UpHeight(c, hh));
        t' := RotL(t);
        assert Rep(nodes, t'.left, t'.id);
      } else {
        RotateRightLeft(r, c, t, hh);
        t' := RotRL(t);
        assert Rep(nodes, t'.left, t'.id);
      }
    }

    /** The subtree t at node has just grown by one level. */
    method PostInsert(node: Ptr, ghost c: Ctx, ghost t: Tree) returns (ghost t': Tree)
      requires t.Node? && t.id == node && Holds(c, t, Height(t) - 1)
      requires Avl(t) && AvlCtx(c, Height(t) - 1) && Height(t.left) != Height(t.right)
      modifies `nodes, `root
      ensures Whole(t') && Avl(t') && InOrder(t') == InOrder(Plug(c, t))
      decreases c, 1
    {
      var p := nodes[node].parent;
      Apart(nodes, c, t, p, node, Height(t) - 1, UpHeight(c, Height(t) - 1), node);
      if p == NULL {
        t' := t;
      } else if node == nodes[p].left {
        t' := PostInsertLeft(p, c, t);
      } else {
        t' := PostInsertRight(p, c, t);
      }
    }

    /** The left subtree of p has grown. */
    method PostInsertLeft(p: Ptr, ghost c: Ctx, ghost t: Tree) returns (ghost t': Tree)
      requires t.Node? && c.InLeft? && c.id == p && Holds(c, t, Height(t) - 1)
      requires Avl(t) && AvlCtx(c, Height(t) - 1) && Height(t.left) != Height(t.right)
      modifies `nodes, `root
      ensures Whole(t') && Avl(t') && InOrder(t') == InOrder(Plug(c, t))
      decreases c, 0
    {
      hide Rep, Avl, AvlCtx, Ids, Plug, InOrder, Height;
      ghost var up, big := c.up, Join(c, t);
      nodes := nodes[p := nodes[p].(balance := nodes[p].balance - 1)];
      UpAfterGrowth(old(nodes), nodes, c, t);
      if nodes[p].balance == -1 {
        t' := PostInsert(p, up, big);
        return;
      }
      ghost var done := big;
      if nodes[p].balance != 0 {
        done := FixLeft(p, up, big, Height(big) - 1);
      }
      Close(nodes, up, done, big);
      t' := Plug(up, done);
    }

    /** The right subtree of p has grown. */
    method PostInsertRight(p: Ptr, ghost c: Ctx, ghost t: Tree) returns (ghost t': Tree)
      requires t.Node? && c.InRight? && c.id == p && Holds(c, t, Height(t) - 1)
      requires Avl(t) && AvlCtx(c, Height(t) - 1) && Height(t.left) != Height(t.right)
      modifies `nodes, `root
      ensures Whole(t') && Avl(t') && InOrder(t') == InOrder(Plug(c, t))
      decreases c, 0
    {
      hide Rep, Avl, AvlCtx, Ids, Plug, InOrder, Height;
      ghost var up, big := c.up, Join(c, t);
      nodes := nodes[p := nodes[p].(balance := nodes[p].balance + 1)];
      UpAfterGrowth(old(nodes), nodes, c, t);
      if nodes[p].balance == 1 {
        t' := PostInsert(p, up, big);
        return;
      }
      ghost var done := big;
      if nodes[p].balance != 0 {
        done := FixRight(p, up, big, Height(big) - 1);
      }
      Close(nodes, up, done, big);
      t' := Plug(up, done);
    }

    /** The subtree t in the hole of c has just shrunk by one level; p is its parent. */
    method PostDelete(node: Ptr, ghost c: Ctx, ghost t: Tree) returns (ghost t': Tree)
      requires t.Node? && t.id == node && Holds(c, t, Height(t) + 1) && Avl(t) && AvlCtx(c, Height(t) + 1)
      modifies `nodes, `root
      ensures Whole(t') && Avl(t') && InOrder(t') == InOrder(Plug(c, t))
      decreases c, 1
    {
      var p := nodes[node].parent;
      Apart(nodes, c, t, p, node, Height(t) + 1, UpHeight(c, Height(t) + 1), node);
      if p == NULL {
        t' := t;
      } else if node == nodes[p].left {
        t' := PostDeleteLeft(p, c, t);
      } else {
        t' := PostDeleteRight(p, c, t);
      }
    }

    /** The left subtree of p has shrunk, possibly to nothing. */
    method PostDeleteLeft(p: Ptr, ghost c: Ctx, ghost t: Tree) returns (ghost t': Tree)
      requires c.InLeft? && c.id == p && Holds(c, t, Height(t) + 1) && Avl(t) && AvlCtx(c, Height(t) + 1)
      modifies `nodes, `root
      ensures Whole(t') && Avl(t') && InOrder(t') == InOrder(Plug(c, t))
      decreases c, 0
    {
      hide Rep, Avl, AvlCtx, Ids, Plug, InOrder, Height;
      ghost var up, big := c.up, Join(c, t);
      nodes := nodes[p := nodes[p].(balance := nodes[p].balance + 1)];
      UpAfterShrink(old(nodes), nodes, c, t);
      if nodes[p].balance == 0 {
        t' := PostDelete(p, up, big);
      } else if nodes[p].balance == 1 {
        Close(nodes, up, big, big);
        t' := Plug(up, big);
      } else {
        t' := ShrinkRight(p, up, big);
      }
    }

    /** The right subtree of p has shrunk, possibly to nothing. */
    method PostDeleteRight(p: Ptr, ghost c: Ctx, ghost t: Tree) returns (ghost t': Tree)
      requires c.InRight? && c.id == p && Holds(c, t, Height(t) + 1) && Avl(t) && AvlCtx(c, Height(t) + 1)
      modifies `nodes, `root
      ensures Whole(t') && Avl(t') && InOrder(t') == InOrder(Plug(c, t))
      decreases c, 0
    {
      hide Rep, Avl, AvlCtx, Ids, Plug, InOrder, Height;
      ghost var up, big := c.up, Join(c, t);
      nodes := nodes[p := nodes[p].(balance := nodes[p].balance - 1)];
      UpAfterShrink(old(nodes), nodes, c, t);
      if nodes[p].balance == 0 {
        t' := PostDelete(p, up, big);
      } else if nodes[p].balance == -1 {
        Close(nodes, up, big, big);
        t' := Plug(up, big);
      } else {
        t' := ShrinkLeft(p, up, big);
      }
    }

    /** After a deletion p is two levels too heavy on the right; unless its right child is
        level, repairing it shortens the subtree and the repair goes on upwards. */
    method ShrinkRight(p: Ptr, ghost c: Ctx, ghost t: Tree) returns (ghost t': Tree)
      requires t.Node? && t.id == p && Holds(c, t, Height(t)) && AvlCtx(c, Height(t))
      requires Avl(t.left) && Avl(t.right) && Height(t.right) == Height(t.left) + 2
      modifies `nodes, `root
      ensures Whole(t') && Avl(t') && InOrder(t') == InOrder(Plug(c, t))
      decreases c, 2
    {
      hide AvlCtx, Ids, Plug, InOrder;
      assert Rep(nodes, t.right, p);
      var level := nodes[nodes[p].right].balance == 0;
      ghost var done := FixRight(p, c, t, Height(t));
      if level {
        Close(nodes, c, done, t);
        t' := Plug(c, done);
      } else {
        t' := PostDelete(nodes[p].parent, c, done);
        PlugInOrder(c, done);
        PlugInOrder(c, t);
      }
    }

    method ShrinkLeft(p: Ptr, ghost c: Ctx, ghost t: Tree) returns (ghost t': Tree)
      requires t.Node? && t.id == p && Holds(c, t, Height(t)) && AvlCtx(c, Height(t))
      requires Avl(t.left) && Avl(t.right) && Height(t.left) == Height(t.right) + 2
      modifies `nodes, `root
      ensures Whole(t') && Avl(t') && InOrder(t') == InOrder(Plug(c, t))
      decreases c, 2
    {
      hide AvlCtx, Ids, Plug, InOrder;
      assert Rep(nodes, t.left, p);
      var level := nodes[nodes[p].left].balance == 0;
      ghost var done := FixLeft(p, c, t, Height(t));
      if level {
        Close(nodes, c, done, t);
        t' := Plug(c, done);
      } else {
        t' := PostDelete(nodes[p].parent, c, done);
        PlugInOrder(c, done);
        PlugInOrder(c, t);
      }
    }

    /** y takes the place of node: its cell, its children's parent links, its parent's link. */
    method TakeLinks(node: Ptr, y: Ptr)
      requires node in nodes && y != node
      requires var n := nodes[node];
               && (n.parent == NULL || n.parent in nodes) && (n.left == NULL || n.left in nodes)
               && (n.right == NULL || n.right in nodes)
               && y !in {n.parent, n.left, n.right} && node !in {n.parent, n.left, n.right}
               && (n.left == n.right ==> n.left == NULL)
               && (n.parent != NULL ==> n.parent != n.left && n.parent != n.right)
      modifies `nodes, `root
      ensures var n, p := old(nodes[node]), old(nodes[node].parent);
              && SameExcept(old(nodes), nodes, {y, n.left, n.right, p}) && y in nodes && nodes[y] == n
              && (n.left != NULL ==> n.left in nodes && nodes[n.left] == old(nodes[n.left]).(parent := y))
              && (n.right != NULL ==> n.right in nodes && nodes[n.right] == old(nodes[n.right]).(parent := y))
              && (p == NULL ==> root == y)
              && (p != NULL ==> root == old(root) && p in nodes && nodes[p] == Relink(old(nodes[p]), node, y))
    {
      nodes := nodes[y := nodes[node]];
      if nodes[y].left != NULL {
        nodes := nodes[nodes[y].left := nodes[nodes[y].left].(parent := y)];
      }
      if nodes[y].right != NULL {
        nodes := nodes[nodes[y].right := nodes[nodes[y].right].(parent := y)];
      }
      ReplaceChild(nodes[y].parent, node, y);
    }

    /** What that means for the represented tree. */
    method TakePlace(node: Ptr, y: Ptr, ghost c: Ctx, ghost l: Tree, ghost r: Tree) returns (ghost t': Tree)
      requires Holds(c, Node(l, node, r), Height(Node(l, node, r))) && Avl(Node(l, node, r))
               && AvlCtx(c, Height(Node(l, node, r)))
      requires y > 0 && y !in Ids(Node(l, node, r)) && y !in CtxIds(c)
      modifies `nodes, `root
      ensures Whole(t') && Avl(t') && InOrder(t') == (Before(c) + InOrder(l)) + [y] + (InOrder(r) + After(c))
    {
      ghost var m, t, hh, p := nodes, Node(l, node, r), Height(Node(l, node, r)), CtxParent(c);
      hide Rep, Ids, Height, Avl, AvlCtx, InOrder;
      SameShape(l, node, r, y);
      Cells(m, t, p);
      Apart(m, c, t, p, node, hh, UpHeight(c, hh), node);
      if l.Node? { Apart(m, c, t, p, node, hh, UpHeight(c, hh), l.id); }
      if r.Node? { Apart(m, c, t, p, node, hh, UpHeight(c, hh), r.id); }
      TakeLinks(node, y);
      InPlaceRep(m, nodes, c, l, node, r, y);
      Close(nodes, c, Node(l, y, r), Node(l, y, r));
      InOrderAt(c, Node(l, y, r));
      t' := Plug(c, Node(l, y, r));
    }

    /** avl_local_min */
    method LocalMin(start: Ptr, ghost c: Ctx, ghost t: Tree) returns (min: Ptr, ghost c': Ctx, ghost r: Tree)
      requires t.Node? && t.id == start && Rep(nodes, Plug(c, t), NULL)
      ensures Plug(c', Node(Nil, min, r)) == Plug(c, t) && Before(c') == Before(c)
    {
      min := start;
      c' := c;
      ghost var t' := t;
      UnplugRep(nodes, c', t');
      while nodes[min].left != NULL
        invariant t'.Node? && t'.id == min && Plug(c', t') == Plug(c, t) && Before(c') == Before(c)
        invariant Rep(nodes, t', CtxParent(c'))
        decreases t'
      {
        min := nodes[min].left;
        c', t' := InLeft(c', t'.id, t'.right), t'.left;
        UnplugRep(nodes, c', t');
      }
      RepIds(nodes, t'.left, min);
      r := t'.right;
    }

    /** avl_delete_worker: take node, with subtrees t.left and t.right, out of the tree. */
    method DeleteWorker(node: Ptr, ghost c: Ctx, ghost t: Tree) returns (ghost t': Tree)
      requires t.Node? && t.id == node && Holds(c, t, Height(t)) && Avl(t) && AvlCtx(c, Height(t))
      modifies `nodes, `root
      ensures Whole(t') && Avl(t') && InOrder(t') == (Before(c) + InOrder(t.left)) + (InOrder(t.right) + After(c))
      decreases t.left.Node?, 1
    {
      RepIds(nodes, t.left, node);
      RepIds(nodes, t.right, node);
      if nodes[node].left == NULL && nodes[node].right == NULL {
        t' := UnlinkLeaf(node, c, t);
      } else if nodes[node].left == NULL {
        t' := UnlinkChain(node, nodes[node].right, c, t, t.right);
      } else if nodes[node].right == NULL {
        t' := UnlinkChain(node, nodes[node].left, c, t, t.left);
      } else {
        t' := DeleteInner(node, c, t);
      }
    }

    /** avl_delete_worker for a leaf. */
    method UnlinkLeaf(node: Ptr, ghost c: Ctx, ghost t: Tree) returns (ghost t': Tree)
      requires t == Node(Nil, node, Nil) && Holds(c, t, Height(t)) && AvlCtx(c, Height(t))
      modifies `nodes, `root
      ensures Whole(t') && Avl(t') && InOrder(t') == (Before(c) + InOrder(t.left)) + (InOrder(t.right) + After(c))
    {
      ghost var m := nodes;
      hide Rep, Ids, Height, Avl, AvlCtx, Plug, InOrder, Before, After;
      LeafShape(m, c, node);
      Cells(m, t, CtxParent(c));
      var p := nodes[node].parent;
      Apart(m, c, t, p, node, 1, UpHeight(c, 1), node);
      PlugTop(Nil);
      if p == NULL {
        root := NULL;
        t' := Nil;
      } else if nodes[p].left == node {
        nodes := nodes[p := nodes[p].(left := NULL)];
        LeafShape(nodes, c, node);
        RepUpFrame(m, nodes, c, node, 1, NULL, 1, UpHeight(c, 1));
        t' := PostDeleteLeft(p, c, Nil);
      } else {
        nodes := nodes[p := nodes[p].(right := NULL)];
        LeafShape(nodes, c, node);
        RepUpFrame(m, nodes, c, node, 1, NULL, 1, UpHeight(c, 1));
        t' := PostDeleteRight(p, c, Nil);
      }
    }

    /** avl_delete_worker for a node with one child. */
    method UnlinkChain(node: Ptr, child: Ptr, ghost c: Ctx, ghost t: Tree, ghost ct: Tree) returns (ghost t': Tree)
      requires t.Node? && t.id == node && Holds(c, t, Height(t)) && Avl(t) && AvlCtx(c, Height(t))
      requires ct.Node? && ct.id == child && (t == Node(Nil, node, ct) || t == Node(ct, node, Nil))
      modifies `nodes, `root
      ensures Whole(t') && Avl(t') && InOrder(t') == (Before(c) + InOrder(t.left)) + (InOrder(t.right) + After(c))
    {
      ghost var m, hh := nodes, Height(t);
      hide Rep, Ids, Height, Avl, AvlCtx, Plug, InOrder, Before, After;
      ChainShape(c, t, ct);
      Cells(m, t, CtxParent(c));
      PlugTop(ct);
      var p := nodes[node].parent;
      Apart(m, c, t, p, node, hh, UpHeight(c, hh), node);
      Apart(m, c, t, p, node, hh, UpHeight(c, hh), child);
      nodes := nodes[child := nodes[child].(parent := p)];
      ReplaceChild(p, node, child);
      ChainRep(m, nodes, c, t, ct, hh, UpHeight(c, hh));
      if p == NULL {
        t' := ct;
      } else {
        t' := PostDelete(child, c, ct);
      }
    }

    /** avl_delete_worker for a node with two children: its successor is taken out and
        put in its place, wherever the rebalancing has moved that place to. */
    method DeleteInner(node: Ptr, ghost c: Ctx, ghost t: Tree) returns (ghost t': Tree)
      requires t.Node? && t.id == node && Holds(c, t, Height(t)) && Avl(t) && AvlCtx(c, Height(t))
      requires t.left.Node? && t.right.Node?
      modifies `nodes, `root
      ensures Whole(t') && Avl(t') && InOrder(t') == (Before(c) + InOrder(t.left)) + (InOrder(t.right) + After(c))
      decreases t.left.Node?, 0
    {
      hide Height, Avl, AvlCtx, InOrder, Ids;
      ghost var pre := Before(c) + InOrder(t.left);
      PlugRep(nodes, c, t);
      PlugAvl(c, t);
      RepNoDup(nodes, Plug(c, t), NULL);
      var min, c2, r2 := LocalMin(nodes[node].right, InRight(c, t.left, node), t.right);
      Successor(c, t, c2, min, r2);
      UnplugRep(nodes, c2, Node(Nil, min, r2));
      PlugAvl(c2, Node(Nil, min, r2));
      ghost var rest := InOrder(r2) + After(c2);
      ghost var t1 := DeleteWorker(min, c2, Node(Nil, min, r2));
      NilInOrder();
      assert InOrder(t1) == pre + [node] + rest;
      ghost var c3, l3, r3 := Refocus(t1, node, min, pre, rest);
      UnplugRep(nodes, c3, Node(l3, node, r3));
      PlugAvl(c3, Node(l3, node, r3));
      t' := TakePlace(node, min, c3, l3, r3);
    }

    /** avl_find_rec: the descent ends at a node from which the key cannot go further, and
        everything outside its subtree lies strictly on the right side of the key. */
    method FindRec(node: Ptr, k: K, ghost c: Ctx, ghost t: Tree)
        returns (res: Ptr, diff: int, ghost c': Ctx, ghost t': Tree)
      requires TotalOrder(cmp) && t.Node? && t.id == node && Rep(nodes, t, CtxParent(c))
               && Strictly(cmp, key, InOrder(Plug(c, t)))
      requires forall x :: x in Before(c) ==> x in key && cmp(key[x], k) < 0
      requires forall x :: x in After(c) ==> x in key && cmp(k, key[x]) < 0
      ensures t'.Node? && t'.id == res && Plug(c', t') == Plug(c, t) && res in key && diff == cmp(k, key[res])
      ensures diff < 0 ==> t'.left.Nil?
      ensures diff > 0 ==> t'.right.Nil?
      ensures forall x :: x in Before(c') ==> x in key && cmp(key[x], k) < 0
      ensures forall x :: x in After(c') ==> x in key && cmp(k, key[x]) < 0
      decreases t
    {
      hide TotalOrder;
      BesideRoot(cmp, key, c, t, k);
      RepIds(nodes, t.left, node);
      RepIds(nodes, t.right, node);
      diff := cmp(k, key[node]);
      if diff < 0 && nodes[node].left != NULL {
        res, diff, c', t' := FindRec(nodes[node].left, k, InLeft(c, node, t.right), t.left);
      } else if diff > 0 && nodes[node].right != NULL {
        res, diff, c', t' := FindRec(nodes[node].right, k, InRight(c, t.left, node), t.right);
      } else {
        res, c', t' := node, c, t;
      }
    }

    /** Make the leaf n a child of node on the given side, and rebalance if that side grew. */
    method Attach(node: Ptr, n: Ptr, onLeft: bool, ghost c: Ctx, ghost t: Tree) returns (ghost t': Tree)
      requires t.Node? && t.id == node && Holds(c, t, Height(t)) && Avl(t) && AvlCtx(c, Height(t))
      requires n in nodes && nodes[n] == Cell(NULL, NULL, NULL, 0) && n > 0 && n !in Ids(t) && n !in CtxIds(c)
      requires if onLeft then t.left.Nil? else t.right.Nil?
      modifies `nodes, `root
      ensures Whole(t') && Avl(t')
      ensures InOrder(t') == if onLeft then Before(c) + [n, node] + (InOrder(t.right) + After(c))
                                       else Before(c) + InOrder(t.left) + [node, n] + After(c)
    {
      hide Rep, RepCtx, Height, Avl, AvlCtx, InOrder, Ids, CtxIds, Plug, Before, After;
      ghost var leaf := Node(Nil, n, Nil);
      ghost var u := if onLeft then Node(leaf, node, t.right) else Node(t.left, node, leaf);
      AttachShape(c, t, u, n, onLeft);
      Cells(nodes, t, CtxParent(c));
      var grows := nodes[node].balance == 0;
      nodes := nodes[node := nodes[node].(balance := if !grows then 0 else if onLeft then -1 else 1)];
      nodes := nodes[n := nodes[n].(parent := node)];
      nodes := nodes[node := if onLeft then nodes[node].(left := n) else nodes[node].(right := n)];
      AttachRep(old(nodes), nodes, c, t, u, n, Height(t));
      if grows {
        t' := PostInsert(node, c, u);
      } else {
        Close(nodes, c, u, u);
        t' := Plug(c, u);
      }
    }

    /** The loop of avl_insert that walks to the end of the run that node leads. */
    method RunEnd(node: Ptr, ghost k: int) returns (last: Ptr, ghost e: int)
      requires Known(key, leader, order) && Ring(links.next, links.prev, HEAD, order)
      requires 0 <= k < |order| && order[k] == node && leader[node]
      ensures RunAt(leader, order, k, e) && last == order[e]
    {
      last, e := node, k;
      RingAt(links.next, links.prev, HEAD, order, e);
      while links.next[last] != HEAD
        invariant k <= e < |order| && last == order[e] && forall j :: k < j <= e ==> !leader[order[j]]
        invariant last in links.next && links.next[last] == if e + 1 < |order| then order[e + 1] else HEAD
        decreases |order| - e
      {
        var next := links.next[last];
        if leader[next] {
          break;
        }
        last, e := next, e + 1;
        RingAt(links.next, links.prev, HEAD, order, e);
      }
    }

    /** avl_insert: n, with its key set, goes after all nodes with keys <= its own; or it is
        refused, when duplicates are not allowed and its key is present. */
    method Insert(n: Ptr) returns (r: int)
      requires Valid() && n > 0 && n !in order && n in key
      modifies `nodes, `root, `leader, `count, `tree, `order, links
      ensures Valid()
      ensures r == -1 || r == 0
      ensures r == -1 <==> !allowDups && Present(cmp, key, old(order), key[n])
      ensures r == -1 ==> order == old(order) && tree == old(tree)
      ensures r == 0 ==> exists k :: Splits(cmp, key, old(order), key[n], k) && order == Lists.Insert(old(order), k, n)
    {
      hide TotalOrder, Rep, Avl, InOrder, Leaders, Ids, Sorted, Starts, Ring, NoDup, SameOutside, Splits, Present;
      ghost var s := order;
      MarkOutside(cmp, key, leader, order, n, true);
      NotInTree(tree, leader, order, n);
      Unlinked(nodes, tree, n, Cell(NULL, NULL, NULL, 0));
      nodes := nodes[n := Cell(NULL, NULL, NULL, 0)];
      leader := leader[n := true];
      EmptyTree(cmp, key, leader, order, tree, nodes);
      if root == NULL {
        links.AddAfter(n, HEAD, HEAD, order, 0);
        root := n;
        count := 1;
        Singleton(cmp, key, leader, nodes, n);
        tree, order := Node(Nil, n, Nil), [n];
        assert Lists.Insert(s, 0, n) == [n];
        r := 0;
      } else {
        r := InsertInto(n);
      }
    }

    /** avl_insert of a duplicate: n joins the end of the run of its key. */
    method InsertDup(n: Ptr, last: Ptr, ghost k: int, ghost e: int, ghost a: seq<Ptr>, ghost b: seq<Ptr>)
      requires Valid() && allowDups && n > 0 && n !in order && n in key && n in leader
      requires RunAt(leader, order, k, e) && last == order[e] && InOrder(tree) == a + [order[k]] + b
               && order[k] in key && cmp(key[n], key[order[k]]) == 0
      modifies `leader, `count, `order, links
      ensures Valid()
      ensures Splits(cmp, key, old(order), key[n], e + 1) && order == Lists.Insert(old(order), e + 1, n)
    {
      hide TotalOrder, Rep, Avl, InOrder, Leaders, Sorted, Starts, Ring, NoDup, SameOutside, Splits;
      RingNoDup(links.next, links.prev, HEAD, order);
      ghost var s := order;
      BelongsAfter(cmp, key, leader, s, key[n], k, e, a, b);
      MarkOutside(cmp, key, leader, s, n, false);
      leader := leader[n := false];
      InsertRuns(cmp, key, leader, s, e + 1, n);
      assert s == s[..e + 1] + s[e + 1..];
      LeadersConcat(leader, s[..e + 1], s[e + 1..]);
      links.AddAfter(n, last, HEAD, s, e + 1);
      count := count + 1;
      order := Lists.Insert(s, e + 1, n);
    }

    /** The new node n is prepared, and the descent for its key ended at node, whose run ends with
        last; the side where the key belongs is free. */
    ghost predicate ReadyFor(n: Ptr, node: Ptr, last: Ptr, diff: int, c: Ctx, t: Tree, k: int, e: int)
      reads this
    {
      && n > 0 && n !in order && n in key && n in leader && leader[n]
      && n in nodes && nodes[n] == Cell(NULL, NULL, NULL, 0) && n !in Ids(t) && n !in CtxIds(c)
      && t.Node? && t.id == node && tree == Plug(c, t) && Holds(c, t, Height(t)) && Avl(t) && AvlCtx(c, Height(t))
      && 0 <= k <= e < |order| && RunAt(leader, order, k, e) && node == order[k] && last == order[e]
      && node in key && diff == cmp(key[n], key[node]) && diff != 0
      && (diff < 0 ==> t.left.Nil? && forall x :: x in Before(c) ==> x in key && cmp(key[x], key[n]) < 0)
      && (diff > 0 ==> t.right.Nil? && forall x :: x in After(c) ==> x in key && cmp(key[n], key[x]) < 0)
    }

    /** avl_insert of a new key at node, where the descent ended; the balance decides the
        side, and so does the comparison when the node is level. */
    method InsertLeader(n: Ptr, node: Ptr, last: Ptr, diff: int, ghost c: Ctx, ghost t: Tree, ghost k: int,
                        ghost e: int)
      returns (ghost pos: int)
      requires Valid() && ReadyFor(n, node, last, diff, c, t, k, e)
      modifies `nodes, `root, `count, `tree, `order, links
      ensures Valid()
      ensures Splits(cmp, key, old(order), key[n], pos) && order == Lists.Insert(old(order), pos, n)
      ensures !Present(cmp, key, old(order), key[n])
    {
      hide TotalOrder, Rep, RepCtx, Avl, AvlCtx, Ids, CtxIds, Height, InOrder, Leaders, Plug, Sorted, Starts, Ring,
           NoDup, SameOutside, Splits, Before, After;
      Cells(nodes, t, CtxParent(c));
      Leans(t);
      InOrderAt(c, t);
      NilInOrder();
      RingNoDup(links.next, links.prev, HEAD, order);
      var onLeft := nodes[node].balance == 1 || (nodes[node].balance != -1 && diff < 0);
      assert onLeft <==> diff < 0;
      pos := LeaderPosition(cmp, key, leader, order, n, k, e, Before(c), InOrder(t.left), InOrder(t.right), After(c));
      ThreadLeader(n, node, last, onLeft, k, e);
      count := count + 1;
      if !allowDups { AllLeadInsert(leader, order, pos, n); }
      order := Lists.Insert(order, pos, n);
      tree := Attach(node, n, onLeft, c, t);
    }

    /** avl_insert_before the node, or avl_insert_after the last of its run */
    method ThreadLeader(n: Ptr, node: Ptr, last: Ptr, onLeft: bool, ghost k: int, ghost e: int)
      requires Ring(links.next, links.prev, HEAD, order) && n > 0 && n !in order
      requires 0 <= k <= e < |order| && node == order[k] && last == order[e]
      modifies links
      ensures Ring(links.next, links.prev, HEAD, Lists.Insert(order, if onLeft then k else e + 1, n))
    {
      hide Ring, SameOutside;
      if onLeft {
        links.AddBefore(n, node, HEAD, order, k + 1);
      } else {
        links.AddAfter(n, last, HEAD, order, e + 1);
      }
    }

    /** avl_insert into a tree that is not empty. */
    method InsertInto(n: Ptr) returns (r: int)
      requires Valid() && n > 0 && n !in order && n in key && n in leader && leader[n] && tree.Node? && n !in Ids(tree)
      requires n in nodes && nodes[n] == Cell(NULL, NULL, NULL, 0)
      modifies `nodes, `root, `leader, `count, `tree, `order, links
      ensures Valid()
      ensures r == -1 || r == 0
      ensures r == -1 <==> !allowDups && Present(cmp, key, old(order), key[n])
      ensures r == -1 ==> order == old(order) && tree == old(tree)
      ensures r == 0 ==> exists k :: Splits(cmp, key, old(order), key[n], k) && order == Lists.Insert(old(order), k, n)
    {
      hide TotalOrder, Rep, Avl, AvlCtx, Ids, CtxIds, Height, InOrder, Leaders, Strictly, Plug, Sorted, Starts, Ring,
           NoDup;
      assert order[..|order|] == order;
      LeadersStrictly(cmp, key, leader, order, |order|);
      PlugTop(tree);
      var node, diff, c, t := FindRec(root, key[n], Top, tree);
      UnplugRep(nodes, c, t);
      PlugAvl(c, t);
      PlugIds(c, t);
      InOrderAt(c, t);
      ghost var a, b := Before(c) + InOrder(t.left), InOrder(t.right) + After(c);
      ghost var k := LeaderIndex(leader, order, node, a, b);
      var last, e := RunEnd(node, k);
      diff := cmp(key[n], key[node]);
      if diff == 0 {
        if !allowDups {
          r := -1;
        } else {
          InsertDup(n, last, k, e, a, b);
          r := 0;
        }
      } else {
        ghost var pos := InsertLeader(n, node, last, diff, c, t, k, e);
        r := 0;
      }
    }

    /** avl_find: the leader of the run with this key, or NULL. */
    method Find(k: K) returns (node: Ptr)
      requires Valid()
      ensures node == NULL <==> !Present(cmp, key, order, k)
      ensures node != NULL ==> node in order && node in key && node in leader && leader[node] && cmp(k, key[node]) == 0
    {
      hide TotalOrder, Rep, Avl, AvlCtx, Ids, CtxIds, Height, InOrder, Leaders, Strictly, Plug, Sorted, Starts, Ring,
           NoDup, Splits;
      EmptyTree(cmp, key, leader, order, tree, nodes);
      if root == NULL {
        return NULL;
      }
      var res, diff, p := Descend(k);
      if diff != 0 { NoneEqual(cmp, key, leader, order, k, p); }
      node := if diff == 0 then res else NULL;
    }

    /** avl_find_rec from the root, and where its result sits in the list: p is where the
        key splits the list when it is absent. */
    method Descend(k: K) returns (node: Ptr, diff: int, ghost p: int)
      requires Valid() && root != NULL
      ensures node in order && node > 0 && node in key && node in leader && leader[node] && diff == cmp(k, key[node])
      ensures diff != 0 ==>
                Splits(cmp, key, order, k, p) && (p > 0 ==> order[p - 1] in key && cmp(key[order[p - 1]], k) < 0)
      ensures diff == 0 ==> Present(cmp, key, order, k)
    {
      hide TotalOrder, Rep, Avl, AvlCtx, Ids, CtxIds, Height, InOrder, Leaders, Strictly, Plug, Sorted, Starts, Ring,
           NoDup, Splits;
      assert order[..|order|] == order;
      LeadersStrictly(cmp, key, leader, order, |order|);
      PlugTop(tree);
      RingNoDup(links.next, links.prev, HEAD, order);
      ghost var c, t;
      node, diff, c, t := FindRec(root, k, Top, tree);
      InOrderAt(c, t);
      NilInOrder();
      ghost var a, b := Before(c) + InOrder(t.left), InOrder(t.right) + After(c);
      ghost var i := LeaderIndex(leader, order, node, a, b);
      if diff < 0 {
        p := i;
        BelongsBefore(cmp, key, leader, order, k, i, a, b);
      } else if diff > 0 {
        ghost var e := EndOfRun(leader, order, i);
        p := e + 1;
        BelongsAfter(cmp, key, leader, order, k, i, e, a, b);
      } else {
        p := i;
      }
    }

    /** avl_find_lessequal: the last node in the list with a key <= k, or NULL. */
    method FindLessEqual(k: K) returns (node: Ptr)
      requires Valid()
      ensures node == NULL ==> Splits(cmp, key, order, k, 0)
      ensures node != NULL ==> exists p :: Splits(cmp, key, order, k, p) && p > 0 && node == order[p - 1]
    {
      hide TotalOrder, Rep, Avl, InOrder, Leaders, Sorted, Starts, Ring, NoDup, Splits, SplitsBelow;
      EmptyTree(cmp, key, leader, order, tree, nodes);
      if root == NULL {
        SplitByNeighbours(cmp, key, leader, order, k, 0);
        return NULL;
      }
      var diff;
      ghost var at;
      node, diff, at := Descend(k);
      ghost var i :| 0 <= i < |order| && order[i] == node;
      while diff < 0
        invariant 0 <= i < |order| && node == order[i] && diff == cmp(k, key[node])
        decreases i
      {
        RingAt(links.next, links.prev, HEAD, order, i);
        if links.prev[node] == HEAD {
          SplitByNeighbours(cmp, key, leader, order, k, 0);
          return NULL;
        }
        node, i := links.prev[node], i - 1;
        diff := cmp(k, key[node]);
      }
      var next := node;
      while diff >= 0
        invariant 0 <= i < |order| && next == order[i] && diff == cmp(k, key[next])
        invariant diff < 0 ==> i > 0 && node == order[i - 1] && cmp(k, key[node]) >= 0
        decreases |order| - i
      {
        node := next;
        RingAt(links.next, links.prev, HEAD, order, i);
        if links.next[node] == HEAD {
          SplitByNeighbours(cmp, key, leader, order, k, i + 1);
          return;
        }
        next, i := links.next[node], i + 1;
        diff := cmp(k, key[next]);
      }
      SplitByNeighbours(cmp, key, leader, order, k, i);
    }

    /** avl_find_greaterequal: the first node in the list with a key >= k, or NULL. */
    method FindGreaterEqual(k: K) returns (node: Ptr)
      requires Valid()
      ensures node == NULL ==> SplitsBelow(cmp, key, order, k, |order|)
      ensures node != NULL ==> exists p :: SplitsBelow(cmp, key, order, k, p) && p < |order| && node == order[p]
    {
      hide TotalOrder, Rep, Avl, InOrder, Leaders, Sorted, Starts, Ring, NoDup, Splits, SplitsBelow;
      EmptyTree(cmp, key, leader, order, tree, nodes);
      if root == NULL {
        SplitByNeighbours(cmp, key, leader, order, k, 0);
        return NULL;
      }
      var diff;
      ghost var at;
      node, diff, at := Descend(k);
      ghost var i :| 0 <= i < |order| && order[i] == node;
      while diff > 0
        invariant 0 <= i < |order| && node == order[i] && diff == cmp(k, key[node])
        decreases |order| - i
      {
        RingAt(links.next, links.prev, HEAD, order, i);
        if links.next[node] == HEAD {
          SplitByNeighbours(cmp, key, leader, order, k, |order|);
          return NULL;
        }
        node, i := links.next[node], i + 1;
        diff := cmp(k, key[node]);
      }
      var next := node;
      while diff <= 0
        invariant 0 <= i < |order| && next == order[i] && diff == cmp(k, key[next])
        invariant diff > 0 ==> i + 1 < |order| && node == order[i + 1] && cmp(k, key[node]) <= 0
        decreases i
      {
        node := next;
        RingAt(links.next, links.prev, HEAD, order, i);
        if links.prev[node] == HEAD {
          SplitByNeighbours(cmp, key, leader, order, k, i);
          return;
        }
        next, i := links.prev[node], i - 1;
        diff := cmp(k, key[next]);
      }
      SplitByNeighbours(cmp, key, leader, order, k, i + 1);
    }

    /** avl_delete: node leaves the list; the rest of the list, and so the tree's leaders,
        stay in order, the next node of its run taking over if it led one. */
    method Delete(node: Ptr, ghost k: int)
      requires Valid() && 0 <= k < |order| && order[k] == node
      modifies `nodes, `root, `leader, `count, `tree, `order, links
      ensures Valid() && order == Remove(old(order), k)
    {
      hide TotalOrder, Rep, Avl, AvlCtx, Ids, CtxIds, Height, InOrder, Leaders, Plug, Sorted, Starts, Ring, NoDup,
           SameOutside;
      ghost var s := order;
      RingNoDup(links.next, links.prev, HEAD, order);
      RemoveRuns(cmp, key, leader, order, k);
      if !allowDups { AllLeadRemove(leader, order, k); }
      LeaveTree(node, k);
      links.Del(node, HEAD, s, k);
      count := count - 1;
      order := Remove(s, k);
    }

    /** If it led a run, node leaves the tree or hands its place over. */
    method LeaveTree(node: Ptr, ghost k: int)
      requires Valid() && 0 <= k < |order| && order[k] == node
      modifies `nodes, `root, `leader, `tree
      ensures Whole(tree) && Avl(tree) && leader == Promoted(old(leader), order, k)
      ensures InOrder(tree) == Leaders(leader, Remove(order, k))
    {
      hide TotalOrder, Rep, Avl, Ids, CtxIds, Height, InOrder, Leaders, Plug, Sorted, Starts, Ring, NoDup, Remove;
      RingNoDup(links.next, links.prev, HEAD, order);
      RingAt(links.next, links.prev, HEAD, order, k);
      RemoveLeaders(leader, order, k);
      LeadersAt(leader, order, k);
      if !allowDups { AllLeadRemove(leader, order, k); }
      if leader[node] {
        ghost var a, b := Leaders(leader, order[..k]), Leaders(leader, order[k + 1..]);
        if allowDups && links.next[node] != HEAD && !leader[links.next[node]] {
          var next := links.next[node];
          LeaderIn(leader, order, next);
          tree := ReplaceLeader(node, next, a, b);
          leader := leader[next := true];
        } else {
          tree := DeleteLeader(node, a, b);
        }
      }
    }

    /** The leader's place in the tree goes to the next node of its run. */
    method ReplaceLeader(node: Ptr, next: Ptr, ghost a: seq<Ptr>, ghost b: seq<Ptr>) returns (ghost t': Tree)
      requires Whole(tree) && Avl(tree) && InOrder(tree) == a + [node] + b && next > 0 && next !in InOrder(tree)
      modifies `nodes, `root
      ensures Whole(t') && Avl(t') && InOrder(t') == a + [next] + b
    {
      hide Rep, Avl, AvlCtx, Ids, CtxIds, Height, InOrder, Plug, NoDup;
      RepNoDup(nodes, tree, NULL);
      ghost var c, l, r := Refocus(tree, node, next, a, b);
      UnplugRep(nodes, c, Node(l, node, r));
      PlugAvl(c, Node(l, node, r));
      t' := TakePlace(node, next, c, l, r);
    }

    method DeleteLeader(node: Ptr, ghost a: seq<Ptr>, ghost b: seq<Ptr>) returns (ghost t': Tree)
      requires Whole(tree) && Avl(tree) && InOrder(tree) == a + [node] + b
      modifies `nodes, `root
      ensures Whole(t') && Avl(t') && InOrder(t') == a + b
    {
      hide Rep, Avl, AvlCtx, Ids, CtxIds, Height, InOrder, Plug, NoDup;
      RepNoDup(nodes, tree, NULL);
      RepPositive(nodes, tree, NULL);
      ghost var c, l, r := Refocus(tree, node, HEAD, a, b);
      UnplugRep(nodes, c, Node(l, node, r));
      PlugAvl(c, Node(l, node, r));
      t' := DeleteWorker(node, c, Node(l, node, r));
    }
  }

  lemma {:induction false} EndOfRun(leader: map<Ptr, bool>, s: seq<Ptr>, k: int) returns (e: int)
    requires 0 <= k < |s| && (forall i :: 0 <= i < |s| ==> s[i] in leader) && leader[s[k]]
    ensures RunAt(leader, s, k, e)
  {
    e := k;
    while e + 1 < |s| && !leader[s[e + 1]]
      invariant k <= e < |s| && forall j :: k < j <= e ==> !leader[s[j]]
    {
      e := e + 1;
    }
  }

  lemma {:induction false} NotInTree(t: Tree, leader: map<Ptr, bool>, s: seq<Ptr>, n: Ptr)
    requires InOrder(t) == Leaders(leader, s) && (n !in s || (n in leader && !leader[n]))
    ensures n !in Ids(t)
  {
    IdsInOrder(t);
    LeaderIn(leader, s, n);
  }

  lemma {:induction false} Unlinked(m: Table, t: Tree, n: Ptr, c: Cell)
    requires Rep(m, t, NULL) && n !in Ids(t)
    ensures Rep(m[n := c], t, NULL)
  {
    RepFrame(m, m[n := c], t, NULL);
  }

  lemma {:induction false} EmptyTree<K(!new)>(cmp: (K, K) -> int, key: map<Ptr, K>, leader: map<Ptr, bool>,
                                              s: seq<Ptr>, t: Tree, m: Table)
    requires Rep(m, t, NULL) && InOrder(t) == Leaders(leader, s) && Runs(cmp, key, leader, s)
    ensures t.Nil? <==> s == []
    ensures t.Nil? <==> Root(t) == NULL
  {
    NonemptyLeads(cmp, key, leader, s);
    RepIds(m, t, NULL);
  }

  /** A tree and list of one node. */
  lemma {:induction false} Singleton<K(!new)>(cmp: (K, K) -> int, key: map<Ptr, K>, leader: map<Ptr, bool>, m: Table,
                                              n: Ptr)
    requires TotalOrder(cmp) && n > 0 && n in key && n in leader && leader[n] && n in m
             && m[n] == Cell(NULL, NULL, NULL, 0)
    ensures var t := Node(Nil, n, Nil);
            && Rep(m, t, NULL) && Avl(t) && InOrder(t) == [n] == Leaders(leader, [n])
            && Runs(cmp, key, leader, [n]) && AllLead(leader, [n]) && Splits(cmp, key, [], key[n], 0)
            && !Present(cmp, key, [], key[n])
  {
    assert Sorted(cmp, key, leader, [n]);
    assert Starts(cmp, key, leader, [n], 0);
  }

  /** The list side of inserting a new key next to the leader at k, whose subtree has the
      entries l and r, with a before and b after it. */
  lemma {:induction false} LeaderPosition<K(!new)>(cmp: (K, K) -> int, key: map<Ptr, K>, leader: map<Ptr, bool>,
                                                   s: seq<Ptr>, n: Ptr, k: int, e: int,
                                                   a: seq<Ptr>, l: seq<Ptr>, r: seq<Ptr>, b: seq<Ptr>)
      returns (pos: int)
    requires TotalOrder(cmp) && Runs(cmp, key, leader, s) && NoDup(s) && RunAt(leader, s, k, e)
    requires n > 0 && n !in s && n in key && n in leader && leader[n] && cmp(key[n], key[s[k]]) != 0
    requires Leaders(leader, s) == (a + l) + [s[k]] + (r + b)
    requires cmp(key[n], key[s[k]]) < 0 ==> l == [] && forall x :: x in a ==> x in key && cmp(key[x], key[n]) < 0
    requires cmp(key[n], key[s[k]]) > 0 ==> r == [] && forall x :: x in b ==> x in key && cmp(key[n], key[x]) < 0
    ensures pos == if cmp(key[n], key[s[k]]) < 0 then k else e + 1
    ensures Splits(cmp, key, s, key[n], pos) && Runs(cmp, key, leader, Lists.Insert(s, pos, n))
    ensures Leaders(leader, Lists.Insert(s, pos, n)) ==
              if cmp(key[n], key[s[k]]) < 0 then a + [n, s[k]] + (r + b) else a + l + [s[k], n] + b
    ensures !Present(cmp, key, s, key[n])
  {
    hide TotalOrder, Leaders, Sorted, Starts, NoDup;
    RunLeaders(leader, s, k, e, a + l, r + b);
    if cmp(key[n], key[s[k]]) < 0 {
      pos := k;
      BelongsBefore(cmp, key, leader, s, key[n], k, a + l, r + b);
      assert a + l == a && a + [n, s[k]] + (r + b) == a + [n] + ([s[k]] + (r + b));
    } else {
      pos := e + 1;
      BelongsAfter(cmp, key, leader, s, key[n], k, e, a + l, r + b);
      assert r + b == b && a + l + [s[k], n] + b == (a + l + [s[k]]) + [n] + b;
    }
    InsertRuns(cmp, key, leader, s, pos, n);
    NoneEqual(cmp, key, leader, s, key[n], pos);
  }

  lemma {:induction false} LeaderIndex(leader: map<Ptr, bool>, s: seq<Ptr>, x: Ptr, a: seq<Ptr>, b: seq<Ptr>)
      returns (k: int)
    requires Leaders(leader, s) == a + [x] + b
    ensures 0 <= k < |s| && s[k] == x && x in leader && leader[x]
  {
    LeaderIn(leader, s, x);
    assert x in a + [x] + b;
    k :| 0 <= k < |s| && s[k] == x;
  }

  /** In a strictly sorted tree the nodes passed on the way down lie beyond the key. */
  lemma {:induction false} BesideRoot<K(!new)>(cmp: (K, K) -> int, key: map<Ptr, K>, c: Ctx, t: Tree, k: K)
    requires TotalOrder(cmp) && t.Node? && Strictly(cmp, key, InOrder(Plug(c, t)))
    ensures t.id in key
    ensures cmp(k, key[t.id]) < 0 ==> forall x :: x in [t.id] + InOrder(t.right) ==> x in key && cmp(k, key[x]) < 0
    ensures cmp(k, key[t.id]) > 0 ==> forall x :: x in InOrder(t.left) + [t.id] ==> x in key && cmp(key[x], k) < 0
  {
    hide TotalOrder;
    InOrderAt(c, t);
    var s, a, l, r := InOrder(Plug(c, t)), Before(c), InOrder(t.left), InOrder(t.right);
    var m := |a| + |l|;
    assert s[m] == t.id;
    Flip(cmp, k, key[t.id]);
    forall x | x in r ensures x in key && (cmp(k, key[t.id]) < 0 ==> cmp(k, key[x]) < 0) {
      var i :| 0 <= i < |r| && r[i] == x;
      assert s[m + 1 + i] == x;
      if cmp(k, key[t.id]) < 0 { Strict(cmp, k, key[t.id], key[x]); }
    }
    forall x | x in l ensures x in key && (cmp(k, key[t.id]) > 0 ==> cmp(key[x], k) < 0) {
      var i :| 0 <= i < |l| && l[i] == x;
      assert s[|a| + i] == x;
      if cmp(k, key[t.id]) > 0 { Strict(cmp, key[x], key[t.id], k); }
    }
  }
}
