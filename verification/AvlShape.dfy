/** Abstract binary trees of node pointers, zippers into them, and what it means for
    the node table of avl.c to represent one. */
module AvlShape {
  import opened Basics
  import opened Lists

  datatype Tree = Nil | Node(left: Tree, id: Ptr, right: Tree)

  /** The path from a subtree up to the root: for each ancestor, its id and its other child. */
  datatype Ctx = Top | InLeft(up: Ctx, id: Ptr, right: Tree) | InRight(up: Ctx, left: Tree, id: Ptr)

  /** The tree part of a node, and of all nodes. */
  datatype Cell = Cell(parent: Ptr, left: Ptr, right: Ptr, balance: int)
  type Table = map<Ptr, Cell>

  function Max(x: int, y: int): int { if x > y then x else y }

  function Min(x: int, y: int): int { if x < y then x else y }

  function Height(t: Tree): nat {
    if t.Nil? then 0 else 1 + Max(Height(t.left), Height(t.right))
  }

  function Root(t: Tree): Ptr { if t.Nil? then NULL else t.id }

  function InOrder(t: Tree): seq<Ptr> {
    if t.Nil? then [] else InOrder(t.left) + [t.id] + InOrder(t.right)
  }

  function Ids(t: Tree): set<Ptr> {
    if t.Nil? then {} else Ids(t.left) + {t.id} + Ids(t.right)
  }

  function Plug(c: Ctx, t: Tree): Tree {
    match c
    case Top => t
    case InLeft(up, x, r) => Plug(up, Node(t, x, r))
    case InRight(up, l, x) => Plug(up, Node(l, x, t))
  }

  /** The in-order entries before and after the hole. */
  function Before(c: Ctx): seq<Ptr> {
    match c
    case Top => []
    case InLeft(up, x, r) => Before(up)
    case InRight(up, l, x) => Before(up) + InOrder(l) + [x]
  }

  function After(c: Ctx): seq<Ptr> {
    match c
    case Top => []
    case InLeft(up, x, r) => [x] + InOrder(r) + After(up)
    case InRight(up, l, x) => After(up)
  }

  function CtxIds(c: Ctx): set<Ptr> {
    if c.Top? then {} else CtxIds(c.up) + {c.id} + Ids(Sibling(c))
  }

  function CtxParent(c: Ctx): Ptr { if c.Top? then NULL else c.id }

  function CtxRoot(c: Ctx, hole: Ptr): Ptr { if c.Top? then hole else CtxRoot(c.up, c.id) }

  /** The AVL shape: sibling heights differ by at most one. */
  ghost predicate Avl(t: Tree) {
    t.Node? ==> Avl(t.left) && Avl(t.right) && -1 <= Height(t.right) - Height(t.left) <= 1
  }

  /** The same for the ancestors, when the hole has height hh. */
  ghost predicate AvlCtx(c: Ctx, hh: int) {
    match c
    case Top => true
    case InLeft(up, x, r) => Avl(r) && -1 <= Height(r) - hh <= 1 && AvlCtx(up, 1 + Max(hh, Height(r)))
    case InRight(up, l, x) => Avl(l) && -1 <= hh - Height(l) <= 1 && AvlCtx(up, 1 + Max(Height(l), hh))
  }

  ghost predicate Has(m: Table, x: Ptr, c: Cell) {
    x > 0 && x in m && m[x] == c
  }

  /** The table represents t below parent p: child and parent links agree, no node
      occurs twice, and every stored balance is right height minus left height. */
  ghost predicate Rep(m: Table, t: Tree, p: Ptr) {
    match t
    case Nil => true
    case Node(l, x, r) =>
      && Has(m, x, Cell(p, Root(l), Root(r), Height(r) - Height(l)))
      && x !in Ids(l) && x !in Ids(r) && Ids(l) !! Ids(r)
      && Rep(m, l, x) && Rep(m, r, x)
  }

  /** The fields of the innermost ancestor, when the hole holds `hole` of height hh. */
  ghost predicate CtxCell(m: Table, c: Ctx, hole: Ptr, hh: int) {
    match c
    case Top => true
    case InLeft(up, x, r) => Has(m, x, Cell(CtxParent(up), hole, Root(r), Height(r) - hh))
    case InRight(up, l, x) => Has(m, x, Cell(CtxParent(up), Root(l), hole, hh - Height(l)))
  }

  /** The height of the innermost ancestor, when the hole has height hh. */
  function UpHeight(c: Ctx, hh: int): int {
    match c
    case Top => hh
    case InLeft(up, x, r) => 1 + Max(hh, Height(r))
    case InRight(up, l, x) => 1 + Max(Height(l), hh)
  }

  /** The other child of the innermost ancestor. */
  function Sibling(c: Ctx): Tree {
    match c case Top => Nil case InLeft(up, x, r) => r case InRight(up, l, x) => l
  }

  /** The table represents the ancestors of a subtree with root `hole`, with balances
      that are exact for a subtree of height hh. */
  ghost predicate RepCtx(m: Table, c: Ctx, hole: Ptr, hh: int) {
    !c.Top? ==>
      && CtxCell(m, c, hole, hh) && c.id !in Ids(Sibling(c)) && c.id !in CtxIds(c.up) && Ids(Sibling(c)) !! CtxIds(c.up)
      && Rep(m, Sibling(c), c.id) && RepCtx(m, c.up, c.id, UpHeight(c, hh))
  }

  /** The same, when the balances above the innermost ancestor are exact for it having
      the height hup, which need not be the one it now has. */
  ghost predicate RepUp(m: Table, c: Ctx, hole: Ptr, hh: int, hup: int) {
    !c.Top? ==>
      && CtxCell(m, c, hole, hh) && c.id !in Ids(Sibling(c)) && c.id !in CtxIds(c.up) && Ids(Sibling(c)) !! CtxIds(c.up)
      && Rep(m, Sibling(c), c.id) && RepCtx(m, c.up, c.id, hup)
  }

  ghost predicate SameAt(m: Table, m': Table, x: Ptr) {
    x in m ==> x in m' && m'[x] == m[x]
  }

  ghost predicate SameExcept(m: Table, m': Table, touched: set<Ptr>) {
    forall x :: x !in touched ==> SameAt(m, m', x)
  }

  ghost predicate SameOn(m: Table, m': Table, s: set<Ptr>) {
    forall x :: x in s ==> SameAt(m, m', x)
  }

  // ----- framing -----

  lemma RepIds(m: Table, t: Tree, p: Ptr)
    requires Rep(m, t, p)
    ensures forall x :: x in Ids(t) ==> x > 0
    ensures t.Node? ==> t.id in Ids(t)
  {
  }

  lemma {:induction false} RepCtxIds(m: Table, c: Ctx, hole: Ptr, hh: int)
    requires RepCtx(m, c, hole, hh)
    ensures forall x :: x in CtxIds(c) ==> x > 0
  {
    if !c.Top? {
      RepIds(m, Sibling(c), c.id);
      RepCtxIds(m, c.up, c.id, UpHeight(c, hh));
    }
  }

  lemma {:induction false} RepUpIds(m: Table, c: Ctx, hole: Ptr, hh: int, hup: int)
    requires RepUp(m, c, hole, hh, hup)
    ensures forall x :: x in CtxIds(c) ==> x > 0
    ensures !c.Top? ==> c.id in CtxIds(c)
  {
    if !c.Top? {
      RepIds(m, Sibling(c), c.id);
      RepCtxIds(m, c.up, c.id, hup);
    }
  }

  /** The cells of the root of t and of its children. */
  lemma {:induction false} Cells(m: Table, t: Tree, p: Ptr)
    requires t.Node? && Rep(m, t, p)
    ensures Has(m, t.id, Cell(p, Root(t.left), Root(t.right), Height(t.right) - Height(t.left))) && t.id in Ids(t)
    ensures t.left.Node? ==>
              t.left.id > 0 && t.left.id in m && t.left.id in Ids(t) && t.left.id != t.id && t.left.id != Root(t.right)
    ensures t.right.Node? ==> t.right.id > 0 && t.right.id in m && t.right.id in Ids(t) && t.right.id != t.id
  {
    RepIds(m, t.left, t.id);
    RepIds(m, t.right, t.id);
  }

  lemma {:induction false} Leans(t: Tree)
    requires t.Node?
    ensures Height(t.right) - Height(t.left) > 0 ==> t.right.Node?
    ensures Height(t.right) - Height(t.left) < 0 ==> t.left.Node?
  {
  }

  /** A node of the subtree in the hole is none of the pointers its parent is compared with. */
  lemma {:induction false} Apart(m: Table, c: Ctx, t: Tree, p: Ptr, hole: Ptr, hh: int, hup: int, x: Ptr)
    requires Rep(m, t, p) && RepUp(m, c, hole, hh, hup) && Ids(t) !! CtxIds(c) && x in Ids(t)
    ensures x > 0 && x != CtxParent(c) && (CtxParent(c) == NULL <==> c.Top?) && x != Root(Sibling(c))
  {
    RepIds(m, t, p);
    RepUpIds(m, c, hole, hh, hup);
    if !c.Top? { RepIds(m, Sibling(c), c.id); }
  }

  lemma {:induction false} RepFrame(m: Table, m': Table, t: Tree, p: Ptr)
    requires Rep(m, t, p) && SameOn(m, m', Ids(t))
    ensures Rep(m', t, p)
  {
    if t.Node? {
      assert SameAt(m, m', t.id);
      RepFrame(m, m', t.left, t.id);
      RepFrame(m, m', t.right, t.id);
    }
  }

  lemma {:induction false} RepCtxFrame(m: Table, m': Table, c: Ctx, hole: Ptr, hh: int)
    requires RepCtx(m, c, hole, hh) && SameOn(m, m', CtxIds(c))
    ensures RepCtx(m', c, hole, hh)
  {
    if !c.Top? {
      assert SameAt(m, m', c.id);
      RepFrame(m, m', Sibling(c), c.id);
      RepCtxFrame(m, m', c.up, c.id, UpHeight(c, hh));
    }
  }

  /** Only the parent link of the root of t changed. */
  lemma {:induction false} RootFrame(m: Table, m': Table, t: Tree, p: Ptr, p': Ptr)
    requires Rep(m, t, p) && SameOn(m, m', Ids(t) - {Root(t)})
    requires t.Node? ==> Has(m', t.id, Cell(p', Root(t.left), Root(t.right), Height(t.right) - Height(t.left)))
    ensures Rep(m', t, p')
  {
    if t.Node? {
      RepFrame(m, m', t.left, t.id);
      RepFrame(m, m', t.right, t.id);
    }
  }

  /** Only the fields of the innermost ancestor changed. */
  lemma {:induction false} RepUpFrame(m: Table, m': Table, c: Ctx, hole: Ptr, hh: int, hole': Ptr, hh': int, hup: int)
    requires RepUp(m, c, hole, hh, hup) && CtxCell(m', c, hole', hh')
    requires SameOn(m, m', CtxIds(c) - {CtxParent(c)})
    ensures RepUp(m', c, hole', hh', hup)
  {
    if !c.Top? {
      RepFrame(m, m', Sibling(c), c.id);
      RepCtxFrame(m, m', c.up, c.id, hup);
    }
  }

  /** The innermost ancestor joins the subtree. */
  function Join(c: Ctx, t: Tree): Tree
    requires !c.Top?
  {
    match c case InLeft(up, x, r) => Node(t, x, r) case InRight(up, l, x) => Node(l, x, t)
  }

  /** After the height of the hole changed by delta and only the balance of the innermost
      ancestor was corrected, the zipper can move up one level. */
  lemma {:induction false} Grown(m: Table, m': Table, c: Ctx, t: Tree, delta: int)
    requires !c.Top? && Rep(m, t, c.id) && RepCtx(m, c, Root(t), Height(t) - delta) && Ids(t) !! CtxIds(c)
    requires SameExcept(m, m', {c.id}) && CtxCell(m', c, Root(t), Height(t))
    ensures Rep(m', Join(c, t), CtxParent(c.up)) && RepCtx(m', c.up, c.id, UpHeight(c, Height(t) - delta))
    ensures Ids(Join(c, t)) == Ids(t) + {c.id} + Ids(Sibling(c)) && Ids(Join(c, t)) !! CtxIds(c.up)
  {
    RepFrame(m, m', t, c.id);
    RepFrame(m, m', Sibling(c), c.id);
    RepCtxFrame(m, m', c.up, c.id, UpHeight(c, Height(t) - delta));
  }

  // ----- plugging -----

  lemma {:induction false} PlugInOrder(c: Ctx, t: Tree)
    ensures InOrder(Plug(c, t)) == Before(c) + InOrder(t) + After(c)
  {
    match c
    case Top =>
    case InLeft(up, x, r) => PlugInOrder(up, Node(t, x, r));
    case InRight(up, l, x) => PlugInOrder(up, Node(l, x, t));
  }

  /** A represented subtree and its represented ancestors make a represented tree. */
  lemma {:induction false} PlugRep(m: Table, c: Ctx, t: Tree)
    requires Rep(m, t, CtxParent(c)) && RepCtx(m, c, Root(t), Height(t)) && Ids(t) !! CtxIds(c)
    ensures Rep(m, Plug(c, t), NULL) && Root(Plug(c, t)) == CtxRoot(c, Root(t))
  {
    match c
    case Top =>
    case InLeft(up, x, r) => PlugRep(m, up, Node(t, x, r));
    case InRight(up, l, x) => PlugRep(m, up, Node(l, x, t));
  }

  lemma {:induction false} UnplugRep(m: Table, c: Ctx, t: Tree)
    requires Rep(m, Plug(c, t), NULL)
    ensures Rep(m, t, CtxParent(c)) && RepCtx(m, c, Root(t), Height(t)) && Ids(t) !! CtxIds(c)
    ensures Root(Plug(c, t)) == CtxRoot(c, Root(t))
  {
    match c
    case Top =>
    case InLeft(up, x, r) => UnplugRep(m, up, Node(t, x, r));
    case InRight(up, l, x) => UnplugRep(m, up, Node(l, x, t));
  }

  lemma {:induction false} PlugAvl(c: Ctx, t: Tree)
    ensures Avl(Plug(c, t)) <==> Avl(t) && AvlCtx(c, Height(t))
  {
    match c
    case Top =>
    case InLeft(up, x, r) => PlugAvl(up, Node(t, x, r));
    case InRight(up, l, x) => PlugAvl(up, Node(l, x, t));
  }

  lemma {:induction false} PlugIds(c: Ctx, t: Tree)
    ensures Ids(Plug(c, t)) == Ids(t) + CtxIds(c)
  {
    match c
    case Top =>
    case InLeft(up, x, r) => PlugIds(up, Node(t, x, r));
    case InRight(up, l, x) => PlugIds(up, Node(l, x, t));
  }

  lemma PlugTop(t: Tree)
    ensures Plug(Top, t) == t
  {
  }

  lemma IdsInOrder(t: Tree)
    ensures forall x :: x in Ids(t) <==> x in InOrder(t)
  {
  }

  lemma {:induction false} CtxIdsInOrder(c: Ctx)
    ensures forall x :: x in CtxIds(c) <==> x in Before(c) || x in After(c)
  {
    match c
    case Top =>
    case InLeft(up, x, r) => CtxIdsInOrder(up); IdsInOrder(r);
    case InRight(up, l, x) => CtxIdsInOrder(up); IdsInOrder(l);
  }

  lemma {:induction false} RepNoDup(m: Table, t: Tree, p: Ptr)
    requires Rep(m, t, p)
    ensures NoDup(InOrder(t))
  {
    if t.Node? {
      RepNoDup(m, t.left, t.id);
      RepNoDup(m, t.right, t.id);
      IdsInOrder(t.left);
      IdsInOrder(t.right);
      NoDupConcat(InOrder(t.left), [t.id]);
      NoDupConcat(InOrder(t.left) + [t.id], InOrder(t.right));
    }
  }

  lemma {:induction false} RepPositive(m: Table, t: Tree, p: Ptr)
    requires Rep(m, t, p)
    ensures forall x :: x in InOrder(t) ==> x > 0
  {
    RepIds(m, t, p);
    IdsInOrder(t);
  }

  /** Every node of a tree has a zipper. */
  lemma {:induction false} Focus(c: Ctx, t: Tree, x: Ptr) returns (c': Ctx, l: Tree, r: Tree)
    requires x in InOrder(t)
    ensures Plug(c', Node(l, x, r)) == Plug(c, t)
    decreases t
  {
    if t.id == x {
      c', l, r := c, t.left, t.right;
    } else if x in InOrder(t.left) {
      c', l, r := Focus(InLeft(c, t.id, t.right), t.left, x);
    } else {
      c', l, r := Focus(InRight(c, t.left, t.id), t.right, x);
    }
  }

  /** Closing a zipper over a rebalanced subtree. */
  lemma {:induction false} Close(m: Table, c: Ctx, t: Tree, was: Tree)
    requires Rep(m, t, CtxParent(c)) && RepCtx(m, c, Root(t), Height(t)) && Ids(t) !! CtxIds(c)
    requires Avl(t) && AvlCtx(c, Height(t)) && InOrder(t) == InOrder(was)
    ensures Rep(m, Plug(c, t), NULL) && Root(Plug(c, t)) == CtxRoot(c, Root(t))
    ensures Avl(Plug(c, t)) && InOrder(Plug(c, t)) == InOrder(Plug(c, was))
  {
    PlugRep(m, c, t);
    PlugAvl(c, t);
    PlugInOrder(c, t);
    PlugInOrder(c, was);
  }

  /** The zipper has moved up to the innermost ancestor, whose balance is exact. */
  ghost predicate MovedUp(m: Table, c: Ctx, t: Tree, big: Tree) {
    && !c.Top? && big == Join(c, t) && Plug(c, t) == Plug(c.up, big) && CtxRoot(c, Root(t)) == CtxRoot(c.up, c.id)
    && c.id in m && m[c.id].balance == Height(big.right) - Height(big.left)
    && Rep(m, big, CtxParent(c.up)) && Ids(big) !! CtxIds(c.up) && Avl(big.left) && Avl(big.right)
  }

  ghost predicate Ancestors(m: Table, c: Ctx, hole: Ptr, hh: int) {
    RepCtx(m, c, hole, hh) && AvlCtx(c, hh)
  }

  lemma {:induction false} JoinShape(c: Ctx, t: Tree, hh: int)
    requires !c.Top? && Avl(t) && AvlCtx(c, hh)
    ensures var big, s: int, h: int := Join(c, t), Height(Sibling(c)), Height(t);
            && AvlCtx(c.up, UpHeight(c, hh)) && UpHeight(c, hh) == 1 + Max(hh, s) && -1 <= s - hh <= 1
            && Height(big) == 1 + Max(h, s) && Avl(big.left) && Avl(big.right) && (-1 <= s - h <= 1 ==> Avl(big))
            && Height(big.right) - Height(big.left) == (if c.InLeft? then s - h else h - s)
            && Plug(c, t) == Plug(c.up, big) && CtxRoot(c, Root(t)) == CtxRoot(c.up, c.id)
  {
  }

  /** One level up after the hole grew and the balance of the ancestor was corrected: the
      ancestor is level again, or has itself grown, or is two levels too heavy on that side. */
  lemma {:induction false} UpAfterGrowth(m: Table, m': Table, c: Ctx, t: Tree)
    requires !c.Top? && Rep(m, t, c.id) && RepCtx(m, c, Root(t), Height(t) - 1) && Ids(t) !! CtxIds(c)
    requires SameExcept(m, m', {c.id}) && CtxCell(m', c, Root(t), Height(t))
    requires Avl(t) && AvlCtx(c, Height(t) - 1)
    ensures var big, bal := Join(c, t), m'[c.id].balance;
            && MovedUp(m', c, t, big)
            && -2 <= bal <= 2 && (c.InLeft? ==> bal <= 0) && (c.InRight? ==> bal >= 0)
            && Ancestors(m', c.up, c.id, if bal == 0 then Height(big) else Height(big) - 1)
            && (-1 <= bal <= 1 ==> Avl(big))
  {
    hide Rep, RepCtx, Avl, AvlCtx, Height, Ids, CtxIds, Plug, UpHeight, CtxRoot;
    Grown(m, m', c, t, 1);
    JoinShape(c, t, Height(t) - 1);
  }

  /** One level up after the hole shrank: the ancestor has itself shrunk, or leans to the
      other side, or is two levels too heavy there. */
  lemma {:induction false} UpAfterShrink(m: Table, m': Table, c: Ctx, t: Tree)
    requires !c.Top? && Rep(m, t, c.id) && RepCtx(m, c, Root(t), Height(t) + 1) && Ids(t) !! CtxIds(c)
    requires SameExcept(m, m', {c.id}) && CtxCell(m', c, Root(t), Height(t))
    requires Avl(t) && AvlCtx(c, Height(t) + 1)
    ensures var big, bal := Join(c, t), m'[c.id].balance;
            && MovedUp(m', c, t, big)
            && -2 <= bal <= 2 && (c.InLeft? ==> bal >= 0) && (c.InRight? ==> bal <= 0)
            && Ancestors(m', c.up, c.id, if bal == 0 then Height(big) + 1 else Height(big))
            && (-1 <= bal <= 1 ==> Avl(big))
  {
    hide Rep, RepCtx, Avl, AvlCtx, Height, Ids, CtxIds, Plug, UpHeight, CtxRoot;
    Grown(m, m', c, t, -1);
    JoinShape(c, t, Height(t) + 1);
  }

  // ----- rotations -----

  function RotR(t: Tree): Tree
    requires t.Node? && t.left.Node?
  {
    Node(t.left.left, t.left.id, Node(t.left.right, t.id, t.right))
  }

  function RotL(t: Tree): Tree
    requires t.Node? && t.right.Node?
  {
    Node(Node(t.left, t.id, t.right.left), t.right.id, t.right.right)
  }

  function RotLR(t: Tree): Tree
    requires t.Node? && t.left.Node? && t.left.right.Node?
  {
    RotR(Node(RotL(t.left), t.id, t.right))
  }

  function RotRL(t: Tree): Tree
    requires t.Node? && t.right.Node? && t.right.left.Node?
  {
    RotL(Node(t.left, t.id, RotR(t.right)))
  }

  /** Single and double rotations keep the nodes and their order. */
  lemma {:induction false} RotatedInOrder(t: Tree)
    requires t.Node?
    ensures t.left.Node? ==> InOrder(RotR(t)) == InOrder(t) && Ids(RotR(t)) == Ids(t)
    ensures t.right.Node? ==> InOrder(RotL(t)) == InOrder(t) && Ids(RotL(t)) == Ids(t)
    ensures t.left.Node? && t.left.right.Node? ==> InOrder(RotLR(t)) == InOrder(t) && Ids(RotLR(t)) == Ids(t)
    ensures t.right.Node? && t.right.left.Node? ==> InOrder(RotRL(t)) == InOrder(t) && Ids(RotRL(t)) == Ids(t)
  {
    RotatedOnce(t);
    if t.left.Node? && t.left.right.Node? {
      RotatedOnce(t.left);
      RotatedOnce(Node(RotL(t.left), t.id, t.right));
    }
    if t.right.Node? && t.right.left.Node? {
      RotatedOnce(t.right);
      RotatedOnce(Node(t.left, t.id, RotR(t.right)));
    }
  }

  lemma {:induction false} RotatedOnce(t: Tree)
    requires t.Node?
    ensures t.left.Node? ==> InOrder(RotR(t)) == InOrder(t) && Ids(RotR(t)) == Ids(t)
    ensures t.right.Node? ==> InOrder(RotL(t)) == InOrder(t) && Ids(RotL(t)) == Ids(t)
  {
    if t.left.Node? {
      var a, b, d := InOrder(t.left.left), InOrder(t.left.right), InOrder(t.right);
      assert (a + [t.left.id] + b) + [t.id] + d == a + [t.left.id] + (b + [t.id] + d);
    }
    if t.right.Node? {
      var a, b, d := InOrder(t.left), InOrder(t.right.left), InOrder(t.right.right);
      assert (a + [t.id] + b) + [t.right.id] + d == a + [t.id] + (b + [t.right.id] + d);
    }
  }

  /** A node that is two levels too heavy on the left is repaired by one rotation, or by
      two when the inner grandchild is the higher one. */
  lemma {:induction false} RepairLeft(t: Tree)
    requires t.Node? && Avl(t.left) && Avl(t.right) && Height(t.left) == Height(t.right) + 2
    ensures var n := t.left;
            if Height(n.left) >= Height(n.right) then
              && Avl(RotR(t)) && InOrder(RotR(t)) == InOrder(t) && Ids(RotR(t)) == Ids(t)
              && Height(RotR(t)) == (if Height(n.left) == Height(n.right) then Height(t) else Height(t) - 1)
            else
              && n.right.Node? && Height(n.right) == Height(n.left) + 1
              && Avl(RotLR(t)) && InOrder(RotLR(t)) == InOrder(t) && Ids(RotLR(t)) == Ids(t)
              && Height(RotLR(t)) == Height(t) - 1
  {
    RotatedOnce(t);
    if Height(t.left.left) < Height(t.left.right) {
      RotatedOnce(t.left);
      RotatedOnce(Node(RotL(t.left), t.id, t.right));
    }
  }

  lemma {:induction false} RepairRight(t: Tree)
    requires t.Node? && Avl(t.left) && Avl(t.right) && Height(t.right) == Height(t.left) + 2
    ensures var n := t.right;
            if Height(n.right) >= Height(n.left) then
              && Avl(RotL(t)) && InOrder(RotL(t)) == InOrder(t) && Ids(RotL(t)) == Ids(t)
              && Height(RotL(t)) == (if Height(n.left) == Height(n.right) then Height(t) else Height(t) - 1)
            else
              && n.left.Node? && Height(n.left) == Height(n.right) + 1
              && Avl(RotRL(t)) && InOrder(RotRL(t)) == InOrder(t) && Ids(RotRL(t)) == Ids(t)
              && Height(RotRL(t)) == Height(t) - 1
  {
    RotatedOnce(t);
    if Height(t.right.right) < Height(t.right.left) {
      RotatedOnce(t.right);
      RotatedOnce(Node(t.left, t.id, RotR(t.right)));
    }
  }

  /** The balance updates of the two rotations are exact whatever the heights are. */
  lemma {:induction false} RotateRightBalance(a: Tree, x: Ptr, b: Tree, y: Ptr, d: Tree)
    ensures var bx, bal := Height(b) - Height(a), Height(d) - Height(Node(a, x, b));
            var bal' := bal + 1 - Min(bx, 0);
            && bal' == Height(d) - Height(b)
            && bx + 1 + Max(bal', 0) == Height(Node(b, y, d)) - Height(a)
  {
  }

  lemma {:induction false} RotateLeftBalance(a: Tree, x: Ptr, b: Tree, y: Ptr, d: Tree)
    ensures var bx, bal := Height(Node(b, y, d)) - Height(a), Height(d) - Height(b);
            var bx' := bx - (1 + Max(bal, 0));
            && bx' == Height(b) - Height(a)
            && bal - (1 - Min(bx', 0)) == Height(d) - Height(Node(a, x, b))
  {
  }

  /** Turning Node(Node(a, x, b), y, d) into Node(a, x, Node(b, y, d)) or back touches
      x, y, the root of b and the innermost ancestor only. */
  lemma {:induction false} RotateRightRep(m: Table, m': Table, c: Ctx, a: Tree, x: Ptr, b: Tree, y: Ptr, d: Tree,
                                          hh: int, hup: int)
    requires Rep(m, Node(Node(a, x, b), y, d), CtxParent(c)) && RepUp(m, c, y, hh, hup)
    requires Ids(Node(Node(a, x, b), y, d)) !! CtxIds(c)
    requires SameExcept(m, m', {x, y, Root(b), CtxParent(c)}) && CtxCell(m', c, x, hh)
    requires Has(m', x, Cell(CtxParent(c), Root(a), y, Height(Node(b, y, d)) - Height(a)))
    requires Has(m', y, Cell(x, Root(b), Root(d), Height(d) - Height(b)))
    requires b.Node? ==> Has(m', b.id, Cell(y, Root(b.left), Root(b.right), Height(b.right) - Height(b.left)))
    ensures Rep(m', Node(a, x, Node(b, y, d)), CtxParent(c)) && RepUp(m', c, x, hh, hup)
  {
    var t := Node(a, x, b);
    assert Rep(m, t, y);
    Pieces(m, m', c, a, x, b, y, d, x, y, hh, hup);
    RootFrame(m, m', b, x, y);
    RepFrame(m, m', a, x);
    RepFrame(m, m', d, y);
    RepUpFrame(m, m', c, y, hh, x, hh, hup);
    assert Rep(m', Node(b, y, d), x);
  }

  lemma {:induction false} RotateLeftRep(m: Table, m': Table, c: Ctx, a: Tree, x: Ptr, b: Tree, y: Ptr, d: Tree,
                                         hh: int, hup: int)
    requires Rep(m, Node(a, x, Node(b, y, d)), CtxParent(c)) && RepUp(m, c, x, hh, hup)
    requires Ids(Node(a, x, Node(b, y, d))) !! CtxIds(c)
    requires SameExcept(m, m', {x, y, Root(b), CtxParent(c)}) && CtxCell(m', c, y, hh)
    requires Has(m', y, Cell(CtxParent(c), x, Root(d), Height(d) - Height(Node(a, x, b))))
    requires Has(m', x, Cell(y, Root(a), Root(b), Height(b) - Height(a)))
    requires b.Node? ==> Has(m', b.id, Cell(x, Root(b.left), Root(b.right), Height(b.right) - Height(b.left)))
    ensures Rep(m', Node(Node(a, x, b), y, d), CtxParent(c)) && RepUp(m', c, y, hh, hup)
  {
    var t := Node(b, y, d);
    assert Rep(m, t, x);
    Pieces(m, m', c, a, x, b, y, d, y, x, hh, hup);
    RootFrame(m, m', b, y, x);
    RepFrame(m, m', a, x);
    RepFrame(m, m', d, y);
    RepUpFrame(m, m', c, x, hh, y, hh, hup);
    assert Rep(m', Node(a, x, b), y);
  }

  /** The subtrees and ancestors that a rotation leaves alone. */
  lemma {:induction false} Pieces(m: Table, m': Table, c: Ctx, a: Tree, x: Ptr, b: Tree, y: Ptr, d: Tree,
                                  pb: Ptr, hole: Ptr, hh: int, hup: int)
    requires RepUp(m, c, hole, hh, hup) && Rep(m, a, x) && Rep(m, b, pb) && Rep(m, d, y)
    requires Ids(a) + {x} + Ids(b) + {y} + Ids(d) !! CtxIds(c)
    requires Ids(a) !! Ids(b) && Ids(a) !! Ids(d) && Ids(b) !! Ids(d) && x != y
    requires x !in Ids(a) + Ids(b) + Ids(d) && y !in Ids(a) + Ids(b) + Ids(d)
    requires SameExcept(m, m', {x, y, Root(b), CtxParent(c)})
    ensures SameOn(m, m', Ids(a)) && SameOn(m, m', Ids(d))
    ensures SameOn(m, m', Ids(b) - {Root(b)}) && SameOn(m, m', CtxIds(c) - {CtxParent(c)})
  {
    RepIds(m, a, x); RepIds(m, b, pb); RepIds(m, d, y); RepUpIds(m, c, hole, hh, hup);
  }

  /** The only child ct of the root of t moves up into the root's place. */
  lemma {:induction false} ChainRep(m: Table, m': Table, c: Ctx, t: Tree, ct: Tree, hh: int, hup: int)
    requires t.Node? && Rep(m, t, CtxParent(c)) && RepUp(m, c, t.id, hh, hup) && Ids(t) !! CtxIds(c)
    requires ct.Node? && (t == Node(Nil, t.id, ct) || t == Node(ct, t.id, Nil)) && ct.id in m
    requires SameExcept(m, m', {ct.id, CtxParent(c)}) && Has(m', ct.id, m[ct.id].(parent := CtxParent(c)))
    requires CtxCell(m', c, ct.id, hh)
    ensures Rep(m', ct, CtxParent(c)) && RepUp(m', c, ct.id, hh, hup) && Ids(ct) !! CtxIds(c)
  {
    assert Rep(m, ct, t.id) && Ids(t) == Ids(ct) + {t.id};
    hide Height;
    RepIds(m, ct, t.id);
    RepUpIds(m, c, t.id, hh, hup);
    RootFrame(m, m', ct, t.id, CtxParent(c));
    RepUpFrame(m, m', c, t.id, hh, ct.id, hh, hup);
  }

  lemma {:induction false} LeafShape(m: Table, c: Ctx, x: Ptr)
    ensures var t := Node(Nil, x, Nil);
            && Height(t) == 1 && Height(Nil) == 0 && Avl(Nil) && Rep(m, Nil, CtxParent(c)) && Ids(Nil) == {}
            && InOrder(Plug(c, Nil)) == (Before(c) + InOrder(t.left)) + (InOrder(t.right) + After(c))
  {
    PlugInOrder(c, Nil);
  }

  lemma {:induction false} ChainShape(c: Ctx, t: Tree, ct: Tree)
    requires t.Node? && Avl(t) && ct.Node? && (t == Node(Nil, t.id, ct) || t == Node(ct, t.id, Nil))
    ensures Height(t) == Height(ct) + 1 && Avl(ct)
    ensures InOrder(Plug(c, ct)) == (Before(c) + InOrder(t.left)) + (InOrder(t.right) + After(c))
  {
    PlugInOrder(c, ct);
  }

  lemma {:induction false} AttachShape(c: Ctx, t: Tree, u: Tree, n: Ptr, onLeft: bool)
    requires t.Node? && Avl(t) && AvlCtx(c, Height(t)) && (if onLeft then t.left.Nil? else t.right.Nil?)
    requires u == if onLeft then Node(Node(Nil, n, Nil), t.id, t.right) else Node(t.left, t.id, Node(Nil, n, Nil))
    ensures Avl(u) && (Height(t.left) == Height(t.right) ==> Height(u) == Height(t) + 1)
            && (Height(t.left) != Height(t.right) ==> Height(u) == Height(t))
    ensures Height(u.right) - Height(u.left) ==
              if Height(t.left) != Height(t.right) then 0 else if onLeft then -1 else 1
    ensures InOrder(Plug(c, u)) == if onLeft then Before(c) + [n, t.id] + (InOrder(t.right) + After(c))
                                             else Before(c) + InOrder(t.left) + [t.id, n] + After(c)
  {
    assert InOrder(Node(Nil, n, Nil)) == [n];
    InOrderAt(c, u);
  }

  /** A new leaf n becomes a child of the root of t; u is t with that leaf. */
  lemma {:induction false} AttachRep(m: Table, m': Table, c: Ctx, t: Tree, u: Tree, n: Ptr, hh: int)
    requires t.Node? && Rep(m, t, CtxParent(c)) && RepCtx(m, c, t.id, hh) && Ids(t) !! CtxIds(c)
    requires n !in Ids(t) && n !in CtxIds(c) && SameExcept(m, m', {n, t.id})
    requires u.Node? && u.id == t.id && Has(m', n, Cell(t.id, NULL, NULL, 0))
    requires (t.left.Nil? && u.left == Node(Nil, n, Nil) && u.right == t.right)
             || (t.right.Nil? && u.right == Node(Nil, n, Nil) && u.left == t.left)
    requires Has(m', t.id, Cell(CtxParent(c), Root(u.left), Root(u.right), Height(u.right) - Height(u.left)))
    ensures Rep(m', u, CtxParent(c)) && RepCtx(m', c, t.id, hh) && Ids(u) !! CtxIds(c)
  {
    RepFrame(m, m', t.left, t.id);
    RepFrame(m, m', t.right, t.id);
    RepCtxFrame(m, m', c, t.id, hh);
    assert Ids(Node(Nil, n, Nil)) == {n} && Rep(m', Node(Nil, n, Nil), t.id);
    assert Ids(u) == Ids(t) + {n};
  }

  // ----- one node in the place of another -----

  /** m' differs from m in that y stands where x stood, between l and r. */
  ghost predicate InPlaceOf(m: Table, m': Table, c: Ctx, l: Tree, x: Ptr, r: Tree, y: Ptr) {
    && x in m && Has(m', y, m[x]) && SameExcept(m, m', {y, Root(l), Root(r), CtxParent(c)})
    && (l.Node? ==> l.id in m && Has(m', l.id, m[l.id].(parent := y)))
    && (r.Node? ==> r.id in m && Has(m', r.id, m[r.id].(parent := y)))
    && CtxCell(m', c, y, Height(Node(l, x, r)))
  }

  lemma {:induction false} InPlaceRep(m: Table, m': Table, c: Ctx, l: Tree, x: Ptr, r: Tree, y: Ptr)
    requires Rep(m, Node(l, x, r), CtxParent(c)) && RepCtx(m, c, x, Height(Node(l, x, r)))
    requires Ids(Node(l, x, r)) !! CtxIds(c) && y !in Ids(Node(l, x, r)) && y !in CtxIds(c)
    requires InPlaceOf(m, m', c, l, x, r, y)
    ensures Rep(m', Node(l, y, r), CtxParent(c)) && RepCtx(m', c, y, Height(Node(l, y, r)))
    ensures Ids(Node(l, y, r)) !! CtxIds(c)
  {
    hide Height;
    var hh := Height(Node(l, x, r));
    assert Height(Node(l, y, r)) == hh by { SameShape(l, x, r, y); }
    RepIds(m, l, x); RepIds(m, r, x); RepUpIds(m, c, x, hh, UpHeight(c, hh));
    RootFrame(m, m', l, x, y);
    RootFrame(m, m', r, x, y);
    RepUpFrame(m, m', c, x, hh, y, hh, UpHeight(c, hh));
  }

  lemma {:induction false} SameShape(l: Tree, x: Ptr, r: Tree, y: Ptr)
    ensures Height(Node(l, x, r)) == Height(Node(l, y, r)) && (Avl(Node(l, x, r)) <==> Avl(Node(l, y, r)))
  {
  }

  /** The leftmost node of the right subtree is the in-order successor. */
  lemma {:induction false} Successor(c: Ctx, t: Tree, c2: Ctx, min: Ptr, r2: Tree)
    requires t.Node? && Plug(c2, Node(Nil, min, r2)) == Plug(c, t) && NoDup(InOrder(Plug(c, t)))
    requires Before(c2) == Before(c) + InOrder(t.left) + [t.id]
    ensures var pre, rest := Before(c) + InOrder(t.left), InOrder(r2) + After(c2);
            && [min] + rest == InOrder(t.right) + After(c)
            && NoDup(pre + [t.id] + rest) && min !in pre + [t.id] + rest
  {
    var pre, rest, post := Before(c) + InOrder(t.left), InOrder(r2) + After(c2), InOrder(t.right) + After(c);
    assert InOrder(Node(Nil, min, r2)) == [min] + InOrder(r2);
    hide InOrder, Before, After, Plug;
    assert InOrder(Plug(c, t)) == pre + [t.id] + post by { InOrderAt(c, t); }
    assert InOrder(Plug(c, t)) == pre + [t.id] + ([min] + rest) by { PlugInOrder(c2, Node(Nil, min, r2)); }
    NoDupDropNext(pre, t.id, post, min, rest);
  }

  lemma {:induction false} InOrderAt(c: Ctx, t: Tree)
    requires t.Node?
    ensures InOrder(Plug(c, t)) == (Before(c) + InOrder(t.left)) + [t.id] + (InOrder(t.right) + After(c))
  {
    PlugInOrder(c, t);
  }

  lemma NilInOrder()
    ensures InOrder(Nil) == []
  {
  }

  /** The zipper at x when the entries around x are known. */
  lemma {:induction false} Refocus(t: Tree, x: Ptr, y: Ptr, pre: seq<Ptr>, rest: seq<Ptr>)
      returns (c: Ctx, l: Tree, r: Tree)
    requires InOrder(t) == pre + [x] + rest && NoDup(InOrder(t)) && y !in InOrder(t)
    ensures Plug(c, Node(l, x, r)) == t && Before(c) + InOrder(l) == pre && InOrder(r) + After(c) == rest
    ensures y !in Ids(Node(l, x, r)) && y !in CtxIds(c)
  {
    assert x in InOrder(t);
    c, l, r := Focus(Top, t, x);
    PlugTop(t);
    assert InOrder(t) == Before(c) + InOrder(Node(l, x, r)) + After(c) by { PlugInOrder(c, Node(l, x, r)); }
    InOrderAt(c, Node(l, x, r));
    hide InOrder, Plug;
    NoDupSplit(pre, x, rest, Before(c) + InOrder(l), InOrder(r) + After(c));
    IdsInOrder(Node(l, x, r));
    CtxIdsInOrder(c);
  }

  // ----- height and size -----

  function Fib(n: nat): nat { if n < 2 then n else Fib(n - 1) + Fib(n - 2) }

  lemma {:induction false} FibGrows(n: nat)
    ensures Fib(n) <= Fib(n + 1)
  {
    if n >= 2 { FibGrows(n - 1); FibGrows(n - 2); }
  }

  /** The recursive descent is at most logarithmic: height h needs Fib(h + 2) - 1 nodes. */
  lemma {:induction false} AvlSize(t: Tree)
    requires Avl(t)
    ensures |InOrder(t)| >= Fib(Height(t) + 2) - 1
  {
    if t.Node? {
      var h := Height(t);
      AvlSize(t.left);
      AvlSize(t.right);
      FibGrows(h);
      assert Fib(h + 2) == Fib(h + 1) + Fib(h);
      assert Height(t.left) + 2 == h + 1 || Height(t.right) + 2 == h + 1;
      assert Height(t.left) + 2 >= h && Height(t.right) + 2 >= h;
      if Height(t.left) + 2 == h + 1 {
        assert Height(t.right) + 2 == h || Height(t.right) + 2 == h + 1;
      }
    }
  }
}
