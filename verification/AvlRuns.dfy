/** Whole runs of an AVL tree: any sequence of insertions and deletions after avl_init. */
module AvlRuns {
  import opened Basics
  import opened Lists
  import opened AvlOrder
  import opened Avl

  datatype Op = Add(node: Ptr) | Drop(node: Ptr)

  /** Where a key goes: behind all that are not greater */
  function Position<K>(cmp: (K, K) -> int, key: map<Ptr, K>, s: seq<Ptr>, kk: K): (p: nat)
    ensures p <= |s|
  {
    if s == [] then 0
    else if s[|s| - 1] in key && cmp(key[s[|s| - 1]], kk) <= 0 then |s|
    else Position(cmp, key, s[..|s| - 1], kk)
  }

  lemma {:induction false} PositionIs<K(!new)>(cmp: (K, K) -> int, key: map<Ptr, K>, s: seq<Ptr>, kk: K, p: int)
    requires TotalOrder(cmp) && Splits(cmp, key, s, kk, p)
    ensures Position(cmp, key, s, kk) == p
  {
    if s != [] && p < |s| {
      PositionIs(cmp, key, s[..|s| - 1], kk, p);
    }
  }

  /** What an operation does to the list of nodes */
  ghost function Apply<K>(cmp: (K, K) -> int, key: map<Ptr, K>, dups: bool, s: seq<Ptr>, op: Op): seq<Ptr> {
    match op
    case Drop(n) => Without(s, n)
    case Add(n) =>
      if n !in key || (!dups && Present(cmp, key, s, key[n])) then s
      else Lists.Insert(s, Position(cmp, key, s, key[n]), n)
  }

  /** What callers owe: nodes that are inserted have a key and are not in the tree, those that
      are deleted are. */
  ghost predicate Proper<K>(key: map<Ptr, K>, s: seq<Ptr>, op: Op) {
    match op
    case Add(n) => n > 0 && n in key && n !in s
    case Drop(n) => n in s
  }

  ghost function Outcome<K>(cmp: (K, K) -> int, key: map<Ptr, K>, dups: bool, ops: seq<Op>): seq<Ptr> {
    if ops == [] then [] else Apply(cmp, key, dups, Outcome(cmp, key, dups, ops[..|ops| - 1]), ops[|ops| - 1])
  }

  ghost predicate ProperRun<K>(cmp: (K, K) -> int, key: map<Ptr, K>, dups: bool, ops: seq<Op>) {
    forall i :: 0 <= i < |ops| ==> Proper(key, Outcome(cmp, key, dups, ops[..i]), ops[i])
  }

  lemma {:induction false} OutcomeNext<K>(cmp: (K, K) -> int, key: map<Ptr, K>, dups: bool, ops: seq<Op>, i: nat)
    requires i < |ops|
    ensures Outcome(cmp, key, dups, ops[..i + 1]) == Apply(cmp, key, dups, Outcome(cmp, key, dups, ops[..i]), ops[i])
  {
    assert ops[..i + 1][..i] == ops[..i];
  }

  /** After any run the invariant holds, and the list of nodes is what the operations say. */
  method Replay<K(!new)>(cmp: (K, K) -> int, dups: bool, key: map<Ptr, K>, ops: seq<Op>) returns (tree: AvlTree<K>)
    requires TotalOrder(cmp) && ProperRun(cmp, key, dups, ops)
    ensures tree.Valid() && tree.order == Outcome(cmp, key, dups, ops) && tree.count == |tree.order|
  {
    tree := new AvlTree(cmp, dups, key);
    var i := 0;
    while i < |ops|
      invariant 0 <= i <= |ops| && tree.Valid() && fresh(tree) && fresh(tree.links)
      invariant tree.cmp == cmp && tree.allowDups == dups && tree.key == key
      invariant tree.order == Outcome(cmp, key, dups, ops[..i])
    {
      OutcomeNext(cmp, key, dups, ops, i);
      assert Proper(key, tree.order, ops[i]);
      Step(tree, ops[i]);
      i := i + 1;
    }
    assert ops[..i] == ops;
  }

  method Step<K(!new)>(tree: AvlTree<K>, op: Op)
    requires tree.Valid() && Proper(tree.key, tree.order, op)
    modifies tree`nodes, tree`root, tree`leader, tree`count, tree`tree, tree`order, tree.links
    ensures tree.Valid() && tree.order == Apply(tree.cmp, tree.key, tree.allowDups, old(tree.order), op)
  {
    hide Ring, Runs, Leaders, Present;
    match op
    case Add(n) =>
      var r := tree.Insert(n);
      if r == 0 {
        ghost var k :|
          Splits(tree.cmp, tree.key, old(tree.order), tree.key[n], k)
          && tree.order == Lists.Insert(old(tree.order), k, n);
        PositionIs(tree.cmp, tree.key, old(tree.order), tree.key[n], k);
      }
    case Drop(n) =>
      ghost var k :| 0 <= k < |tree.order| && tree.order[k] == n;
      RingNoDup(tree.links.next, tree.links.prev, HEAD, tree.order);
      RemoveIsWithout(tree.order, k);
      tree.Delete(n, k);
  }
}
