/** The circular doubly linked list of list.h, over a table of list heads.

    A list head is named by a pointer; the two link fields of all heads are kept in
    two maps, so a field write is a map update.  `Ring` says what a well-formed list
    is; the lemmas say what _list_add and _list_del do to it. */
module Lists {
  import opened Basics

  /** Position k of the ring of h: h itself at 0 and again at |s| + 1. */
  function At(h: Ptr, s: seq<Ptr>, k: int): Ptr
    requires 0 <= k <= |s| + 1
  {
    if 1 <= k <= |s| then s[k - 1] else h
  }

  /** The list headed by h holds exactly the entries s, in order, and both link
      directions agree. */
  ghost predicate Ring(next: map<Ptr, Ptr>, prev: map<Ptr, Ptr>, h: Ptr, s: seq<Ptr>) {
    && h !in s && NoDup(s)
    && (forall k :: 0 <= k <= |s| ==> At(h, s, k) in next && next[At(h, s, k)] == At(h, s, k + 1))
    && (forall k :: 1 <= k <= |s| + 1 ==> At(h, s, k) in prev && prev[At(h, s, k)] == At(h, s, k - 1))
  }

  lemma NoDupConcat<T>(a: seq<T>, b: seq<T>)
    requires NoDup(a) && NoDup(b) && forall x :: x in a ==> x !in b
    ensures NoDup(a + b)
  {
    forall i, j | 0 <= i < j < |a + b| ensures (a + b)[i] != (a + b)[j] {
      if i < |a| && j >= |a| { assert a[i] in a && b[j - |a|] in b; }
    }
  }

  lemma NoDupSplit<T>(a: seq<T>, x: T, b: seq<T>, a': seq<T>, b': seq<T>)
    requires NoDup(a + [x] + b) && a + [x] + b == a' + [x] + b'
    ensures a == a' && b == b'
  {
    var s := a + [x] + b;
    assert s[|a|] == x && s[|a'|] == x;
    assert a == s[..|a|] && b == s[|a| + 1..] && a' == s[..|a'|] && b' == s[|a'| + 1..];
  }

  /** A link map changed at most at the named heads. */
  ghost predicate SameOutside(m: map<Ptr, Ptr>, m': map<Ptr, Ptr>, touched: seq<Ptr>) {
    forall y :: y !in touched ==> (y in m <==> y in m') && (y in m ==> m[y] == m'[y])
  }

  function Insert<T>(s: seq<T>, k: int, x: T): seq<T>
    requires 0 <= k <= |s|
  {
    s[..k] + [x] + s[k..]
  }

  function Remove<T>(s: seq<T>, k: int): seq<T>
    requires 0 <= k < |s|
  {
    s[..k] + s[k + 1..]
  }

  lemma NoDupRemove<T>(s: seq<T>, k: int)
    requires NoDup(s) && 0 <= k < |s|
    ensures NoDup(Remove(s, k)) && s[k] !in Remove(s, k)
    ensures forall x :: x in s <==> x == s[k] || x in Remove(s, k)
  {
    var u := Remove(s, k);
    forall i | 0 <= i < |u| ensures u[i] == s[if i < k then i else i + 1] {}
    forall x | x in s && x != s[k] ensures x in u {
      var i :| 0 <= i < |s| && s[i] == x;
      assert u[if i < k then i else i - 1] == x;
    }
  }

  lemma {:induction false} RemoveIsWithout<T(!new)>(s: seq<T>, k: nat)
    requires NoDup(s) && k < |s|
    ensures Remove(s, k) == Without(s, s[k])
  {
    var rest := s[1..];
    forall i, j | 0 <= i < j < |rest| ensures rest[i] != rest[j] { assert s[i + 1] != s[j + 1]; }
    if k == 0 {
      assert s[0] !in rest;
      assert Remove(s, 0) == rest;
    } else {
      RemoveIsWithout(rest, k - 1);
      assert Remove(s, k) == [s[0]] + Remove(rest, k - 1);
    }
  }

  /** Dropping the entry after x. */
  lemma NoDupDropNext<T>(pre: seq<T>, x: T, post: seq<T>, y: T, rest: seq<T>)
    requires NoDup(pre + [x] + post) && pre + [x] + post == pre + [x] + ([y] + rest)
    ensures [y] + rest == post && NoDup(pre + [x] + rest) && y !in pre + [x] + rest
  {
    var s := pre + [x] + post;
    assert post == s[|pre| + 1..] && [y] + rest == s[|pre| + 1..];
    NoDupRemove(s, |pre| + 1);
    assert s[|pre| + 1] == y && pre + [x] + rest == Remove(s, |pre| + 1);
  }

  lemma RingNoDup(next: map<Ptr, Ptr>, prev: map<Ptr, Ptr>, h: Ptr, s: seq<Ptr>)
    requires Ring(next, prev, h, s)
    ensures NoDup(s) && h !in s
  {
  }

  lemma RingAt(next: map<Ptr, Ptr>, prev: map<Ptr, Ptr>, h: Ptr, s: seq<Ptr>, i: int)
    requires Ring(next, prev, h, s) && 0 <= i < |s|
    ensures s[i] != h && s[i] in next && s[i] in prev
    ensures next[s[i]] == if i + 1 < |s| then s[i + 1] else h
    ensures prev[s[i]] == if i > 0 then s[i - 1] else h
  {
    assert At(h, s, i + 1) == s[i];
    assert At(h, s, i + 2) == if i + 1 < |s| then s[i + 1] else h;
    assert At(h, s, i) == if i > 0 then s[i - 1] else h;
  }

  class LinkTable {
    var next: map<Ptr, Ptr>
    var prev: map<Ptr, Ptr>

    constructor ()
      ensures next == map[] && prev == map[]
    {
      next, prev := map[], map[];
    }

    /** INIT_LIST_HEAD */
    method InitHead(h: Ptr)
      modifies this
      ensures Ring(next, prev, h, [])
      ensures next == old(next)[h := h] && prev == old(prev)[h := h]
    {
      next := next[h := h];
      prev := prev[h := h];
    }

    /** _list_add: splice x between the adjacent heads p and n. */
    method AddBetween(x: Ptr, p: Ptr, n: Ptr, ghost h: Ptr, ghost s: seq<Ptr>, ghost k: int)
      requires Ring(next, prev, h, s) && x != h && x !in s
      requires 0 <= k <= |s| && p == At(h, s, k) && n == At(h, s, k + 1)
      modifies this
      ensures Ring(next, prev, h, Insert(s, k, x))
      ensures SameOutside(old(next), next, [h, x] + s) && SameOutside(old(prev), prev, [h, x] + s)
    {
      ghost var n0, p0 := next, prev;
      prev := prev[n := x];
      next := next[x := n];
      prev := prev[x := p];
      next := next[p := x];
      RingInsert(n0, p0, h, s, k, x);
    }

    /** list_add: x becomes the entry after `pos`, the entry (or head) at position k. */
    method AddAfter(x: Ptr, pos: Ptr, ghost h: Ptr, ghost s: seq<Ptr>, ghost k: int)
      requires Ring(next, prev, h, s) && x != h && x !in s
      requires 0 <= k <= |s| && pos == At(h, s, k)
      modifies this
      ensures Ring(next, prev, h, Insert(s, k, x))
      ensures SameOutside(old(next), next, [h, x] + s) && SameOutside(old(prev), prev, [h, x] + s)
    {
      AddBetween(x, pos, next[pos], h, s, k);
    }

    /** list_add_tail: x becomes the entry before `pos`, the entry (or head) at position k. */
    method AddBefore(x: Ptr, pos: Ptr, ghost h: Ptr, ghost s: seq<Ptr>, ghost k: int)
      requires Ring(next, prev, h, s) && x != h && x !in s
      requires 1 <= k <= |s| + 1 && pos == At(h, s, k)
      modifies this
      ensures Ring(next, prev, h, Insert(s, k - 1, x))
      ensures SameOutside(old(next), next, [h, x] + s) && SameOutside(old(prev), prev, [h, x] + s)
    {
      AddBetween(x, prev[pos], pos, h, s, k - 1);
    }

    /** list_del: unlink the entry at position k and clear its own links. */
    method Del(x: Ptr, ghost h: Ptr, ghost s: seq<Ptr>, ghost k: int)
      requires Ring(next, prev, h, s)
      requires 0 <= k < |s| && x == s[k]
      modifies this
      ensures Ring(next, prev, h, Remove(s, k))
      ensures x in next && x in prev && next[x] == NULL && prev[x] == NULL
      ensures SameOutside(old(next), next, [h, x] + s) && SameOutside(old(prev), prev, [h, x] + s)
    {
      assert At(h, s, k + 1) == x;
      ghost var n0, p0 := next, prev;
      var n, p := next[x], prev[x];
      assert n == At(h, s, k + 2) && p == At(h, s, k);
      prev := prev[n := p];
      next := next[p := n];
      next := next[x := NULL];
      prev := prev[x := NULL];
      RingRemove(n0, p0, h, s, k);
    }
  }

  lemma RingInsert(next: map<Ptr, Ptr>, prev: map<Ptr, Ptr>, h: Ptr, s: seq<Ptr>, k: int, x: Ptr)
    requires Ring(next, prev, h, s) && x != h && x !in s && 0 <= k <= |s|
    ensures var p, n := At(h, s, k), At(h, s, k + 1);
            Ring(next[x := n][p := x], prev[n := x][x := p], h, Insert(s, k, x))
  {
    var p, n, s' := At(h, s, k), At(h, s, k + 1), Insert(s, k, x);
    var next', prev' := next[x := n][p := x], prev[n := x][x := p];
    forall i | 0 <= i <= |s'| ensures At(h, s', i) in next' && next'[At(h, s', i)] == At(h, s', i + 1) {
      if i < k {
        assert At(h, s', i) == At(h, s, i) && At(h, s', i + 1) == At(h, s, i + 1);
      } else if i > k + 1 {
        assert At(h, s', i) == At(h, s, i - 1) && At(h, s', i + 1) == At(h, s, i);
      }
    }
    forall i | 1 <= i <= |s'| + 1 ensures At(h, s', i) in prev' && prev'[At(h, s', i)] == At(h, s', i - 1) {
      if i <= k {
        assert At(h, s', i) == At(h, s, i) && At(h, s', i - 1) == At(h, s, i - 1);
      } else if i > k + 1 {
        assert At(h, s', i) == At(h, s, i - 1);
        assert i > k + 2 ==> At(h, s', i - 1) == At(h, s, i - 2);
      }
    }
  }

  lemma RingRemove(next: map<Ptr, Ptr>, prev: map<Ptr, Ptr>, h: Ptr, s: seq<Ptr>, k: int)
    requires Ring(next, prev, h, s) && 0 <= k < |s|
    ensures var x := s[k];
            assert At(h, s, k + 1) == x;
            var p, n := prev[x], next[x];
            Ring(next[p := n][x := NULL], prev[n := p][x := NULL], h, Remove(s, k))
  {
    var x, s' := s[k], Remove(s, k);
    assert At(h, s, k + 1) == x;
    var p, n := prev[x], next[x];
    assert p == At(h, s, k) && n == At(h, s, k + 2);
    var next', prev' := next[p := n][x := NULL], prev[n := p][x := NULL];
    forall i | 0 <= i <= |s'| ensures At(h, s', i) in next' && next'[At(h, s', i)] == At(h, s', i + 1) {
      if i < k {
        assert At(h, s', i) == At(h, s, i) && At(h, s', i + 1) == At(h, s, i + 1);
      } else if i > k {
        assert At(h, s', i) == At(h, s, i + 1) && At(h, s', i + 1) == At(h, s, i + 2);
      } else {
        assert At(h, s', i) == At(h, s, k) && At(h, s', i + 1) == At(h, s, k + 2);
      }
    }
    forall i | 1 <= i <= |s'| + 1 ensures At(h, s', i) in prev' && prev'[At(h, s', i)] == At(h, s', i - 1) {
      if i <= k {
        assert At(h, s', i) == At(h, s, i) && At(h, s', i - 1) == At(h, s, i - 1);
      } else if i > k + 1 {
        assert At(h, s', i) == At(h, s, i + 1) && At(h, s', i - 1) == At(h, s, i);
      } else {
        assert At(h, s', i) == At(h, s, k + 2) && At(h, s', i - 1) == At(h, s, k);
      }
    }
  }
}
