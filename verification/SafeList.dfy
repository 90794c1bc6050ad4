/** safe_list.c: a list that may lose entries while any number of iterations over it are
    under way.  A running iteration hangs in a chain of iterators on the entry it will visit
    next; deleting that entry moves the chain on to its successor. */
module SafeList {
  import opened Basics
  import opened Lists

  /** The list head; entries are positive. */
  const HEAD: Ptr := -1

  /** A `struct safe_list_iterator **`: the first-iterator field of an entry, or the next
      field of another iterator. */
  datatype Slot = OfEntry(entry: Ptr) | OfIter(iter: int)

  datatype Iter = Iter(slot: Slot, nextI: int, next: Ptr)

  /** The chain of iterators on entry e: linked forwards, each knowing the slot that holds
      it, and each about to visit e. */
  ghost predicate Chain(first: map<Ptr, int>, iters: map<int, Iter>, e: Ptr, c: seq<int>) {
    && e in first && first[e] == (if c == [] then NULL else c[0]) && NoDup(c)
    && forall k :: 0 <= k < |c| ==> ChainLink(iters, e, c, k)
  }

  ghost predicate ChainLink(iters: map<int, Iter>, e: Ptr, c: seq<int>, k: int)
    requires 0 <= k < |c|
  {
    && c[k] > 0 && c[k] in iters
    && iters[c[k]] == Iter(if k == 0 then OfEntry(e) else OfIter(c[k - 1]), if k + 1 < |c| then c[k + 1] else NULL, e)
  }

  /** The entries of a sequence that are in a set, in order. */
  function Kept(s: seq<Ptr>, keep: set<Ptr>): seq<Ptr> {
    if s == [] then [] else (if s[0] in keep then [s[0]] else []) + Kept(s[1..], keep)
  }

  /** What an iteration will still visit if nothing changes: the list from `next` on. */
  ghost function Ahead(s: seq<Ptr>, next: Ptr): seq<Ptr> {
    if s == [] then [] else if s[0] == next then s else Ahead(s[1..], next)
  }

  lemma {:induction false} KeptConcat(a: seq<Ptr>, b: seq<Ptr>, keep: set<Ptr>)
    ensures Kept(a + b, keep) == Kept(a, keep) + Kept(b, keep)
  {
    if a == [] {
      assert a + b == b;
    } else {
      assert (a + b)[1..] == a[1..] + b;
      KeptConcat(a[1..], b, keep);
      var h := if a[0] in keep then [a[0]] else [];
      assert Kept(a + b, keep) == h + Kept(a[1..] + b, keep) && Kept(a, keep) == h + Kept(a[1..], keep);
      assert h + (Kept(a[1..], keep) + Kept(b, keep)) == (h + Kept(a[1..], keep)) + Kept(b, keep);
    }
  }

  lemma {:induction false} KeptTwice(s: seq<Ptr>, keep: set<Ptr>, keep': set<Ptr>)
    requires keep' <= keep
    ensures Kept(Kept(s, keep), keep') == Kept(s, keep')
  {
    if s != [] {
      KeptConcat(if s[0] in keep then [s[0]] else [], Kept(s[1..], keep), keep');
      KeptTwice(s[1..], keep, keep');
    }
  }

  lemma {:induction false} KeptSkip(a: seq<Ptr>, x: Ptr, b: seq<Ptr>, keep: set<Ptr>)
    requires x !in keep
    ensures Kept(a + [x] + b, keep) == Kept(a + b, keep)
  {
    hide Kept;
    KeptConcat(a, b, keep);
    KeptConcat(a + [x], b, keep);
    KeptConcat(a, [x], keep);
    NotKept(x, keep);
    assert Kept(a, keep) + [] == Kept(a, keep);
  }

  lemma {:induction false} AheadAt(s: seq<Ptr>, k: int)
    requires NoDup(s) && 0 <= k < |s|
    ensures Ahead(s, s[k]) == s[k..]
  {
    if k > 0 {
      assert s[0] != s[k];
      AheadAt(s[1..], k - 1);
    }
  }

  lemma {:induction false} AheadNone(s: seq<Ptr>, x: Ptr)
    requires x !in s
    ensures Ahead(s, x) == []
  {
    if s != [] { AheadNone(s[1..], x); }
  }

  // ----- chains -----

  lemma {:induction false} ChainFrame(first: map<Ptr, int>, iters: map<int, Iter>, first': map<Ptr, int>,
                                      iters': map<int, Iter>, e: Ptr, c: seq<int>)
    requires Chain(first, iters, e, c) && e in first' && first'[e] == first[e]
    requires forall i :: i in c ==> i in iters && i in iters' && iters'[i] == iters[i]
    ensures Chain(first', iters', e, c)
  {
    forall k | 0 <= k < |c| ensures ChainLink(iters', e, c, k) {
      assert ChainLink(iters, e, c, k) && c[k] in c;
    }
  }

  /** The writes of __safe_list_set_iterator, for a successor e with chain c. */
  lemma {:induction false} ChainPush(first: map<Ptr, int>, iters: map<int, Iter>, e: Ptr, c: seq<int>, i: int,
                                     iters': map<int, Iter>)
    requires Chain(first, iters, e, c) && i > 0 && i !in c
    requires i in iters' && iters'[i] == Iter(OfEntry(e), first[e], e)
    requires forall j :: j in c ==>
               j in iters && j in iters' && iters'[j] ==
                 if j == first[e] then iters[j].(slot := OfIter(i)) else iters[j]
    ensures Chain(first[e := i], iters', e, [i] + c)
  {
    var c' := [i] + c;
    forall k | 0 <= k < |c'| ensures ChainLink(iters', e, c', k) {
      if k > 0 {
        assert ChainLink(iters, e, c, k - 1) && c'[k] == c[k - 1] && c[k - 1] in c;
        assert k + 1 < |c'| ==> c'[k + 1] == c[k];
        assert k > 1 ==> c[k - 1] != c[0];
      }
    }
  }

  /** An iterator j when its neighbour `gone` leaves the chain. */
  function Closed(it: Iter, j: int, gone: Iter): Iter {
    if gone.slot == OfIter(j) then it.(nextI := gone.nextI)
    else if gone.nextI != NULL && gone.nextI == j then it.(slot := gone.slot)
    else it
  }

  /** The writes of __safe_list_del_iterator, for the iterator at position k of a chain. */
  lemma {:induction false} ChainUnlink(first: map<Ptr, int>, iters: map<int, Iter>, e: Ptr, c: seq<int>, k: int,
                                       first': map<Ptr, int>, iters': map<int, Iter>)
    requires Chain(first, iters, e, c) && 0 <= k < |c|
    requires forall j :: j in c ==> j in iters && j in iters'
    requires e in first' && first'[e] == if k == 0 then (if |c| > 1 then c[1] else NULL) else first[e]
    requires forall j :: j in c && j != c[k] ==> iters'[j] == Closed(iters[j], j, iters[c[k]])
    ensures Chain(first', iters', e, Remove(c, k))
  {
    var c' := Remove(c, k);
    assert ChainLink(iters, e, c, k);
    forall m | 0 <= m < |c'| ensures c'[m] == c[if m < k then m else m + 1] {}
    forall m | 0 <= m < |c'| ensures ChainLink(iters', e, c', m) {
      var n := if m < k then m else m + 1;
      assert ChainLink(iters, e, c, n) && c[n] in c && c[n] != c[k];
      assert k > 0 ==> (c[k - 1] == c[n] <==> n == k - 1);
      assert k + 1 < |c| ==> (c[k + 1] == c[n] <==> n == k + 1);
    }
  }

  /** An iterator j of a chain c that moves over to entry e, whose chain so far starts with rest. */
  function Rehung(it: Iter, j: int, c: seq<int>, rest: int, e: Ptr): Iter
    requires c != []
  {
    Iter(if j == c[0] then OfEntry(e) else it.slot, if j == c[|c| - 1] then rest else it.nextI, e)
  }

  /** The writes of safe_list_del: the chain c of the deleted entry is put before the chain d
      of its successor e. */
  lemma {:induction false} ChainJoin(first: map<Ptr, int>, iters: map<int, Iter>, x: Ptr, c: seq<int>, e: Ptr,
                                     d: seq<int>, first': map<Ptr, int>, iters': map<int, Iter>)
    requires Chain(first, iters, x, c) && Chain(first, iters, e, d) && c != [] && x != e
    requires e in first' && first'[e] == c[0]
    requires forall j :: j in c ==> j in iters && j in iters' && iters'[j] == Rehung(iters[j], j, c, first[e], e)
    requires forall j :: j in d ==>
               j in iters && j in iters' && iters'[j] ==
                 if j == d[0] then iters[j].(slot := OfIter(c[|c| - 1])) else iters[j]
    ensures Chain(first', iters', e, c + d)
  {
    var f := c + d;
    forall j | j in c ensures j !in d {
      var k :| 0 <= k < |c| && c[k] == j;
      assert ChainLink(iters, x, c, k);
    }
    NoDupConcat(c, d);
    forall k | 0 <= k < |f| ensures ChainLink(iters', e, f, k) {
      if k < |c| {
        assert f[k] == c[k] && c[k] in c && ChainLink(iters, x, c, k);
        assert k + 1 < |c| ==> f[k + 1] == c[k + 1] && c[k] != c[|c| - 1];
        assert k > 0 ==> f[k - 1] == c[k - 1] && c[k] != c[0];
      } else {
        var m := k - |c|;
        assert f[k] == d[m] && d[m] in d && ChainLink(iters, e, d, m);
        assert m > 0 ==> f[k - 1] == d[m - 1] && d[m] != d[0];
        assert m + 1 < |d| ==> f[k + 1] == d[m + 1];
      }
    }
  }

  // ----- all chains together -----

  ghost predicate Spot(s: seq<Ptr>, e: Ptr) { e == HEAD || e in s }

  /** Every entry (and the head) has a chain, and every running iterator hangs in the chain
      of exactly the entry it will visit next. */
  ghost predicate Hanging(first: map<Ptr, int>, iters: map<int, Iter>, chains: map<Ptr, seq<int>>, s: seq<Ptr>,
                          running: set<int>) {
    && (forall e :: Spot(s, e) ==> e in chains && Chain(first, iters, e, chains[e]))
    && (forall e, i :: Spot(s, e) && e in chains && i in chains[e] ==> i in running)
    && (forall i :: i in running ==>
        i > 0 && i in iters && Spot(s, iters[i].next) && iters[i].next in chains && i in chains[iters[i].next])
  }

  /** A chain holds exactly the running iterators whose next entry it is. */
  lemma {:induction false} InChain(first: map<Ptr, int>, iters: map<int, Iter>, chains: map<Ptr, seq<int>>,
                                   s: seq<Ptr>, running: set<int>, e: Ptr, i: int)
    requires Hanging(first, iters, chains, s, running) && Spot(s, e)
    ensures e in chains && (i in chains[e] <==> i in running && iters[i].next == e)
  {
    if i in chains[e] {
      var k :| 0 <= k < |chains[e]| && chains[e][k] == i;
      assert ChainLink(iters, e, chains[e], k);
    }
  }

  lemma {:induction false} HangOne(first: map<Ptr, int>, iters: map<int, Iter>, chains: map<Ptr, seq<int>>,
                                   s: seq<Ptr>, running: set<int>,
                                   e: Ptr, i: int, iters': map<int, Iter>)
    requires Hanging(first, iters, chains, s, running) && Spot(s, e) && i > 0 && i !in running
    requires i in iters' && iters'[i] == Iter(OfEntry(e), first[e], e)
    requires forall j :: j in iters && j != i ==>
               j in iters' && iters'[j] ==
                 if first[e] != NULL && j == first[e] then iters[j].(slot := OfIter(i)) else iters[j]
    ensures Hanging(first[e := i], iters', chains[e := [i] + chains[e]], s, running + {i})
  {
    var first', chains' := first[e := i], chains[e := [i] + chains[e]];
    var c := chains[e];
    assert Chain(first, iters, e, c);
    assert first[e] != NULL ==> c != [] && ChainLink(iters, e, c, 0);
    forall j | j in c ensures j in iters && j != i { InChain(first, iters, chains, s, running, e, j); }
    ChainPush(first, iters, e, c, i, iters');
    forall e' | Spot(s, e') && e' != e ensures Chain(first', iters', e', chains[e']) {
      forall j | j in chains[e'] ensures j in iters && j in iters' && iters'[j] == iters[j] {
        InChain(first, iters, chains, s, running, e', j);
        if j == first[e] { InChain(first, iters, chains, s, running, e, j); }
      }
      ChainFrame(first, iters, first', iters', e', chains[e']);
    }
    forall e', j | Spot(s, e') && e' in chains' && j in chains'[e'] ensures j in running + {i} {
      InChain(first, iters, chains, s, running, e', j);
    }
    forall j | j in running + {i} ensures j in iters' && iters'[j].next in chains' && j in chains'[iters'[j].next] {
      if j != i { InChain(first, iters, chains, s, running, iters[j].next, j); }
    }
  }

  lemma {:induction false} UnhangOne(first: map<Ptr, int>, iters: map<int, Iter>, chains: map<Ptr, seq<int>>,
                                     s: seq<Ptr>, running: set<int>,
                                     i: int, k: int, first': map<Ptr, int>, iters': map<int, Iter>)
    requires Hanging(first, iters, chains, s, running) && i in running
    requires 0 <= k < |chains[iters[i].next]| && chains[iters[i].next][k] == i
    requires first' == if iters[i].slot.OfEntry? then first[iters[i].slot.entry := iters[i].nextI] else first
    requires forall j :: j in iters && j != i ==> j in iters' && iters'[j] == Closed(iters[j], j, iters[i])
    ensures Hanging(first', iters', chains[iters[i].next := Remove(chains[iters[i].next], k)], s, running - {i})
  {
    hide Remove, NoDup;
    var e := iters[i].next;
    var c := chains[e];
    var c' := Remove(c, k);
    var chains' := chains[e := c'];
    assert Chain(first, iters, e, c) && ChainLink(iters, e, c, k);
    NoDupRemove(c, k);
    if k > 0 { InChain(first, iters, chains, s, running, e, c[k - 1]); }
    if k + 1 < |c| { InChain(first, iters, chains, s, running, e, c[k + 1]); }
    forall j | j in c ensures j in iters { InChain(first, iters, chains, s, running, e, j); }
    ChainUnlink(first, iters, e, c, k, first', iters'[i := iters[i]]);
    forall j | j in c' ensures j in iters && j in iters' {}
    ChainFrame(first', iters'[i := iters[i]], first', iters', e, c');
    UnhangOthers(first, iters, chains, s, running, i, first', iters');
    StillRunning(first, iters, chains, s, running, i, c', iters');
  }

  lemma {:induction false} StillRunning(first: map<Ptr, int>, iters: map<int, Iter>, chains: map<Ptr, seq<int>>,
                                        s: seq<Ptr>, running: set<int>, i: int, c: seq<int>, iters': map<int, Iter>)
    requires Hanging(first, iters, chains, s, running) && i in running
    requires forall j :: j in c <==> j in chains[iters[i].next] && j != i
    requires forall j :: j in iters && j != i ==> j in iters' && iters'[j] == Closed(iters[j], j, iters[i])
    ensures var chains' := chains[iters[i].next := c];
            && (forall e, j :: Spot(s, e) && e in chains' && j in chains'[e] ==> j in running - {i})
            && forall j :: j in running - {i} ==>
                 j in iters' && iters'[j].next in chains' && j in chains'[iters'[j].next]
  {
    var chains' := chains[iters[i].next := c];
    forall e, j | Spot(s, e) && e in chains' && j in chains'[e] ensures j in running - {i} {
      InChain(first, iters, chains, s, running, e, j);
    }
    forall j | j in running - {i} ensures j in iters' && iters'[j].next in chains' && j in chains'[iters'[j].next] {
      InChain(first, iters, chains, s, running, iters[j].next, j);
    }
  }

  /** The chains of other entries are not touched. */
  lemma {:induction false} UnhangOthers(first: map<Ptr, int>, iters: map<int, Iter>, chains: map<Ptr, seq<int>>,
                                        s: seq<Ptr>, running: set<int>,
                                        i: int, first': map<Ptr, int>, iters': map<int, Iter>)
    requires Hanging(first, iters, chains, s, running) && i in running
    requires first' == if iters[i].slot.OfEntry? then first[iters[i].slot.entry := iters[i].nextI] else first
    requires forall j :: j in iters && j != i ==> j in iters' && iters'[j] == Closed(iters[j], j, iters[i])
    ensures forall e' :: Spot(s, e') && e' != iters[i].next ==> e' in chains && Chain(first', iters', e', chains[e'])
  {
    var e := iters[i].next;
    var k := ChainIndex(first, iters, chains, s, running, i);
    assert ChainLink(iters, e, chains[e], k);
    forall e' | Spot(s, e') && e' != e ensures Chain(first', iters', e', chains[e']) {
      forall j | j in chains[e'] ensures j in iters && j in iters' && iters'[j] == iters[j] {
        InChain(first, iters, chains, s, running, e', j);
        InChain(first, iters, chains, s, running, e, j);
        if k > 0 { InChain(first, iters, chains, s, running, e, chains[e][k - 1]); }
        if k + 1 < |chains[e]| { InChain(first, iters, chains, s, running, e, chains[e][k + 1]); }
      }
      ChainFrame(first, iters, first', iters', e', chains[e']);
    }
  }

  /** An iterator j outside the chain c that moves in front of the chain starting with rest. */
  function Behind(it: Iter, j: int, rest: int, c: seq<int>): Iter
    requires c != []
  {
    if rest != NULL && j == rest then it.(slot := OfIter(c[|c| - 1])) else it
  }

  lemma {:induction false} RehangAll(first: map<Ptr, int>, iters: map<int, Iter>, chains: map<Ptr, seq<int>>,
                                     s: seq<Ptr>, running: set<int>,
                                     k: int, e: Ptr, first': map<Ptr, int>, iters': map<int, Iter>)
    requires Hanging(first, iters, chains, s, running) && NoDup(s) && HEAD !in s && 0 <= k < |s|
    requires Spot(s, e) && e != s[k] && chains[s[k]] != []
    requires first' == first[e := chains[s[k]][0]][s[k] := NULL]
    requires forall j :: j in chains[s[k]] ==>
               j in iters' && iters'[j] == Rehung(iters[j], j, chains[s[k]], first[e], e)
    requires forall j :: j in iters && j !in chains[s[k]] ==>
               j in iters' && iters'[j] == Behind(iters[j], j, first[e], chains[s[k]])
    ensures Hanging(first', iters', chains[e := chains[s[k]] + chains[e]], Remove(s, k), running)
  {
    var x := s[k];
    var c, d, s' := chains[x], chains[e], Remove(s, k);
    var chains' := chains[e := c + d];
    NoDupRemove(s, k);
    assert Chain(first, iters, x, c) && Chain(first, iters, e, d);
    forall j | j in c ensures j in iters && j !in d {
      InChain(first, iters, chains, s, running, x, j);
      InChain(first, iters, chains, s, running, e, j);
    }
    forall j | j in d ensures j in iters && j > 0 { InChain(first, iters, chains, s, running, e, j); }
    ChainJoin(first, iters, x, c, e, d, first', iters');
    forall e' | Spot(s', e') && e' != e ensures e' in chains' && Chain(first', iters', e', chains'[e']) {
      forall j | j in chains[e'] ensures j in iters && j in iters' && iters'[j] == iters[j] {
        InChain(first, iters, chains, s, running, e', j);
        InChain(first, iters, chains, s, running, x, j);
        InChain(first, iters, chains, s, running, e, j);
        if first[e] != NULL { assert first[e] == d[0] && d[0] in d; }
      }
      ChainFrame(first, iters, first', iters', e', chains[e']);
    }
    forall e', j | Spot(s', e') && e' in chains' && j in chains'[e'] ensures j in running {
      InChain(first, iters, chains, s, running, e', j);
      InChain(first, iters, chains, s, running, x, j);
      InChain(first, iters, chains, s, running, e, j);
    }
    forall j | j in running
      ensures j in iters' && Spot(s', iters'[j].next) && iters'[j].next in chains' && j in chains'[iters'[j].next] {
      InChain(first, iters, chains, s, running, iters[j].next, j);
      InChain(first, iters, chains, s, running, x, j);
    }
  }

  lemma {:induction false} DropEntry(first: map<Ptr, int>, iters: map<int, Iter>, chains: map<Ptr, seq<int>>,
                                     s: seq<Ptr>, running: set<int>, k: int)
    requires Hanging(first, iters, chains, s, running) && NoDup(s) && 0 <= k < |s| && s[k] != HEAD && chains[s[k]] == []
    ensures Hanging(first, iters, chains, Remove(s, k), running)
  {
    NoDupRemove(s, k);
    forall i | i in running ensures Spot(Remove(s, k), iters[i].next) {
      InChain(first, iters, chains, s, running, iters[i].next, i);
    }
  }

  lemma {:induction false} NewEntry(first: map<Ptr, int>, iters: map<int, Iter>, chains: map<Ptr, seq<int>>,
                                    s: seq<Ptr>, running: set<int>, k: int, x: Ptr)
    requires Hanging(first, iters, chains, s, running) && 0 <= k <= |s| && x !in s && x != HEAD
    ensures Hanging(first[x := NULL], iters, chains[x := []], Insert(s, k, x), running)
  {
    var s' := Insert(s, k, x);
    forall e | Spot(s', e) && e != x ensures Spot(s, e) && Chain(first[x := NULL], iters, e, chains[e]) {
      if e != HEAD { assert e in s[..k] || e in s[k..]; }
      forall j | j in chains[e] ensures j in iters { InChain(first, iters, chains, s, running, e, j); }
      ChainFrame(first, iters, first[x := NULL], iters, e, chains[e]);
    }
    forall i | i in running ensures Spot(s', iters[i].next) {
      var e := iters[i].next;
      if e != HEAD { assert s == s[..k] + s[k..]; }
    }
  }

  // ----- what an iteration has seen -----

  /** The story of one iteration over the list, now s: it started over `start`; `stay` are
      those entries that have not been deleted since; it has called back for `visited` and
      stands at cur.  The visited entries, and those still ahead of it, that stayed are
      exactly all that stayed, each once and in order. */
  datatype Story = Story(start: seq<Ptr>, stay: set<Ptr>, visited: seq<Ptr>)

  ghost predicate Faithful(st: Story, s: seq<Ptr>, cur: Ptr, next: Ptr) {
    && (forall x :: x in st.stay ==> x in s)
    && Kept(st.visited, st.stay) + (if cur == HEAD then [] else Kept(Ahead(s, next), st.stay)) ==
      Kept(st.start, st.stay)
  }

  /** The successor of an entry, or of the head, in the list. */
  function Succ(s: seq<Ptr>, k: int): Ptr
    requires -1 <= k < |s|
  {
    if k + 1 < |s| then s[k + 1] else HEAD
  }

  lemma {:induction false} AheadSucc(s: seq<Ptr>, k: int)
    requires NoDup(s) && HEAD !in s && -1 <= k < |s|
    ensures Ahead(s, Succ(s, k)) == s[k + 1..]
  {
    if k + 1 < |s| { AheadAt(s, k + 1); } else { AheadNone(s, HEAD); }
  }

  /** Beginning: the first entry is visited at once. */
  lemma {:induction false} BeginStory(s: seq<Ptr>)
    requires NoDup(s) && HEAD !in s
    ensures Faithful(Story(s, set x | x in s, if s == [] then [] else [s[0]]), s, Succ(s, -1),
                     if s == [] then HEAD else Succ(s, 0))
  {
    var stay := set x | x in s;
    if s != [] {
      AheadSucc(s, 0);
      assert s == [s[0]] + s[1..];
      KeptConcat([s[0]], s[1..], stay);
    }
  }

  /** Advancing to the entry n that the iterator hangs on. */
  lemma {:induction false} AdvanceStory(st: Story, s: seq<Ptr>, cur: Ptr, k: int)
    requires NoDup(s) && HEAD !in s && cur != HEAD && 0 <= k <= |s|
    requires Faithful(st, s, cur, if k < |s| then s[k] else HEAD)
    ensures k < |s| ==> Faithful(st.(visited := st.visited + [s[k]]), s, s[k], Succ(s, k))
    ensures k == |s| ==> Faithful(st, s, HEAD, if s == [] then HEAD else s[0])
  {
    hide Kept, Ahead, NoDup;
    if k < |s| {
      AheadAt(s, k);
      AheadSucc(s, k);
      assert s[k..] == [s[k]] + s[k + 1..];
      KeptConcat([s[k]], s[k + 1..], st.stay);
      KeptConcat(st.visited, [s[k]], st.stay);
      assert Kept(st.visited, st.stay) + (Kept([s[k]], st.stay) + Kept(s[k + 1..], st.stay))
          == (Kept(st.visited, st.stay) + Kept([s[k]], st.stay)) + Kept(s[k + 1..], st.stay);
    } else {
      AheadNone(s, HEAD);
      KeptNone(st.stay);
    }
  }

  lemma {:induction false} KeptNone(keep: set<Ptr>)
    ensures Kept([], keep) == []
  {
  }

  /** Deleting the entry at k; an iterator that hung on it now hangs on its successor. */
  lemma {:induction false} DeleteStory(st: Story, s: seq<Ptr>, cur: Ptr, next: Ptr, k: int)
    requires NoDup(s) && HEAD !in s && 0 <= k < |s| && Spot(s, next) && Faithful(st, s, cur, next)
    ensures Faithful(st.(stay := st.stay - {s[k]}), Remove(s, k), cur, if next == s[k] then Succ(s, k) else next)
  {
    var stay', s', next' := st.stay - {s[k]}, Remove(s, k), if next == s[k] then Succ(s, k) else next;
    NoDupRemove(s, k);
    KeptTwice(st.visited, st.stay, stay');
    KeptTwice(st.start, st.stay, stay');
    if cur != HEAD {
      var a, a' := Ahead(s, next), Ahead(s', next');
      KeptTwice(a, st.stay, stay');
      KeptConcat(Kept(st.visited, st.stay), Kept(a, st.stay), stay');
      AheadDelete(s, next, k, stay');
    } else {
      assert Kept(st.visited, st.stay) + [] == Kept(st.visited, st.stay);
      assert Kept(st.visited, stay') + [] == Kept(st.visited, stay');
    }
  }

  lemma {:induction false} NotKept(x: Ptr, keep: set<Ptr>)
    requires x !in keep
    ensures Kept([x], keep) == []
  {
  }

  lemma {:induction false} AheadDelete(s: seq<Ptr>, next: Ptr, k: int, keep: set<Ptr>)
    requires NoDup(s) && HEAD !in s && 0 <= k < |s| && Spot(s, next) && s[k] !in keep
    ensures Kept(Ahead(Remove(s, k), if next == s[k] then Succ(s, k) else next), keep) == Kept(Ahead(s, next), keep)
  {
    hide Kept, Ahead;
    if next == s[k] {
      AheadDeleteNext(s, k, keep);
    } else if next == HEAD {
      AheadNone(s, HEAD);
      AheadNone(Remove(s, k), HEAD);
    } else {
      var n :| 0 <= n < |s| && s[n] == next;
      AheadDeleteOther(s, n, k, keep);
    }
  }

  lemma {:induction false} AheadDeleteNext(s: seq<Ptr>, k: int, keep: set<Ptr>)
    requires NoDup(s) && HEAD !in s && 0 <= k < |s| && s[k] !in keep
    ensures Kept(Ahead(Remove(s, k), Succ(s, k)), keep) == Kept(Ahead(s, s[k]), keep)
  {
    hide Kept, Ahead;
    var s' := Remove(s, k);
    NoDupRemove(s, k);
    AheadAt(s, k);
    assert s[k..] == [s[k]] + s[k + 1..];
    KeptConcat([s[k]], s[k + 1..], keep);
    NotKept(s[k], keep);
    assert [] + Kept(s[k + 1..], keep) == Kept(s[k + 1..], keep);
    if k + 1 < |s| {
      assert s'[k] == s[k + 1];
      AheadAt(s', k);
      assert s'[k..] == s[k + 1..];
    } else {
      AheadNone(s', HEAD);
      assert s[k + 1..] == [];
    }
  }

  lemma {:induction false} AheadDeleteOther(s: seq<Ptr>, n: int, k: int, keep: set<Ptr>)
    requires NoDup(s) && 0 <= k < |s| && 0 <= n < |s| && n != k && s[k] !in keep
    ensures Kept(Ahead(Remove(s, k), s[n]), keep) == Kept(Ahead(s, s[n]), keep)
  {
    hide Kept, Ahead;
    var s' := Remove(s, k);
    NoDupRemove(s, k);
    AheadAt(s, n);
    if n > k {
      assert s'[n - 1] == s[n];
      AheadAt(s', n - 1);
      assert s'[n - 1..] == s[n..];
    } else {
      assert s'[n] == s[n];
      AheadAt(s', n);
      var p, q := s[n..k], s[k + 1..];
      assert s'[n..] == p + q && s[n..] == p + [s[k]] + q;
      KeptSkip(p, s[k], q, keep);
    }
  }

  /** Adding an entry at either end. */
  lemma {:induction false} AddStory(st: Story, s: seq<Ptr>, cur: Ptr, next: Ptr, k: int, x: Ptr)
    requires NoDup(s) && HEAD !in s && (k == 0 || k == |s|) && x !in s && x != HEAD && Spot(s, next)
             && Faithful(st, s, cur, next)
    ensures Faithful(st, Insert(s, k, x), cur, next)
  {
    var s' := Insert(s, k, x);
    if cur != HEAD {
      if next == HEAD {
        AheadNone(s, HEAD);
        AheadNone(s', HEAD);
      } else {
        var n :| 0 <= n < |s| && s[n] == next;
        AheadAt(s, n);
        if k == 0 {
          assert s' == [x] + s;
          assert s'[1..] == s;
        } else {
          assert s' == s + [x];
          AheadAt(s', n);
          assert s'[n..] == s[n..] + [x];
          KeptConcat(s[n..], [x], st.stay);
        }
      }
    }
  }

  /** The iterators of some iterations are about to visit what they were. */
  ghost predicate SameNexts(running: set<int>, was: map<int, Iter>, now: map<int, Iter>) {
    forall j :: j in running ==> j in was && j in now && now[j].next == was[j].next
  }

  /** The same, but those that were about to visit x will visit y. */
  ghost predicate MovedNexts(running: set<int>, was: map<int, Iter>, now: map<int, Iter>, x: Ptr, y: Ptr) {
    forall j :: j in running ==> j in was && j in now && now[j].next == if was[j].next == x then y else was[j].next
  }

  class SafeList {
    const links: LinkTable
    var first: map<Ptr, int>    // the `i` field of each entry and of the head
    var iters: map<int, Iter>   // the iterators of the running safe_list_for_each calls
    var cur: map<int, Ptr>      // their `cur` variables

    ghost var entries: seq<Ptr>
    ghost var chains: map<Ptr, seq<int>>
    ghost var story: map<int, Story>

    ghost predicate Listed()
      reads this, links
    {
      Ring(links.next, links.prev, HEAD, entries) && NoDup(entries) && (forall x :: x in entries ==> x > 0)
    }

    /** The iterators hang where they should, and every running iteration is faithful. */
    ghost predicate Valid()
      reads this, links
    {
      && Listed() && Hanging(first, iters, chains, entries, cur.Keys)
      && forall i :: i in cur ==> i in story && Faithful(story[i], entries, cur[i], iters[i].next)
    }

    constructor ()
      ensures Valid() && entries == [] && cur == map[] && fresh(links)
    {
      links := new LinkTable();
      first, iters, cur := map[HEAD := NULL], map[], map[];
      entries, chains, story := [], map[HEAD := []], map[];
      new;
      links.InitHead(HEAD);
    }

    /** Entries are different and none is the head; each iteration is about to visit one of them
        or to end. */
    lemma {:induction false} Facts()
      requires Valid()
      ensures NoDup(entries) && HEAD !in entries && forall x :: x in entries ==> x > 0
      ensures forall i :: i in cur ==> i > 0 && i in iters && Spot(entries, iters[i].next)
    {
      hide Ring, Faithful;
      HangNext(first, iters, chains, entries, cur.Keys);
    }

    /** list_first_entry, or the head if there is none */
    method First() returns (x: Ptr)
      requires Valid()
      ensures x == Succ(entries, -1)
    {
      RingSucc(links.next, links.prev, HEAD, entries, -1);
      return links.next[HEAD];
    }

    /** __safe_list_set_iterator: hang i on the successor of `list`, the entry (or head) at k. */
    method SetIterator(list: Ptr, i: int, ghost k: int, ghost running: set<int>)
      requires Listed() && Hanging(first, iters, chains, entries, running) && i > 0 && i !in running
      requires -1 <= k < |entries| && list == if k < 0 then HEAD else entries[k]
      modifies `first, `iters, `chains
      ensures Hanging(first, iters, chains, entries, running + {i})
      ensures i in iters && iters[i].next == Succ(entries, k) && SameNexts(running, old(iters), iters)
    {
      hide Hanging, Ring;
      ghost var first0, iters0 := first, iters;
      RingSucc(links.next, links.prev, HEAD, entries, k);
      var next := links.next[list];
      HangFacts(first, iters, chains, entries, running, next);
      var nextI := first[next];
      first := first[next := i];
      iters := iters[i := Iter(OfEntry(next), nextI, next)];
      if nextI != NULL {
        iters := iters[nextI := iters[nextI].(slot := OfIter(i))];
      }
      HangOne(first0, iters0, chains, entries, running, next, i, iters);
      HangNext(first0, iters0, chains, entries, running);
      chains := chains[next := [i] + chains[next]];
    }

    /** __safe_list_del_iterator */
    method DelIterator(i: int, ghost running: set<int>)
      requires Hanging(first, iters, chains, entries, running) && i in running
      modifies `first, `iters, `chains
      ensures Hanging(first, iters, chains, entries, running - {i})
      ensures SameNexts(running - {i}, old(iters), iters)
    {
      hide Hanging;
      HangNext(first, iters, chains, entries, running);
      ghost var k := ChainIndex(first, iters, chains, entries, running, i);
      ghost var first0, iters0, e := first, iters, iters[i].next;
      var it := iters[i];
      match it.slot {
        case OfEntry(x) => first := first[x := it.nextI];
        case OfIter(j) => iters := iters[j := iters[j].(nextI := it.nextI)];
      }
      if it.nextI != NULL {
        iters := iters[it.nextI := iters[it.nextI].(slot := it.slot)];
      }
      UnhangOne(first0, iters0, chains, entries, running, i, k, first, iters);
      chains := chains[e := Remove(chains[e], k)];
    }

    /** safe_list_for_each, up to its first loop test: cur is the first entry, and its callback
        is due unless cur is the head. */
    method Begin(i: int)
      requires Valid() && i > 0 && i !in cur
      modifies `first, `iters, `chains, `cur, `story
      ensures Valid() && cur == old(cur)[i := Succ(entries, -1)]
      ensures i in iters && iters[i].next == if entries == [] then HEAD else Succ(entries, 0)
      ensures SameNexts(old(cur).Keys, old(iters), iters)
      ensures story == old(story)[i := Story(entries, set x | x in entries, if entries == [] then [] else [entries[0]])]
    {
      hide Hanging, Ring, Faithful, NoDup;
      RingSucc(links.next, links.prev, HEAD, entries, -1);
      RingNoDup(links.next, links.prev, HEAD, entries);
      var c := links.next[HEAD];
      HangNext(first, iters, chains, entries, cur.Keys);
      SetIterator(c, i, if entries == [] then -1 else 0, cur.Keys);
      assert cur[i := c].Keys == cur.Keys + {i};
      cur := cur[i := c];
      BeginStory(entries);
      story := story[i := Story(entries, set x | x in entries, if entries == [] then [] else [entries[0]])];
    }

    /** safe_list_for_each, the loop step after a callback that returned 0. */
    method Advance(i: int) returns (ghost k: int)
      requires Valid() && i in cur && cur[i] != HEAD
      modifies `first, `iters, `chains, `cur, `story
      ensures Valid() && i in old(iters) && cur == old(cur)[i := old(iters)[i].next]
      ensures 0 <= k <= |entries| && cur[i] == if k < |entries| then entries[k] else HEAD
      ensures i in iters && iters[i].next == Succ(entries, if k < |entries| then k else -1)
      ensures SameNexts(old(cur).Keys - {i}, old(iters), iters)
      ensures story ==
                if cur[i] == HEAD then old(story)
                  else old(story)[i := old(story[i]).(visited := old(story[i].visited) + [cur[i]])]
    {
      hide Hanging, Ring, Faithful, NoDup;
      RingNoDup(links.next, links.prev, HEAD, entries);
      HangNext(first, iters, chains, entries, cur.Keys);
      var c := iters[i].next;
      k := SpotIndex(entries, c);
      AdvanceStory(story[i], entries, cur[i], k);
      DelIterator(i, cur.Keys);
      SetIterator(c, i, if c == HEAD then -1 else k, cur.Keys - {i});
      assert cur.Keys - {i} + {i} == cur.Keys;
      if c != HEAD { story := story[i := story[i].(visited := story[i].visited + [c])]; }
      assert cur[i := c].Keys == cur.Keys;
      cur := cur[i := c];
    }

    /** The end of safe_list_for_each, after the last entry or a callback that asked to stop.
        If it ran to the end, it has visited every entry that stayed, once and in order. */
    method Finish(i: int)
      requires Valid() && i in cur
      modifies `first, `iters, `chains, `cur
      ensures Valid() && cur == old(cur) - {i} && SameNexts(cur.Keys, old(iters), iters)
      ensures old(cur[i]) == HEAD ==> Kept(story[i].visited, story[i].stay) == Kept(story[i].start, story[i].stay)
    {
      hide Hanging, Ring, NoDup, Kept, Ahead;
      HangNext(first, iters, chains, entries, cur.Keys);
      ghost var v := Kept(story[i].visited, story[i].stay);
      assert v + [] == v;
      DelIterator(i, cur.Keys);
      assert (cur - {i}).Keys == cur.Keys - {i};
      cur := cur - {i};
    }

    /** safe_list_add and safe_list_add_first */
    method Add(x: Ptr, atEnd: bool)
      requires Valid() && x > 0 && x !in entries
      modifies `first, `chains, `entries, links
      ensures Valid() && entries == Insert(old(entries), if atEnd then |old(entries)| else 0, x)
    {
      hide Hanging, Ring, Faithful, NoDup, SameOutside;
      ghost var s, k := entries, if atEnd then |entries| else 0;
      RingNoDup(links.next, links.prev, HEAD, entries);
      HangNext(first, iters, chains, entries, cur.Keys);
      NewEntry(first, iters, chains, s, cur.Keys, k, x);
      first := first[x := NULL];
      chains := chains[x := []];
      if atEnd {
        links.AddBefore(x, HEAD, HEAD, s, |s| + 1);
      } else {
        links.AddAfter(x, HEAD, HEAD, s, 0);
      }
      entries := Insert(s, k, x);
      forall y | y in entries ensures y > 0 { assert y == x || y in s; }
      forall i | i in cur ensures Faithful(story[i], entries, cur[i], iters[i].next) {
        AddStory(story[i], s, cur[i], iters[i].next, k, x);
      }
      RingNoDup(links.next, links.prev, HEAD, entries);
    }

    /** safe_list_del: the iterations that were to visit x next will visit its successor. */
    method Del(x: Ptr, ghost k: int)
      requires Valid() && 0 <= k < |entries| && entries[k] == x
      modifies `first, `iters, `chains, `entries, `story, links
      ensures Valid() && entries == Remove(old(entries), k) && story.Keys == old(story).Keys
      ensures MovedNexts(cur.Keys, old(iters), iters, x, Succ(old(entries), k))
      ensures forall i :: i in cur ==>
                i in story && i in old(story) && story[i] == old(story)[i].(stay := old(story)[i].stay - {x})
    {
      hide Hanging, Ring, Faithful, NoDup, SameOutside;
      ghost var s := entries;
      RingNoDup(links.next, links.prev, HEAD, entries);
      RingSucc(links.next, links.prev, HEAD, entries, k);
      HangNext(first, iters, chains, entries, cur.Keys);
      NoDupRemove(s, k);
      var next := links.next[x];
      ghost var nexts := iters;
      forall i | i in cur
        ensures Faithful(story[i].(stay := story[i].stay - {x}), Remove(s, k), cur[i],
                         if nexts[i].next == x then next else nexts[i].next) {
        DeleteStory(story[i], s, cur[i], nexts[i].next, k);
      }
      links.Del(x, HEAD, s, k);
      MoveChain(x, next, k);
      entries := Remove(s, k);
      story := map i | i in story :: story[i].(stay := story[i].stay - {x});
      RingNoDup(links.next, links.prev, HEAD, entries);
    }

    /** The second half of safe_list_del: the chain of x goes in front of that of next. */
    method MoveChain(x: Ptr, next: Ptr, ghost k: int)
      requires Hanging(first, iters, chains, entries, cur.Keys) && NoDup(entries) && HEAD !in entries
      requires 0 <= k < |entries| && entries[k] == x && next == Succ(entries, k)
      modifies `first, `iters, `chains
      ensures Hanging(first, iters, chains, Remove(entries, k), cur.Keys)
      ensures MovedNexts(cur.Keys, old(iters), iters, x, next)
    {
      hide Hanging, Chain, ChainLink;
      HangFacts(first, iters, chains, entries, cur.Keys, next);
      ChainFacts(first, iters, chains, entries, cur.Keys, x, next);
      ghost var c, first0, iters0 := chains[x], first, iters;
      if first[x] == NULL {
        DropEntry(first, iters, chains, entries, cur.Keys, k);
        return;
      }
      Splice(x, next, c);
      RehangAll(first0, iters0, chains, entries, cur.Keys, k, next, first, iters);
      chains := chains[next := c + chains[next]];
    }

    /** Its writes, when the chain c of x is not empty */
    method Splice(x: Ptr, next: Ptr, ghost c: seq<int>)
      requires Chain(first, iters, x, c) && c != [] && x in first && first[x] == c[0] && next in first && x != next
      requires (forall j :: j in c ==> j in iters)
               && (first[next] != NULL ==> first[next] in iters && first[next] !in c)
      modifies `first, `iters
      ensures first == old(first)[next := c[0]][x := NULL] && iters.Keys == old(iters).Keys
      ensures forall j :: j in c ==> iters[j] == Rehung(old(iters)[j], j, c, old(first)[next], next)
      ensures forall j :: j in iters && j !in c ==> iters[j] == Behind(old(iters)[j], j, old(first)[next], c)
    {
      hide Chain;
      var nextI := first[next];
      var last := Retarget(x, next, c);
      first := first[next := first[x]];
      iters := iters[first[x] := iters[first[x]].(slot := OfEntry(next))];
      iters := iters[last := iters[last].(nextI := nextI)];
      if nextI != NULL {
        iters := iters[nextI := iters[nextI].(slot := OfIter(last))];
      }
      first := first[x := NULL];
    }

    /** The loop of safe_list_del: every iterator on x will visit `next` instead; tail ends at
        the last of them. */
    method Retarget(x: Ptr, next: Ptr, ghost c: seq<int>) returns (last: int)
      requires Chain(first, iters, x, c) && c != []
      modifies `iters
      ensures last == c[|c| - 1] && iters.Keys == old(iters).Keys
      ensures forall j :: j in iters ==> iters[j] == if j in c then old(iters[j]).(next := next) else old(iters[j])
    {
      var tail, i := OfEntry(next), first[x];
      ghost var m, iters0 := 0, iters;
      while i != NULL
        invariant 0 <= m <= |c| && i == (if m < |c| then c[m] else NULL)
        invariant tail == if m == 0 then OfEntry(next) else OfIter(c[m - 1])
        invariant iters.Keys == iters0.Keys
        invariant forall j :: j in iters ==> iters[j] == if j in c[..m] then iters0[j].(next := next) else iters0[j]
        decreases |c| - m
      {
        assert ChainLink(iters0, x, c, m);
        assert c[..m + 1] == c[..m] + [c[m]] && c[m] !in c[..m];
        tail := OfIter(i);
        iters := iters[i := iters[i].(next := next)];
        i := iters[i].nextI;
        m := m + 1;
      }
      assert m < |c| ==> ChainLink(iters0, x, c, m);
      assert m == |c| && c[..m] == c;
      last := tail.iter;
    }
  }

  lemma {:induction false} ChainFacts(first: map<Ptr, int>, iters: map<int, Iter>, chains: map<Ptr, seq<int>>,
                                      s: seq<Ptr>, running: set<int>, x: Ptr, next: Ptr)
    requires Hanging(first, iters, chains, s, running) && Spot(s, x) && Spot(s, next) && x != next
    ensures x in chains && Chain(first, iters, x, chains[x]) && x in first && next in first
    ensures first[x] == if chains[x] == [] then NULL else chains[x][0]
    ensures forall j :: j in chains[x] ==> j > 0 && j in iters
    ensures forall j :: j in running ==> j in iters && (j in chains[x] <==> iters[j].next == x)
    ensures first[next] != NULL ==> first[next] !in chains[x]
    ensures chains[x] != [] ==> first[x] != NULL
  {
    var c := chains[x];
    assert Chain(first, iters, x, c) && Chain(first, iters, next, chains[next]);
    forall j | j in c ensures j > 0 && j in iters { InChain(first, iters, chains, s, running, x, j); }
    forall j | j in running ensures j in c <==> iters[j].next == x { InChain(first, iters, chains, s, running, x, j); }
    if first[next] != NULL {
      InChain(first, iters, chains, s, running, next, first[next]);
      InChain(first, iters, chains, s, running, x, first[next]);
    }
    if c != [] { assert ChainLink(iters, x, c, 0); }
  }

  /** Where a list position is in the list; the head counts as past the end. */
  lemma {:induction false} SpotIndex(s: seq<Ptr>, e: Ptr) returns (k: int)
    requires Spot(s, e) && HEAD !in s
    ensures 0 <= k <= |s| && e == if k < |s| then s[k] else HEAD
  {
    if e == HEAD { k := |s|; } else { k :| 0 <= k < |s| && s[k] == e; }
  }

  lemma {:induction false} RingSucc(next: map<Ptr, Ptr>, prev: map<Ptr, Ptr>, h: Ptr, s: seq<Ptr>, k: int)
    requires Ring(next, prev, h, s) && h == HEAD && -1 <= k < |s|
    ensures var x := if k < 0 then h else s[k];
            x in next && next[x] == Succ(s, k) && Spot(s, Succ(s, k))
  {
    assert At(h, s, k + 1) == if k < 0 then h else s[k];
    assert At(h, s, k + 2) == Succ(s, k);
  }

  lemma {:induction false} HangFacts(first: map<Ptr, int>, iters: map<int, Iter>, chains: map<Ptr, seq<int>>,
                                     s: seq<Ptr>, running: set<int>, e: Ptr)
    requires Hanging(first, iters, chains, s, running) && Spot(s, e)
    ensures e in first && e in chains && (first[e] != NULL ==> first[e] in iters && first[e] in running)
  {
    assert Chain(first, iters, e, chains[e]);
    if chains[e] != [] { InChain(first, iters, chains, s, running, e, chains[e][0]); }
  }

  lemma {:induction false} HangNext(first: map<Ptr, int>, iters: map<int, Iter>, chains: map<Ptr, seq<int>>,
                                    s: seq<Ptr>, running: set<int>)
    requires Hanging(first, iters, chains, s, running)
    ensures forall j :: j in running ==> j > 0 && j in iters && Spot(s, iters[j].next) && iters[j].next in chains
  {
  }

  /** Where an iterator sits in its chain, and that its neighbours exist. */
  lemma {:induction false} ChainIndex(first: map<Ptr, int>, iters: map<int, Iter>, chains: map<Ptr, seq<int>>,
                                      s: seq<Ptr>, running: set<int>, i: int) returns (k: int)
    requires Hanging(first, iters, chains, s, running) && i in running
    ensures 0 <= k < |chains[iters[i].next]| && chains[iters[i].next][k] == i
    ensures iters[i].slot.OfIter? ==> iters[i].slot.iter in running && iters[i].slot.iter != i
    ensures iters[i].nextI != NULL ==>
              iters[i].nextI in running && iters[i].nextI != i && iters[i].slot != OfIter(iters[i].nextI)
  {
    var e := iters[i].next;
    var c := chains[e];
    assert Chain(first, iters, e, c);
    k :| 0 <= k < |c| && c[k] == i;
    assert ChainLink(iters, e, c, k);
    if k > 0 { InChain(first, iters, chains, s, running, e, c[k - 1]); }
    if k + 1 < |c| { InChain(first, iters, chains, s, running, e, c[k + 1]); }
  }
}
