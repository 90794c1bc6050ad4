/** The threaded list of an AVL tree: runs of nodes with equal keys, in key order, each
    run starting with its leader. */
module AvlOrder {
  import opened Basics
  import opened Lists

  /** What a comparator must be: a total order on keys, up to equivalence. */
  ghost predicate TotalOrder<K(!new)>(cmp: (K, K) -> int) {
    && (forall a, b :: cmp(a, b) < 0 <==> cmp(b, a) > 0)
    && (forall a, b, c :: cmp(a, b) <= 0 && cmp(b, c) <= 0 ==> cmp(a, c) <= 0)
  }

  lemma Strict<K(!new)>(cmp: (K, K) -> int, a: K, b: K, c: K)
    requires TotalOrder(cmp) && cmp(a, b) <= 0 && cmp(b, c) <= 0
    ensures cmp(a, c) <= 0 && (cmp(a, b) < 0 || cmp(b, c) < 0 ==> cmp(a, c) < 0)
  {
    if cmp(a, c) == 0 {
      assert cmp(c, a) == 0;
      assert cmp(b, a) <= 0 && cmp(c, b) <= 0;
    }
  }

  ghost predicate Known<K>(key: map<Ptr, K>, leader: map<Ptr, bool>, s: seq<Ptr>) {
    forall i :: 0 <= i < |s| ==> s[i] > 0 && s[i] in key && s[i] in leader
  }

  ghost predicate Sorted<K>(cmp: (K, K) -> int, key: map<Ptr, K>, leader: map<Ptr, bool>, s: seq<Ptr>)
    requires Known(key, leader, s)
  {
    forall i, j :: 0 <= i <= j < |s| ==> cmp(key[s[i]], key[s[j]]) <= 0
  }

  /** Position i starts a run of equal keys. */
  ghost predicate Starts<K>(cmp: (K, K) -> int, key: map<Ptr, K>, leader: map<Ptr, bool>, s: seq<Ptr>, i: int)
    requires Known(key, leader, s) && 0 <= i < |s|
  {
    i == 0 || cmp(key[s[i - 1]], key[s[i]]) < 0
  }

  /** Leader flags mark exactly the first node of each run of equal keys. */
  ghost predicate Runs<K>(cmp: (K, K) -> int, key: map<Ptr, K>, leader: map<Ptr, bool>, s: seq<Ptr>) {
    && Known(key, leader, s) && Sorted(cmp, key, leader, s)
    && forall i :: 0 <= i < |s| ==> leader[s[i]] == Starts(cmp, key, leader, s, i)
  }

  /** The leaders of a list, in order. */
  function Leaders(leader: map<Ptr, bool>, s: seq<Ptr>): seq<Ptr> {
    if s == [] then []
    else (if s[0] in leader && leader[s[0]] then [s[0]] else []) + Leaders(leader, s[1..])
  }

  /** k splits the list for the key kk: everything before is <= kk, everything after is > kk. */
  ghost predicate Splits<K>(cmp: (K, K) -> int, key: map<Ptr, K>, s: seq<Ptr>, kk: K, k: int) {
    && 0 <= k <= |s|
    && (forall i :: 0 <= i < k ==> s[i] in key && cmp(key[s[i]], kk) <= 0)
    && (forall i :: k <= i < |s| ==> s[i] in key && cmp(kk, key[s[i]]) < 0)
  }

  /** k splits the list for the key kk: everything before is < kk, everything after is >= kk. */
  ghost predicate SplitsBelow<K>(cmp: (K, K) -> int, key: map<Ptr, K>, s: seq<Ptr>, kk: K, k: int) {
    && 0 <= k <= |s|
    && (forall i :: 0 <= i < k ==> s[i] in key && cmp(kk, key[s[i]]) > 0)
    && (forall i :: k <= i < |s| ==> s[i] in key && cmp(kk, key[s[i]]) <= 0)
  }

  /** Some entry has a key equal to kk. */
  ghost predicate Present<K>(cmp: (K, K) -> int, key: map<Ptr, K>, s: seq<Ptr>, kk: K) {
    exists i :: 0 <= i < |s| && s[i] in key && cmp(kk, key[s[i]]) == 0
  }

  ghost predicate AllLead(leader: map<Ptr, bool>, s: seq<Ptr>) {
    forall i :: 0 <= i < |s| ==> s[i] in leader && leader[s[i]]
  }

  lemma {:induction false} LeadersConcat(leader: map<Ptr, bool>, a: seq<Ptr>, b: seq<Ptr>)
    ensures Leaders(leader, a + b) == Leaders(leader, a) + Leaders(leader, b)
  {
    if a == [] {
      assert a + b == b;
    } else {
      assert (a + b)[1..] == a[1..] + b;
      LeadersConcat(leader, a[1..], b);
    }
  }

  lemma {:induction false} LeadersFrame(leader: map<Ptr, bool>, n: Ptr, f: bool, s: seq<Ptr>)
    requires n !in s
    ensures Leaders(leader[n := f], s) == Leaders(leader, s)
  {
    if s != [] { LeadersFrame(leader, n, f, s[1..]); }
  }

  lemma {:induction false} LeadersIn(leader: map<Ptr, bool>, s: seq<Ptr>)
    ensures forall x :: x in Leaders(leader, s) <==> x in s && x in leader && leader[x]
  {
    if s != [] { LeadersIn(leader, s[1..]); }
  }

  lemma {:induction false} LeaderIn(leader: map<Ptr, bool>, s: seq<Ptr>, x: Ptr)
    ensures x in Leaders(leader, s) <==> x in s && x in leader && leader[x]
  {
    LeadersIn(leader, s);
  }

  lemma {:induction false} LeadersAt(leader: map<Ptr, bool>, s: seq<Ptr>, k: int)
    requires 0 <= k < |s|
    ensures Leaders(leader, s) == Leaders(leader, s[..k])
              + (if s[k] in leader && leader[s[k]] then [s[k]] else []) + Leaders(leader, s[k + 1..])
  {
    assert s == s[..k] + s[k..] && s[k..][1..] == s[k + 1..];
    LeadersConcat(leader, s[..k], s[k..]);
  }

  lemma {:induction false} LeadersNoDup(leader: map<Ptr, bool>, s: seq<Ptr>)
    requires NoDup(s)
    ensures NoDup(Leaders(leader, s))
  {
    if s != [] {
      LeadersNoDup(leader, s[1..]);
      LeadersIn(leader, s[1..]);
    }
  }

  /** A leader at position k of the list sits at the corresponding place among the leaders. */
  lemma {:induction false} LeaderSplit(leader: map<Ptr, bool>, s: seq<Ptr>, k: int, a: seq<Ptr>, b: seq<Ptr>)
    requires NoDup(s) && 0 <= k < |s| && s[k] in leader && leader[s[k]]
    requires Leaders(leader, s) == a + [s[k]] + b
    ensures a == Leaders(leader, s[..k]) && b == Leaders(leader, s[k + 1..])
  {
    LeadersAt(leader, s, k);
    LeadersNoDup(leader, s);
    NoDupSplit(a, s[k], b, Leaders(leader, s[..k]), Leaders(leader, s[k + 1..]));
  }

  /** Every node has a leader before it with an equal key. */
  lemma {:induction false} LeaderOf<K(!new)>(cmp: (K, K) -> int, key: map<Ptr, K>, leader: map<Ptr, bool>,
                                             s: seq<Ptr>, i: int) returns (j: int)
    requires TotalOrder(cmp) && Runs(cmp, key, leader, s) && 0 <= i < |s|
    ensures 0 <= j <= i && leader[s[j]] && cmp(key[s[i]], key[s[j]]) == 0
    decreases i
  {
    assert leader[s[i]] == Starts(cmp, key, leader, s, i);
    if leader[s[i]] {
      j := i;
      assert cmp(key[s[i]], key[s[i]]) == 0;
    } else {
      j := LeaderOf(cmp, key, leader, s, i - 1);
      assert cmp(key[s[i - 1]], key[s[i]]) <= 0;
      Strict(cmp, key[s[i]], key[s[i - 1]], key[s[j]]);
      assert cmp(key[s[j]], key[s[i]]) <= 0;
    }
  }

  /** The leaders are strictly sorted. */
  lemma {:induction false} LeadersSorted<K(!new)>(cmp: (K, K) -> int, key: map<Ptr, K>, leader: map<Ptr, bool>,
                                                  s: seq<Ptr>, i: int, j: int)
    requires TotalOrder(cmp) && Runs(cmp, key, leader, s) && 0 <= i < j < |s| && leader[s[j]]
    ensures cmp(key[s[i]], key[s[j]]) < 0
  {
    assert cmp(key[s[i]], key[s[j - 1]]) <= 0 && Starts(cmp, key, leader, s, j);
    Strict(cmp, key[s[i]], key[s[j - 1]], key[s[j]]);
  }

  lemma {:induction false} InsertSorted<K(!new)>(cmp: (K, K) -> int, key: map<Ptr, K>, leader: map<Ptr, bool>,
                                                 s: seq<Ptr>, k: int, n: Ptr)
    requires TotalOrder(cmp) && Known(key, leader, s) && Sorted(cmp, key, leader, s) && n > 0 && n in key && n in leader
    requires Splits(cmp, key, s, key[n], k)
    ensures Known(key, leader, Insert(s, k, n)) && Sorted(cmp, key, leader, Insert(s, k, n))
  {
    hide TotalOrder;
    var s' := Insert(s, k, n);
    Flip(cmp, key[n], key[n]);
    forall i | 0 <= i < |s'| ensures s'[i] == if i == k then n else s[if i < k then i else i - 1] {}
    forall i, j | 0 <= i <= j < |s'| ensures cmp(key[s'[i]], key[s'[j]]) <= 0 {
      var i0, j0 := if i < k then i else i - 1, if j < k then j else j - 1;
      if i != k && j != k { assert cmp(key[s[i0]], key[s[j0]]) <= 0; }
    }
  }

  /** Inserting n where its key splits the list; it leads a run of its own exactly when
      the entry before it is smaller. */
  lemma {:induction false} InsertRuns<K(!new)>(cmp: (K, K) -> int, key: map<Ptr, K>, leader: map<Ptr, bool>,
                                               s: seq<Ptr>, k: int, n: Ptr)
    requires TotalOrder(cmp) && Runs(cmp, key, leader, s) && n > 0 && n !in s && n in key && n in leader
    requires Splits(cmp, key, s, key[n], k)
    requires leader[n] <==> k == 0 || cmp(key[s[k - 1]], key[n]) < 0
    ensures Runs(cmp, key, leader, Insert(s, k, n))
    ensures Leaders(leader, Insert(s, k, n)) ==
              Leaders(leader, s[..k]) + (if leader[n] then [n] else []) + Leaders(leader, s[k..])
  {
    hide TotalOrder, Leaders, Sorted;
    var s' := Insert(s, k, n);
    InsertSorted(cmp, key, leader, s, k, n);
    if 0 < k < |s| { Strict(cmp, key[s[k - 1]], key[n], key[s[k]]); }
    forall i | 0 <= i < |s'| ensures leader[s'[i]] == Starts(cmp, key, leader, s', i) {
      if i < k {
        assert s'[i] == s[i] && (i > 0 ==> s'[i - 1] == s[i - 1]);
        assert leader[s[i]] == Starts(cmp, key, leader, s, i);
      } else if i > k + 1 {
        assert s'[i] == s[i - 1] && s'[i - 1] == s[i - 2];
        assert leader[s[i - 1]] == Starts(cmp, key, leader, s, i - 1);
      } else if i == k + 1 {
        assert s'[i] == s[k] && s'[i - 1] == n;
        assert leader[s[k]] == Starts(cmp, key, leader, s, k);
      } else {
        assert s'[i] == n && (k > 0 ==> s'[i - 1] == s[k - 1]);
      }
    }
    LeadersAt(leader, s', k);
    assert s'[..k] == s[..k] && s'[k + 1..] == s[k..] && s'[k] == n;
  }

  /** avl_delete's hand-over of the leader flag, when the entry at k leads a longer run. */
  function Promoted(leader: map<Ptr, bool>, s: seq<Ptr>, k: int): map<Ptr, bool>
    requires 0 <= k < |s| && forall i :: 0 <= i < |s| ==> s[i] in leader
  {
    if leader[s[k]] && k + 1 < |s| && !leader[s[k + 1]] then leader[s[k + 1] := true] else leader
  }

  lemma {:induction false} RemoveSorted<K(!new)>(cmp: (K, K) -> int, key: map<Ptr, K>, leader: map<Ptr, bool>,
                                                 s: seq<Ptr>, k: int, leader': map<Ptr, bool>)
    requires Known(key, leader, s) && Sorted(cmp, key, leader, s) && 0 <= k < |s| && leader.Keys <= leader'.Keys
    ensures Known(key, leader', Remove(s, k)) && Sorted(cmp, key, leader', Remove(s, k))
  {
    var s' := Remove(s, k);
    forall i | 0 <= i < |s'| ensures s'[i] == s[if i < k then i else i + 1] && s'[i] in leader' {}
    forall i, j | 0 <= i <= j < |s'| ensures cmp(key[s'[i]], key[s'[j]]) <= 0 {
      assert cmp(key[s[if i < k then i else i + 1]], key[s[if j < k then j else j + 1]]) <= 0;
    }
  }

  /** The flag of the entry that follows the removed one. */
  lemma {:induction false} RemoveBoundary<K(!new)>(cmp: (K, K) -> int, key: map<Ptr, K>, leader: map<Ptr, bool>,
                                                   s: seq<Ptr>, k: int)
    requires TotalOrder(cmp) && Runs(cmp, key, leader, s) && 0 < k < |s| - 1
    ensures cmp(key[s[k - 1]], key[s[k + 1]]) < 0 <==> leader[s[k]] || leader[s[k + 1]]
  {
    assert leader[s[k]] == Starts(cmp, key, leader, s, k);
    assert leader[s[k + 1]] == Starts(cmp, key, leader, s, k + 1);
    assert cmp(key[s[k - 1]], key[s[k]]) <= 0 && cmp(key[s[k]], key[s[k + 1]]) <= 0;
    hide TotalOrder, Sorted;
    Strict(cmp, key[s[k - 1]], key[s[k]], key[s[k + 1]]);
    if cmp(key[s[k - 1]], key[s[k]]) == 0 == cmp(key[s[k]], key[s[k + 1]]) {
      EqualPair(cmp, key[s[k - 1]], key[s[k]], key[s[k + 1]]);
    }
  }

  /** Removing the entry at k; if it leads a longer run, the next entry takes over. */
  lemma {:induction false} RemoveRuns<K(!new)>(cmp: (K, K) -> int, key: map<Ptr, K>, leader: map<Ptr, bool>,
                                               s: seq<Ptr>, k: int)
    requires TotalOrder(cmp) && Runs(cmp, key, leader, s) && NoDup(s) && 0 <= k < |s|
    ensures Runs(cmp, key, Promoted(leader, s, k), Remove(s, k))
  {
    hide TotalOrder, Sorted;
    var s', leader' := Remove(s, k), Promoted(leader, s, k);
    RemoveSorted(cmp, key, leader, s, k, leader');
    if 0 < k < |s| - 1 { RemoveBoundary(cmp, key, leader, s, k); }
    forall i | 0 <= i < |s'| ensures leader'[s'[i]] == Starts(cmp, key, leader', s', i) {
      if i < k {
        assert s'[i] == s[i] && (i > 0 ==> s'[i - 1] == s[i - 1]);
        assert leader[s[i]] == Starts(cmp, key, leader, s, i);
      } else if i > k {
        assert s'[i] == s[i + 1] && s'[i - 1] == s[i];
        assert leader[s[i + 1]] == Starts(cmp, key, leader, s, i + 1);
      } else {
        assert s'[i] == s[k + 1] && (k > 0 ==> s'[i - 1] == s[k - 1]);
        assert leader[s[k]] == Starts(cmp, key, leader, s, k);
      }
    }
  }

  lemma {:induction false} RemoveLeaders(leader: map<Ptr, bool>, s: seq<Ptr>, k: int)
    requires NoDup(s) && 0 <= k < |s| && forall i :: 0 <= i < |s| ==> s[i] in leader
    ensures var leader' := Promoted(leader, s, k);
            Leaders(leader', Remove(s, k)) == Leaders(leader, s[..k])
              + (if leader' != leader then [s[k + 1]] else []) + Leaders(leader, s[k + 1..])
  {
    hide Leaders;
    var leader' := Promoted(leader, s, k);
    LeadersConcat(leader', s[..k], s[k + 1..]);
    if leader' != leader {
      var rest := s[k + 1..];
      LeadersFrame(leader, s[k + 1], true, s[..k]);
      LeadersFrame(leader, s[k + 1], true, rest[1..]);
      LeadersAt(leader', rest, 0);
      LeadersAt(leader, rest, 0);
      NoLeaders(leader);
      NoLeaders(leader');
      assert rest[..0] == [];
    }
  }

  lemma NoLeaders(leader: map<Ptr, bool>)
    ensures Leaders(leader, []) == []
  {
  }

  lemma EqualPair<K(!new)>(cmp: (K, K) -> int, a: K, b: K, c: K)
    requires TotalOrder(cmp) && cmp(a, b) >= 0 && cmp(b, c) >= 0
    ensures cmp(a, c) >= 0
  {
    assert cmp(b, a) <= 0 && cmp(c, b) <= 0;
    assert cmp(c, a) <= 0;
  }

  ghost predicate Strictly<K>(cmp: (K, K) -> int, key: map<Ptr, K>, s: seq<Ptr>) {
    && (forall i :: 0 <= i < |s| ==> s[i] in key)
    && (forall i, j :: 0 <= i < j < |s| ==> cmp(key[s[i]], key[s[j]]) < 0)
  }

  lemma StrictlyAppend<K(!new)>(cmp: (K, K) -> int, key: map<Ptr, K>, a: seq<Ptr>, x: Ptr)
    requires Strictly(cmp, key, a) && x in key && forall i :: 0 <= i < |a| ==> cmp(key[a[i]], key[x]) < 0
    ensures Strictly(cmp, key, a + [x])
  {
  }

  lemma {:induction false} LeadersBelow<K(!new)>(cmp: (K, K) -> int, key: map<Ptr, K>, leader: map<Ptr, bool>,
                                                 s: seq<Ptr>, k: int)
    requires TotalOrder(cmp) && Runs(cmp, key, leader, s) && 0 <= k < |s| && leader[s[k]]
    ensures var a := Leaders(leader, s[..k]);
            forall i :: 0 <= i < |a| ==> a[i] in key && cmp(key[a[i]], key[s[k]]) < 0
  {
    hide TotalOrder, Sorted, Starts, Leaders;
    var a := Leaders(leader, s[..k]);
    forall i | 0 <= i < |a| ensures a[i] in key && cmp(key[a[i]], key[s[k]]) < 0 {
      LeaderIn(leader, s[..k], a[i]);
      var j :| 0 <= j < k && s[j] == a[i];
      LeadersSorted(cmp, key, leader, s, j, k);
    }
  }

  /** The leaders are strictly sorted: the tree is a search tree. */
  lemma {:induction false} LeadersStrictly<K(!new)>(cmp: (K, K) -> int, key: map<Ptr, K>, leader: map<Ptr, bool>,
                                                    s: seq<Ptr>, k: int)
    requires TotalOrder(cmp) && Runs(cmp, key, leader, s) && 0 <= k <= |s|
    ensures Strictly(cmp, key, Leaders(leader, s[..k]))
    decreases k
  {
    hide TotalOrder, Sorted, Starts, Strictly, Leaders;
    if k == 0 {
      assert s[..0] == [];
      NoneStrictly(cmp, key);
      NoLeaders(leader);
    } else {
      LeadersStrictly(cmp, key, leader, s, k - 1);
      var a, x := Leaders(leader, s[..k - 1]), s[k - 1];
      assert s[..k][..k - 1] == s[..k - 1] && s[..k][k..] == [];
      LeadersAt(leader, s[..k], k - 1);
      NoLeaders(leader);
      if leader[x] {
        LeadersBelow(cmp, key, leader, s, k - 1);
        StrictlyAppend(cmp, key, a, x);
        assert a + [x] + [] == a + [x];
      } else {
        assert a + [] + [] == a;
      }
    }
  }

  lemma NoneStrictly<K(!new)>(cmp: (K, K) -> int, key: map<Ptr, K>)
    ensures Strictly(cmp, key, [])
  {
  }

  /** k is the leader of the run that ends at e. */
  ghost predicate RunAt(leader: map<Ptr, bool>, s: seq<Ptr>, k: int, e: int) {
    && 0 <= k <= e < |s| && s[k] in leader && leader[s[k]]
    && (forall j :: k < j <= e ==> s[j] in leader && !leader[s[j]])
    && (e + 1 < |s| ==> s[e + 1] in leader && leader[s[e + 1]])
  }

  /** A key below the leader at k, and above all leaders before it, belongs just before it. */
  lemma {:induction false} BelongsBefore<K(!new)>(cmp: (K, K) -> int, key: map<Ptr, K>, leader: map<Ptr, bool>,
                                                  s: seq<Ptr>, kk: K,
                                                  k: int, a: seq<Ptr>, b: seq<Ptr>)
    requires TotalOrder(cmp) && Runs(cmp, key, leader, s) && NoDup(s) && 0 <= k < |s| && leader[s[k]]
    requires Leaders(leader, s) == a + [s[k]] + b && cmp(kk, key[s[k]]) < 0
    requires forall x :: x in a ==> x in key && cmp(key[x], kk) < 0
    ensures Splits(cmp, key, s, kk, k) && (k > 0 ==> cmp(key[s[k - 1]], kk) < 0)
  {
    hide TotalOrder, Leaders;
    LeaderSplit(leader, s, k, a, b);
    forall i | 0 <= i < k ensures cmp(key[s[i]], kk) < 0 {
      var j := LeaderOf(cmp, key, leader, s, i);
      LeaderIn(leader, s[..k], s[j]);
      assert s[..k][j] == s[j] && s[j] in a;
      Strict(cmp, key[s[i]], key[s[j]], kk);
    }
    forall i | k <= i < |s| ensures cmp(kk, key[s[i]]) < 0 {
      assert cmp(key[s[k]], key[s[i]]) <= 0;
      Strict(cmp, kk, key[s[k]], key[s[i]]);
    }
  }

  /** A key equal to the leader at k, or above it and below all leaders after it, belongs
      after the end e of its run. */
  lemma {:induction false} BelongsAfter<K(!new)>(cmp: (K, K) -> int, key: map<Ptr, K>, leader: map<Ptr, bool>,
                                                 s: seq<Ptr>, kk: K,
                                                 k: int, e: int, a: seq<Ptr>, b: seq<Ptr>)
    requires TotalOrder(cmp) && Runs(cmp, key, leader, s) && NoDup(s) && RunAt(leader, s, k, e)
    requires Leaders(leader, s) == a + [s[k]] + b && cmp(kk, key[s[k]]) >= 0
    requires cmp(kk, key[s[k]]) > 0 ==> forall x :: x in b ==> x in key && cmp(kk, key[x]) < 0
    ensures Splits(cmp, key, s, kk, e + 1)
    ensures cmp(key[s[e]], kk) < 0 <==> cmp(kk, key[s[k]]) > 0
  {
    hide TotalOrder, Leaders;
    LeaderSplit(leader, s, k, a, b);
    SameRun(cmp, key, leader, s, k, e);
    Flip(cmp, kk, key[s[k]]);
    Strict(cmp, key[s[e]], key[s[k]], kk);
    if cmp(kk, key[s[k]]) == 0 {
      Flip(cmp, key[s[e]], key[s[k]]);
      Strict(cmp, kk, key[s[k]], key[s[e]]);
      Flip(cmp, kk, key[s[e]]);
    }
    if e + 1 < |s| {
      LeaderIn(leader, s[k + 1..], s[e + 1]);
      assert s[k + 1..][e - k] == s[e + 1];
      if cmp(kk, key[s[k]]) == 0 {
        LeadersSorted(cmp, key, leader, s, k, e + 1);
        Strict(cmp, kk, key[s[k]], key[s[e + 1]]);
      }
      assert cmp(kk, key[s[e + 1]]) < 0;
    }
    forall i | 0 <= i <= e ensures cmp(key[s[i]], kk) <= 0 {
      assert cmp(key[s[i]], key[s[e]]) <= 0;
      Strict(cmp, key[s[i]], key[s[e]], kk);
    }
    forall i | e + 1 <= i < |s| ensures cmp(kk, key[s[i]]) < 0 {
      assert cmp(key[s[e + 1]], key[s[i]]) <= 0;
      Strict(cmp, kk, key[s[e + 1]], key[s[i]]);
    }
  }

  lemma Flip<K(!new)>(cmp: (K, K) -> int, a: K, b: K)
    requires TotalOrder(cmp)
    ensures cmp(a, b) < 0 <==> cmp(b, a) > 0
    ensures cmp(a, b) > 0 <==> cmp(b, a) < 0
    ensures cmp(a, b) == 0 <==> cmp(b, a) == 0
  {
  }

  lemma {:induction false} SameRun<K(!new)>(cmp: (K, K) -> int, key: map<Ptr, K>, leader: map<Ptr, bool>, s: seq<Ptr>,
                                            k: int, e: int)
    requires TotalOrder(cmp) && Runs(cmp, key, leader, s) && 0 <= k <= e < |s|
             && (forall j :: k < j <= e ==> !leader[s[j]])
    ensures cmp(key[s[e]], key[s[k]]) == 0
    decreases e
  {
    hide TotalOrder, Sorted, Starts;
    Ordered(cmp, key, leader, s, k, e);
    if k < e {
      SameRun(cmp, key, leader, s, k, e - 1);
      Ordered(cmp, key, leader, s, e - 1, e);
      Strict(cmp, key[s[e]], key[s[e - 1]], key[s[k]]);
    }
  }

  lemma {:induction false} Ordered<K(!new)>(cmp: (K, K) -> int, key: map<Ptr, K>, leader: map<Ptr, bool>, s: seq<Ptr>,
                                            i: int, j: int)
    requires TotalOrder(cmp) && Runs(cmp, key, leader, s) && 0 <= i <= j < |s|
    ensures cmp(key[s[i]], key[s[j]]) <= 0 <= cmp(key[s[j]], key[s[i]])
    ensures (j == i + 1 && !leader[s[j]]) || j == i ==> cmp(key[s[j]], key[s[i]]) == 0
  {
    hide TotalOrder;
    Flip(cmp, key[s[i]], key[s[j]]);
    assert cmp(key[s[i]], key[s[j]]) <= 0;
    assert leader[s[j]] == Starts(cmp, key, leader, s, j);
  }

  /** Marking a node that is not in the list changes nothing. */
  lemma {:induction false} MarkOutside<K(!new)>(cmp: (K, K) -> int, key: map<Ptr, K>, leader: map<Ptr, bool>,
                                                s: seq<Ptr>, n: Ptr, f: bool)
    requires Runs(cmp, key, leader, s) && n !in s
    ensures Runs(cmp, key, leader[n := f], s) && Leaders(leader[n := f], s) == Leaders(leader, s)
  {
    var leader' := leader[n := f];
    assert Known(key, leader', s) && Sorted(cmp, key, leader', s);
    forall i | 0 <= i < |s| ensures leader'[s[i]] == Starts(cmp, key, leader', s, i) {
      assert leader[s[i]] == Starts(cmp, key, leader, s, i);
    }
    LeadersFrame(leader, n, f, s);
  }

  lemma {:induction false} NonemptyLeads<K(!new)>(cmp: (K, K) -> int, key: map<Ptr, K>, leader: map<Ptr, bool>,
                                                  s: seq<Ptr>)
    requires Runs(cmp, key, leader, s)
    ensures Leaders(leader, s) == [] <==> s == []
  {
    if s != [] { assert leader[s[0]] == Starts(cmp, key, leader, s, 0); }
  }

  lemma {:induction false} NoneLead(leader: map<Ptr, bool>, s: seq<Ptr>)
    requires forall i :: 0 <= i < |s| ==> s[i] in leader && !leader[s[i]]
    ensures Leaders(leader, s) == []
  {
    if s != [] { NoneLead(leader, s[1..]); }
  }

  /** The leaders up to and after the end of a run. */
  lemma {:induction false} RunLeaders(leader: map<Ptr, bool>, s: seq<Ptr>, k: int, e: int, a: seq<Ptr>, b: seq<Ptr>)
    requires NoDup(s) && RunAt(leader, s, k, e) && Leaders(leader, s) == a + [s[k]] + b
    ensures Leaders(leader, s[..k]) == a && Leaders(leader, s[k..]) == [s[k]] + b
    ensures Leaders(leader, s[..e + 1]) == a + [s[k]] && Leaders(leader, s[e + 1..]) == b
  {
    hide Leaders;
    LeaderSplit(leader, s, k, a, b);
    var pre, run, post := s[..e + 1], s[k + 1..e + 1], s[e + 1..];
    NoneLead(leader, run);
    LeadersAt(leader, pre, k);
    assert pre[..k] == s[..k] && pre[k + 1..] == run && pre[k] == s[k];
    assert s[k + 1..] == run + post;
    LeadersConcat(leader, run, post);
    LeadersAt(leader, s[k..], 0);
    assert s[k..][..0] == [] && s[k..][1..] == s[k + 1..];
    NoLeaders(leader);
  }

  /** Where a key splits a list strictly, no entry has an equal key. */
  lemma {:induction false} NoneEqual<K(!new)>(cmp: (K, K) -> int, key: map<Ptr, K>, leader: map<Ptr, bool>,
                                              s: seq<Ptr>, kk: K, k: int)
    requires TotalOrder(cmp) && Runs(cmp, key, leader, s) && Splits(cmp, key, s, kk, k)
    requires k > 0 ==> cmp(key[s[k - 1]], kk) < 0
    ensures !Present(cmp, key, s, kk)
  {
    hide TotalOrder;
    forall i | 0 <= i < |s| ensures cmp(kk, key[s[i]]) != 0 {
      if i < k {
        assert cmp(key[s[i]], key[s[k - 1]]) <= 0;
        Strict(cmp, key[s[i]], key[s[k - 1]], kk);
        Flip(cmp, key[s[i]], kk);
      }
    }
  }

  lemma AllLeadInsert(leader: map<Ptr, bool>, s: seq<Ptr>, k: int, n: Ptr)
    requires 0 <= k <= |s| && n in leader && leader[n] && AllLead(leader, s)
    ensures AllLead(leader, Insert(s, k, n))
  {
    var s' := Insert(s, k, n);
    forall i | 0 <= i < |s'| ensures s'[i] in leader && leader[s'[i]] {
      assert s'[i] == if i == k then n else s[if i < k then i else i - 1];
    }
  }

  /** Neighbours on either side of a key split the sorted list there. */
  lemma {:induction false} SplitByNeighbours<K(!new)>(cmp: (K, K) -> int, key: map<Ptr, K>, leader: map<Ptr, bool>,
                                                      s: seq<Ptr>, kk: K, k: int)
    requires TotalOrder(cmp) && Runs(cmp, key, leader, s) && 0 <= k <= |s|
    ensures (k > 0 ==> cmp(kk, key[s[k - 1]]) >= 0) && (k < |s| ==> cmp(kk, key[s[k]]) < 0) ==>
              Splits(cmp, key, s, kk, k)
    ensures (k > 0 ==> cmp(kk, key[s[k - 1]]) > 0) && (k < |s| ==> cmp(kk, key[s[k]]) <= 0) ==>
              SplitsBelow(cmp, key, s, kk, k)
  {
    hide TotalOrder, Starts;
    forall i | 0 <= i < k && cmp(kk, key[s[k - 1]]) >= 0
      ensures cmp(key[s[i]], kk) <= 0 && (cmp(kk, key[s[k - 1]]) > 0 ==> cmp(kk, key[s[i]]) > 0) {
      assert cmp(key[s[i]], key[s[k - 1]]) <= 0;
      Flip(cmp, kk, key[s[k - 1]]);
      Strict(cmp, key[s[i]], key[s[k - 1]], kk);
      Flip(cmp, kk, key[s[i]]);
    }
    forall i | k <= i < |s| && cmp(kk, key[s[k]]) <= 0
      ensures cmp(kk, key[s[i]]) <= 0 && (cmp(kk, key[s[k]]) < 0 ==> cmp(kk, key[s[i]]) < 0) {
      assert cmp(key[s[k]], key[s[i]]) <= 0;
      Strict(cmp, kk, key[s[k]], key[s[i]]);
    }
  }

  lemma AllLeadRemove(leader: map<Ptr, bool>, s: seq<Ptr>, k: int)
    requires 0 <= k < |s| && AllLead(leader, s)
    ensures AllLead(leader, Remove(s, k)) && Promoted(leader, s, k) == leader
  {
    var s' := Remove(s, k);
    forall i | 0 <= i < |s'| ensures s'[i] in leader && leader[s'[i]] {
      assert s'[i] == s[if i < k then i else i + 1];
    }
  }
}
