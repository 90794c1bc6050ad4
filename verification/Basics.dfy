/** What several of the models share: optional values, bytes, and lists without repetition. */
module Basics {

  datatype Option<T> = None | Some(value: T)

  type byte = x: int | 0 <= x < 256

  /** The address of a structure; zero is the null pointer. */
  type Ptr = int
  const NULL: Ptr := 0

  ghost predicate NoDup<T>(s: seq<T>) {
    forall i, j :: 0 <= i < j < |s| ==> s[i] != s[j]
  }

  function Without<T(==, !new)>(s: seq<T>, x: T): (r: seq<T>)
    ensures forall y :: y in r <==> y in s && y != x
    ensures x !in s ==> r == s
  {
    if s == [] then [] else if s[0] == x then Without(s[1..], x) else [s[0]] + Without(s[1..], x)
  }

  lemma {:induction false} WithoutNoDup<T(!new)>(s: seq<T>, x: T)
    requires NoDup(s)
    ensures NoDup(Without(s, x)) && |Without(s, x)| == |s| - if x in s then 1 else 0
  {
    if s != [] {
      var rest := s[1..];
      forall i, j | 0 <= i < j < |rest| ensures rest[i] != rest[j] { assert s[i + 1] != s[j + 1]; }
      WithoutNoDup(rest, x);
      if s[0] == x {
        assert x !in rest;
      } else {
        var less := Without(rest, x);
        var now := [s[0]] + less;
        forall i, j | 0 <= i < j < |now| ensures now[i] != now[j] {
          if i == 0 {
            assert now[j] == less[j - 1] && less[j - 1] in less;
            var k :| 0 <= k < |rest| && rest[k] == now[j];
            assert s[0] != s[k + 1];
          } else {
            assert now[i] == less[i - 1] && now[j] == less[j - 1];
          }
        }
      }
    }
  }

  lemma {:induction false} PrependNoDup<T>(s: seq<T>, x: T)
    requires NoDup(s) && x !in s
    ensures NoDup([x] + s)
  {
  }

  lemma {:induction false} InsertedAt<T>(s: seq<T>, n: nat, x: T, i: nat)
    requires n <= |s| && i <= |s|
    ensures (s[..n] + [x] + s[n..])[i] == if i < n then s[i] else if i == n then x else s[i - 1]
  {
  }

  lemma {:induction false} InsertNoDup<T>(s: seq<T>, n: nat, x: T)
    requires NoDup(s) && x !in s && n <= |s|
    ensures var now := s[..n] + [x] + s[n..];
              NoDup(now) && |now| == |s| + 1 && forall y :: y in now <==> y in s || y == x
  {
    var now := s[..n] + [x] + s[n..];
    assert s == s[..n] + s[n..];
    forall i, j | 0 <= i < j < |now| ensures now[i] != now[j] {
      InsertedAt(s, n, x, i);
      InsertedAt(s, n, x, j);
    }
  }
}
