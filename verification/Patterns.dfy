/** Strings sorted by strcmp and scanned for those that match: the equal one, and the prefixes
    that were registered with a star (ubus_common.h, ubusd_acl.c). */
module Patterns {
  import opened Basics

  /** A character of a C string: never the terminating zero. */
  type chr = x: int | 1 <= x < 256 witness 1
  type str = seq<chr>

  /** strcmp(a, b) <= 0 */
  predicate Leq(a: str, b: str) {
    a == [] || (b != [] && (a[0] < b[0] || (a[0] == b[0] && Leq(a[1..], b[1..]))))
  }

  lemma {:induction false} LeqReflexive(a: str)
    ensures Leq(a, a)
  {
    if a != [] { LeqReflexive(a[1..]); }
  }

  lemma {:induction false} LeqTotal(a: str, b: str)
    ensures Leq(a, b) || Leq(b, a)
  {
    if a != [] && b != [] { LeqTotal(a[1..], b[1..]); }
  }

  lemma {:induction false} LeqTransitive(a: str, b: str, c: str)
    requires Leq(a, b) && Leq(b, c)
    ensures Leq(a, c)
  {
    if a != [] && a[0] == b[0] == c[0] { LeqTransitive(a[1..], b[1..], c[1..]); }
  }

  /** Behind what two strings have in common, one of them ends or the characters decide. */
  lemma {:induction false} LeqIs(a: str, b: str)
    ensures var n := Common(a, b); Leq(a, b) <==> n == |a| || (n < |b| && a[n] < b[n])
  {
    if a != [] && b != [] && a[0] == b[0] { LeqIs(a[1..], b[1..]); }
  }

  /** How many characters two strings have in common */
  ghost function Common(a: str, b: str): (n: nat)
    ensures n <= |a| && n <= |b|
  {
    if a == [] || b == [] || a[0] != b[0] then 0 else 1 + Common(a[1..], b[1..])
  }

  lemma {:induction false} CommonIs(a: str, b: str, n: nat)
    requires n <= |a| && n <= |b| && a[..n] == b[..n]
    requires n == |a| || n == |b| || a[n] != b[n]
    ensures Common(a, b) == n
  {
    if n > 0 {
      assert a[0] == a[..n][0] == b[0];
      assert a[1..][..n - 1] == a[..n][1..] == b[1..][..n - 1];
      CommonIs(a[1..], b[1..], n - 1);
    }
  }

  lemma {:induction false} CommonPrefix(a: str, b: str)
    ensures Common(a, b) == |b| <==> b <= a
  {
    if a != [] && b != [] && a[0] == b[0] {
      CommonPrefix(a[1..], b[1..]);
      assert a == [a[0]] + a[1..] && b == [b[0]] + b[1..];
    }
  }

  /** s[i], with the terminating zero */
  function At(s: str, i: nat): int
    requires i <= |s|
  {
    if i == |s| then 0 else s[i]
  }

  /** ubus_strmatch_len */
  method StrMatchLen(s1: str, s2: str) returns (full: bool, len: nat)
    ensures full <==> s1 == s2
    ensures len == Common(s1, s2)
  {
    len := 0;
    while At(s1, len) == At(s2, len)
      invariant len <= |s1| && len <= |s2| && s1[..len] == s2[..len]
      decreases |s1| - len
    {
      if At(s1, len) == 0 {
        CommonIs(s1, s2, len);
        return true, len;
      }
      len := len + 1;
    }
    CommonIs(s1, s2, len);
    return false, len;
  }

  /** What a registered pattern stands for */
  ghost predicate Matches(id: str, key: str, partial: bool) {
    key == id || (partial && key <= id)
  }

  /** Sorted as the list threaded through a tree with strcmp is */
  ghost predicate Sorted(keys: seq<str>) {
    forall i, j :: 0 <= i <= j < |keys| ==> Leq(keys[i], keys[j])
  }

  /** Once a key has less in common with id than an earlier one, no later key matches. */
  lemma {:induction false} PastMatches(id: str, a: str, b: str, c: str)
    requires Leq(a, b) && Leq(b, c) && Common(id, b) < Common(id, a)
    ensures !(c <= id)
  {
    if Common(id, b) > 0 && c != [] && c[0] == id[0] {
      PastMatches(id[1..], a[1..], b[1..], c[1..]);
    }
  }

  /** So stopping there, at position n after a key at position m, is the same as going on. */
  lemma {:induction false} BreakLosesNothing(id: str, keys: seq<str>, m: int, n: int)
    requires Sorted(keys) && 0 <= m < n < |keys| && Common(id, keys[n]) < Common(id, keys[m])
    ensures forall k, partial :: n <= k < |keys| ==> !Matches(id, keys[k], partial)
  {
    forall k, partial | n <= k < |keys| ensures !Matches(id, keys[k], partial) {
      PastMatches(id, keys[m], keys[n], keys[k]);
    }
  }
}

/** ubusd_acl.c: what a client may do with an object. */
module Acl {
  import opened Basics
  import opened Patterns

  datatype Client = Client(uid: int, user: str, group: str)
  datatype Kind = Publish | Subscribe | Listen | Send | Access

  /** An attribute in a list of methods */
  datatype Attr = Text(s: str) | Other

  datatype Entry = Entry(
    key: str, partial: bool, user: Option<str>, group: Option<str>,
    publish: bool, subscribe: bool, listen: bool, send: bool,
    methods: Option<seq<Attr>>, priv: Option<int>)

  const STAR: str := [42]

  ghost function Keys(acls: seq<Entry>): (k: seq<str>)
    ensures |k| == |acls| && forall i :: 0 <= i < |acls| ==> k[i] == acls[i].key
  {
    seq(|acls|, i requires 0 <= i < |acls| => acls[i].key)
  }

  /** The entry is for this user, or for this group. */
  ghost predicate Cred(cl: Client, e: Entry) {
    (e.user.Some? && e.user.value == cl.user) || (e.group.Some? && e.group.value == cl.group)
  }

  /** ubusd_acl_match_cred */
  method MatchCred(cl: Client, e: Entry) returns (r: int)
    ensures r == if Cred(cl, e) then 0 else -1
  {
    if e.user.Some? && cl.user == e.user.value {
      return 0;
    }
    if e.group.Some? && cl.group == e.group.value {
      return 0;
    }
    return -1;
  }

  ghost predicate Grants(e: Entry, name: str, kind: Kind) {
    match kind
    case Publish => e.publish
    case Subscribe => e.subscribe
    case Listen => e.listen
    case Send => e.send
    case Access => e.methods.Some? && exists i :: 0 <= i < |e.methods.value| && NamesMethod(e.methods.value[i], name)
  }

  ghost predicate NamesMethod(a: Attr, name: str) { a == Text(name) || a == Text(STAR) }

  ghost predicate Applies(cl: Client, e: Entry, obj: str, name: str, kind: Kind) {
    Matches(obj, e.key, e.partial) && Cred(cl, e) && Grants(e, name, kind)
  }

  /** Root, the daemon itself and requests without an object may do everything; others need an
      entry, wherever it is in the list. */
  ghost predicate Allowed(acls: seq<Entry>, cl: Option<Client>, obj: Option<str>, name: str, kind: Kind) {
    cl == None || cl.value.uid == 0 || obj == None ||
    exists i :: 0 <= i < |acls| && Applies(cl.value, acls[i], obj.value, name, kind)
  }

  method HasMethod(attrs: seq<Attr>, name: str) returns (found: bool)
    ensures found <==> exists i :: 0 <= i < |attrs| && NamesMethod(attrs[i], name)
  {
    for i := 0 to |attrs|
      invariant forall j :: 0 <= j < i ==> !NamesMethod(attrs[j], name)
    {
      if attrs[i].Text? && (attrs[i].s == name || attrs[i].s == STAR) {
        return true;
      }
    }
    return false;
  }

  method Granted(e: Entry, name: str, kind: Kind) returns (yes: bool)
    ensures yes <==> Grants(e, name, kind)
  {
    match kind
    case Publish => yes := e.publish;
    case Subscribe => yes := e.subscribe;
    case Listen => yes := e.listen;
    case Send => yes := e.send;
    case Access =>
      yes := false;
      if e.methods.Some? {
        yes := HasMethod(e.methods.value, name);
      }
  }

  /** One entry of a scan: whether to stop, and whether the entry matches. */
  method Look(id: str, key: str, partial: bool, matchLen: nat) returns (stop: bool, len: nat, hit: bool)
    ensures stop <==> Common(id, key) < matchLen
    ensures len == Common(id, key)
    ensures hit <==> !stop && Matches(id, key, partial)
  {
    var full;
    full, len := StrMatchLen(id, key);
    CommonPrefix(id, key);
    stop := len < matchLen;
    hit := !stop && (full || (partial && len == |key|));
  }

  /** ubusd_acl_check: zero exactly if the unsorted list allows it. */
  method Check(acls: seq<Entry>, cl: Option<Client>, obj: Option<str>, name: str, kind: Kind) returns (r: int)
    requires Sorted(Keys(acls))
    ensures r == if Allowed(acls, cl, obj, name, kind) then 0 else -1
  {
    hide Grants, Common, Leq;
    if cl == None || cl.value.uid == 0 || obj == None {
      return 0;
    }
    var matchLen := 0;
    ghost var last := -1;
    for i := 0 to |acls|
      invariant -1 <= last < i && (last == -1 ==> matchLen == 0)
      invariant last >= 0 ==> matchLen == Common(obj.value, acls[last].key)
      invariant forall j :: 0 <= j < i ==> !Applies(cl.value, acls[j], obj.value, name, kind)
    {
      var acl := acls[i];
      var stop, len, hit := Look(obj.value, acl.key, acl.partial, matchLen);
      if stop {
        BreakLosesNothing(obj.value, Keys(acls), last, i);
        break;
      }
      matchLen, last := len, i;
      if !hit {
        continue;
      }
      var cred := MatchCred(cl.value, acl);
      if cred != 0 {
        continue;
      }
      var yes := Granted(acl, name, kind);
      if yes {
        return 0;
      }
    }
    return -1;
  }

  /** The entries with private data that match a path, in the order of the list */
  ghost function Replies(acls: seq<Entry>, path: str): (r: seq<Entry>)
  {
    if acls == [] then []
    else
      var e := acls[|acls| - 1];
      var before := Replies(acls[..|acls| - 1], path);
      if e.priv.Some? && Matches(path, e.key, e.partial) then before + [e] else before
  }

  lemma {:induction false} NoMoreReplies(acls: seq<Entry>, path: str, n: nat)
    requires n <= |acls| && forall k :: n <= k < |acls| ==> !Matches(path, acls[k].key, acls[k].partial)
    ensures Replies(acls, path) == Replies(acls[..n], path)
  {
    if n < |acls| {
      var less := acls[..|acls| - 1];
      NoMoreReplies(less, path, n);
      assert less[..n] == acls[..n];
    } else {
      assert acls[..n] == acls;
    }
  }

  /** ubusd_reply_add: reports what a scan of the whole list would. */
  method ReplyAdd(acls: seq<Entry>, path: Option<str>) returns (r: seq<Entry>)
    requires Sorted(Keys(acls))
    ensures r == if path == None then [] else Replies(acls, path.value)
  {
    hide Common, Leq;
    r := [];
    if path == None {
      return;
    }
    var matchLen := 0;
    ghost var last := -1;
    for i := 0 to |acls|
      invariant -1 <= last < i && (last == -1 ==> matchLen == 0)
      invariant last >= 0 ==> matchLen == Common(path.value, acls[last].key)
      invariant r == Replies(acls[..i], path.value)
    {
      var acl := acls[i];
      assert acls[..i + 1][..i] == acls[..i];
      if acl.priv == None {
        continue;
      }
      var stop, len, hit := Look(path.value, acl.key, acl.partial, matchLen);
      if stop {
        BreakLosesNothing(path.value, Keys(acls), last, i);
        NoMoreReplies(acls, path.value, i);
        return;
      }
      matchLen, last := len, i;
      if hit {
        r := r + [acl];
      }
    }
    assert acls[..|acls|] == acls;
  }
}
