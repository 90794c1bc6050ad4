/** ubusd_event.c: event patterns, and the objects an event goes to. */
module Events {
  import opened Basics
  import opened Patterns
  import Acl

  type Id = nat

  const UBUS_SYSTEM_OBJECT_MAX := 1024
  const STAR := 42

  datatype Status = Ok | InvalidArgument | PermissionDenied | NotFound

  /** struct event_source, and struct ubus_object as far as events go; a client is named by a
      number, NULL for none. */
  datatype Source = Source(key: str, obj: Id, partial: bool)
  datatype Object = Object(client: Id, eventSeen: int, events: seq<Id>)
  datatype Delivery = Delivery(client: Id, obj: Id, seqno: int)

  ghost function Keys(ps: seq<Source>): (k: seq<str>)
    ensures |k| == |ps| && forall i :: 0 <= i < |ps| ==> k[i] == ps[i].key
  {
    seq(|ps|, i requires 0 <= i < |ps| => ps[i].key)
  }

  /** What the event is for: a matching pattern of an object of another client */
  ghost predicate Wants(p: Source, id: str, cl: Id, clientOf: map<Id, Id>) {
    Matches(id, p.key, p.partial) && p.obj in clientOf && clientOf[p.obj] != cl
  }

  /** The objects an event goes to, looking at every pattern and at each object once */
  ghost function Receivers(ps: seq<Source>, id: str, cl: Id, clientOf: map<Id, Id>): seq<Id> {
    if ps == [] then []
    else
      var p := ps[|ps| - 1];
      var before := Receivers(ps[..|ps| - 1], id, cl, clientOf);
      if Wants(p, id, cl, clientOf) && p.obj !in before then before + [p.obj] else before
  }

  /** Exactly the objects with a matching pattern that are not the sender's, each once. */
  lemma {:induction false} ReceiversAre(ps: seq<Source>, id: str, cl: Id, clientOf: map<Id, Id>)
    ensures forall o :: o in Receivers(ps, id, cl, clientOf) <==>
              exists i :: 0 <= i < |ps| && ps[i].obj == o && Wants(ps[i], id, cl, clientOf)
    ensures forall i, j :: 0 <= i < j < |Receivers(ps, id, cl, clientOf)| ==>
              Receivers(ps, id, cl, clientOf)[i] != Receivers(ps, id, cl, clientOf)[j]
  {
    if ps != [] {
      var less, p := ps[..|ps| - 1], ps[|ps| - 1];
      ReceiversAre(less, id, cl, clientOf);
      var was, now := Receivers(less, id, cl, clientOf), Receivers(ps, id, cl, clientOf);
      forall o ensures o in now <==> exists i :: 0 <= i < |ps| && ps[i].obj == o && Wants(ps[i], id, cl, clientOf) {
        if i :| 0 <= i < |ps| && ps[i].obj == o && Wants(ps[i], id, cl, clientOf) {
          if i < |less| { assert less[i].obj == o && Wants(less[i], id, cl, clientOf); }
        }
        if o in was {
          var i :| 0 <= i < |less| && less[i].obj == o && Wants(less[i], id, cl, clientOf);
          assert ps[i] == less[i];
        }
      }
    }
  }

  lemma {:induction false} NoMoreReceivers(ps: seq<Source>, id: str, cl: Id, clientOf: map<Id, Id>, n: nat)
    requires n <= |ps| && forall k :: n <= k < |ps| ==> !Matches(id, ps[k].key, ps[k].partial)
    ensures Receivers(ps, id, cl, clientOf) == Receivers(ps[..n], id, cl, clientOf)
  {
    if n < |ps| {
      var less := ps[..|ps| - 1];
      NoMoreReceivers(less, id, cl, clientOf, n);
      assert less[..n] == ps[..n];
    } else {
      assert ps[..n] == ps;
    }
  }

  lemma {:induction false} NextReceiver(ps: seq<Source>, id: str, cl: Id, clientOf: map<Id, Id>, n: nat)
    requires n < |ps|
    ensures var before := Receivers(ps[..n], id, cl, clientOf);
      Receivers(ps[..n + 1], id, cl, clientOf) ==
        if Wants(ps[n], id, cl, clientOf) && ps[n].obj !in before then before + [ps[n].obj] else before
  {
    assert ps[..n + 1][..n] == ps[..n];
  }

  lemma {:induction false} NoReceivers(ps: seq<Source>, id: str, cl: Id, clientOf: map<Id, Id>, seqno: int)
    ensures Receivers(ps[..0], id, cl, clientOf) == [] && Known([], clientOf) && Deliveries([], clientOf, seqno) == []
  {
  }

  ghost predicate Known(receivers: seq<Id>, clientOf: map<Id, Id>) { forall o :: o in receivers ==> o in clientOf }

  /** How messages to the receivers look; seqno is the first sequence number. */
  ghost function Deliveries(receivers: seq<Id>, clientOf: map<Id, Id>, seqno: int): (d: seq<Delivery>)
    requires Known(receivers, clientOf)
    ensures |d| == |receivers|
  {
    seq(|receivers|, i requires 0 <= i < |receivers| => Delivery(clientOf[receivers[i]], receivers[i], seqno + i))
  }

  ghost function Clients(objects: map<Id, Object>): map<Id, Id> {
    map o | o in objects :: objects[o].client
  }

  ghost function Table(patterns: seq<Id>, sources: map<Id, Source>): (t: seq<Source>)
    requires forall i :: 0 <= i < |patterns| ==> patterns[i] in sources
    ensures |t| == |patterns| && forall i :: 0 <= i < |patterns| ==> t[i] == sources[patterns[i]]
  {
    seq(|patterns|, i requires 0 <= i < |patterns| => sources[patterns[i]])
  }

  /** The tree holds every source once; each source is on the list of the object it names, and
      on no other. */
  ghost predicate Linked(patterns: seq<Id>, sources: map<Id, Source>, objects: map<Id, Object>) {
    && (forall i :: 0 <= i < |patterns| ==> patterns[i] in sources)
    && (forall h :: h in sources ==> h in patterns)
    && NoDup(patterns)
    && (forall h :: h in sources ==> sources[h].obj in objects)
    && (forall o, h :: o in objects ==> (h in objects[o].events <==> h in sources && sources[h].obj == o))
    && (forall o :: o in objects ==> NoDup(objects[o].events))
  }

  /** Nothing but the marks of the last event differs. */
  ghost predicate SameObjects(a: map<Id, Object>, b: map<Id, Object>) {
    a.Keys == b.Keys && forall o :: o in a ==> a[o].client == b[o].client && a[o].events == b[o].events
  }

  /** Every pattern is that of an object there is. */
  ghost predicate Live(patterns: seq<Id>, sources: map<Id, Source>, objects: map<Id, Object>) {
    forall i :: 0 <= i < |patterns| ==> patterns[i] in sources && sources[patterns[i]].obj in objects
  }

  lemma {:induction false} LiveKept(patterns: seq<Id>, sources: map<Id, Source>, a: map<Id, Object>, b: map<Id, Object>)
    requires Live(patterns, sources, a) && SameObjects(a, b)
    ensures Live(patterns, sources, b)
  {
  }

  lemma {:induction false} ClientsKept(a: map<Id, Object>, b: map<Id, Object>, o: Id)
    requires a == b || SameObjects(a, b)
    ensures SameObjects(a, b) && (o in b ==> o in Clients(a) && Clients(a)[o] == b[o].client)
  {
  }

  lemma {:induction false} SameTrans(a: map<Id, Object>, b: map<Id, Object>, c: map<Id, Object>)
    requires SameObjects(a, b) && SameObjects(b, c)
    ensures SameObjects(a, c)
  {
    forall o | o in a ensures a[o].client == c[o].client && a[o].events == c[o].events {
      assert o in b;
    }
  }

  /** The objects that were sent the event, once o was considered */
  ghost function NowGot(client: Id, cl: Id, o: Id, got: seq<Id>): seq<Id> {
    if client != cl && o !in got then got + [o] else got
  }

  lemma {:induction false} LinkedKept(patterns: seq<Id>, sources: map<Id, Source>, a: map<Id, Object>,
                                      b: map<Id, Object>)
    requires Linked(patterns, sources, a) && SameObjects(a, b)
    ensures Linked(patterns, sources, b) && Clients(b) == Clients(a)
  {
  }

  lemma {:induction false} SameClients(a: map<Id, Object>, b: map<Id, Object>, o: Id)
    requires SameObjects(a, b)
    ensures Clients(b) == Clients(a) && (o in a <==> o in b) && (o in a ==> b[o].events == a[o].events)
  {
  }

  lemma {:induction false} LinkedLive(patterns: seq<Id>, sources: map<Id, Source>, objects: map<Id, Object>)
    requires Linked(patterns, sources, objects)
    ensures Live(patterns, sources, objects)
  {
  }

  lemma {:induction false} LinkedHas(patterns: seq<Id>, sources: map<Id, Source>, objects: map<Id, Object>, h: Id)
    requires Linked(patterns, sources, objects) && h in sources
    ensures sources[h].obj in objects
  {
  }

  lemma {:induction false} NotNamed(patterns: seq<Id>, sources: map<Id, Source>, objects: map<Id, Object>, o: Id)
    requires Linked(patterns, sources, objects) && o !in objects
    ensures forall h :: h in sources ==> sources[h].obj != o
  {
  }

  lemma {:induction false} OwnEvents(patterns: seq<Id>, sources: map<Id, Source>, objects: map<Id, Object>, o: Id)
    requires Linked(patterns, sources, objects) && o in objects
    ensures objects[o].events != [] ==> objects[o].events[0] in sources && sources[objects[o].events[0]].obj == o
    ensures objects[o].events == [] ==> forall h :: h in sources ==> sources[h].obj != o
  {
    if objects[o].events != [] {
      assert objects[o].events[0] in objects[o].events;
    } else {
      forall h | h in sources ensures sources[h].obj != o {
        assert h in objects[o].events <==> h in sources && sources[h].obj == o;
      }
    }
  }

  /** Exactly the receivers so far carry the mark of event now. */
  ghost predicate Marked(objects: map<Id, Object>, now: int, receivers: seq<Id>) {
    forall o :: o in objects ==> objects[o].eventSeen <= now && (objects[o].eventSeen == now <==> o in receivers)
  }

  lemma {:induction false} ReceiversKnown(ps: seq<Source>, id: str, cl: Id, clientOf: map<Id, Id>)
    ensures Known(Receivers(ps, id, cl, clientOf), clientOf)
  {
    ReceiversAre(ps, id, cl, clientOf);
  }

  lemma {:induction false} OneMore(receivers: seq<Id>, o: Id, clientOf: map<Id, Id>, seqno: int)
    requires Known(receivers, clientOf) && o in clientOf
    ensures Known(receivers + [o], clientOf)
    ensures Deliveries(receivers + [o], clientOf, seqno) ==
              Deliveries(receivers, clientOf, seqno) + [Delivery(clientOf[o], o, seqno + |receivers|)]
  {
  }

  lemma {:induction false} ClientsSame(objects: map<Id, Object>, o: Id, events: seq<Id>)
    requires o in objects
    ensures Clients(objects[o := objects[o].(events := events)]) == Clients(objects)
  {
  }

  lemma {:induction false} MarkedNone(objects: map<Id, Object>, now: int)
    requires forall o :: o in objects ==> objects[o].eventSeen < now
    ensures Marked(objects, now, [])
  {
  }

  lemma {:induction false} MarkedBound(objects: map<Id, Object>, now: int, receivers: seq<Id>)
    requires Marked(objects, now, receivers)
    ensures forall o :: o in objects ==> objects[o].eventSeen <= now
  {
  }

  /** The messages an event leads to */
  ghost function Expected(ps: seq<Source>, id: str, cl: Id, clientOf: map<Id, Id>, seqno: int): seq<Delivery> {
    ReceiversKnown(ps, id, cl, clientOf);
    Deliveries(Receivers(ps, id, cl, clientOf), clientOf, seqno)
  }

  /** Where avl_insert puts a key in the list: behind all that are not greater */
  function Place(keys: seq<Id>, sources: map<Id, Source>, key: str): (n: nat)
    requires forall i :: 0 <= i < |keys| ==> keys[i] in sources
    ensures n <= |keys|
    ensures n > 0 ==> Leq(sources[keys[n - 1]].key, key)
    ensures n < |keys| ==> !Leq(sources[keys[n]].key, key)
  {
    if keys == [] then 0
    else if Leq(sources[keys[|keys| - 1]].key, key) then |keys|
    else Place(keys[..|keys| - 1], sources, key)
  }

  ghost predicate InOrder(keys: seq<Id>, sources: map<Id, Source>) {
    && (forall i :: 0 <= i < |keys| ==> keys[i] in sources)
    && Sorted(Keys(Table(keys, sources)))
  }

  lemma {:induction false} OrderIs(keys: seq<Id>, sources: map<Id, Source>)
    requires forall i :: 0 <= i < |keys| ==> keys[i] in sources
    ensures InOrder(keys, sources) <==>
              forall i, j :: 0 <= i <= j < |keys| ==> Leq(sources[keys[i]].key, sources[keys[j]].key)
  {
    hide Leq;
    var k := Keys(Table(keys, sources));
    assert forall i :: 0 <= i < |keys| ==> k[i] == sources[keys[i]].key;
    if forall i, j :: 0 <= i <= j < |keys| ==> Leq(sources[keys[i]].key, sources[keys[j]].key) {
      assert Sorted(k);
    }
    if Sorted(k) {
      forall i, j | 0 <= i <= j < |keys| ensures Leq(sources[keys[i]].key, sources[keys[j]].key) {
        assert Leq(k[i], k[j]);
      }
    }
  }

  lemma {:induction false} OrderPair(keys: seq<Id>, sources: map<Id, Source>, h: Id, src: Source, n: nat, i: nat,
                                     j: nat)
    requires (forall k :: 0 <= k < |keys| ==> keys[k] in sources) && h !in sources && n <= |keys| && i <= j <= |keys|
    requires forall k, l :: 0 <= k <= l < |keys| ==> Leq(sources[keys[k]].key, sources[keys[l]].key)
    requires n > 0 ==> Leq(sources[keys[n - 1]].key, src.key)
    requires n < |keys| ==> !Leq(sources[keys[n]].key, src.key)
    ensures var now, tab := keys[..n] + [h] + keys[n..], sources[h := src];
      now[i] in tab && now[j] in tab && Leq(tab[now[i]].key, tab[now[j]].key)
  {
    hide Leq;
    InsertedAt(keys, n, h, i);
    InsertedAt(keys, n, h, j);
    LeqReflexive(src.key);
    if i < n && j == n {
      LeqTransitive(sources[keys[i]].key, sources[keys[n - 1]].key, src.key);
    } else if i == n && j > n {
      LeqTotal(sources[keys[n]].key, src.key);
      LeqTransitive(src.key, sources[keys[n]].key, sources[keys[j - 1]].key);
    }
  }

  lemma {:induction false} OrderAdd(keys: seq<Id>, sources: map<Id, Source>, h: Id, src: Source)
    requires InOrder(keys, sources) && h !in sources
    ensures var n := Place(keys, sources, src.key); InOrder(keys[..n] + [h] + keys[n..], sources[h := src])
  {
    hide Leq, Place, InOrder;
    OrderKeys(keys, sources);
    var n := Place(keys, sources, src.key);
    var now, tab := keys[..n] + [h] + keys[n..], sources[h := src];
    forall i | 0 <= i < |now| ensures now[i] in tab { OrderPair(keys, sources, h, src, n, i, i); }
    OrderIs(now, tab);
    forall i, j | 0 <= i <= j < |now| ensures Leq(tab[now[i]].key, tab[now[j]].key) {
      OrderPair(keys, sources, h, src, n, i, j);
    }
  }

  /** A sub-sequence stays in order. */
  lemma {:induction false} OrderWithout(keys: seq<Id>, sources: map<Id, Source>, h: Id)
    requires InOrder(keys, sources)
    ensures InOrder(Without(keys, h), sources - {h})
  {
    hide Leq, InOrder;
    OrderKeys(keys, sources);
    var now := Without(keys, h);
    forall i | 0 <= i < |now| ensures now[i] in sources - {h} { assert now[i] in now; }
    OrderIs(now, sources - {h});
    forall i, j | 0 <= i <= j < |now| ensures Leq(sources[now[i]].key, sources[now[j]].key) {
      var p, q := WithoutAt(keys, h, i, j);
    }
  }

  lemma {:induction false} OrderKeys(keys: seq<Id>, sources: map<Id, Source>)
    requires InOrder(keys, sources)
    ensures forall i :: 0 <= i < |keys| ==> keys[i] in sources
    ensures forall i, j :: 0 <= i <= j < |keys| ==> Leq(sources[keys[i]].key, sources[keys[j]].key)
  {
    hide Leq;
    OrderIs(keys, sources);
  }

  /** Where two elements of what is left come from */
  lemma {:induction false} WithoutAt(s: seq<Id>, h: Id, i: nat, j: nat) returns (p: nat, q: nat)
    requires i <= j < |Without(s, h)|
    ensures p <= q < |s| && s[p] == Without(s, h)[i] && s[q] == Without(s, h)[j]
  {
    var rest := s[1..];
    if s[0] == h {
      p, q := WithoutAt(rest, h, i, j);
      p, q := p + 1, q + 1;
    } else if j == 0 {
      p, q := 0, 0;
    } else {
      p, q := WithoutAt(rest, h, if i == 0 then 0 else i - 1, j - 1);
      p, q := if i == 0 then 0 else p + 1, q + 1;
    }
  }

  lemma {:induction false} LinkAdd(patterns: seq<Id>, sources: map<Id, Source>, objects: map<Id, Object>, h: Id,
                                   src: Source, n: nat)
    requires Linked(patterns, sources, objects) && h !in sources && src.obj in objects && n <= |patterns|
    ensures var o := objects[src.obj];
      Linked(patterns[..n] + [h] + patterns[n..], sources[h := src], objects[src.obj := o.(events := [h] + o.events)])
  {
    hide NoDup;
    var now := patterns[..n] + [h] + patterns[n..];
    var o := objects[src.obj];
    InsertNoDup(patterns, n, h);
    InsertNoDup(o.events, 0, h);
    assert o.events[..0] + [h] + o.events[0..] == [h] + o.events;
    forall i | 0 <= i < |now| ensures now[i] in sources[h := src] { assert now[i] in now; }
  }

  lemma {:induction false} LinkRemove(patterns: seq<Id>, sources: map<Id, Source>, objects: map<Id, Object>, h: Id)
    requires Linked(patterns, sources, objects) && h in sources
    ensures var o := sources[h].obj;
      Linked(Without(patterns, h), sources - {h}, objects[o := objects[o].(events := Without(objects[o].events, h))])
  {
    hide NoDup, Without;
    var o := sources[h].obj;
    WithoutNoDup(patterns, h);
    WithoutNoDup(objects[o].events, h);
    var now := Without(patterns, h);
    forall i | 0 <= i < |now| ensures now[i] in sources - {h} { assert now[i] in now; }
  }

  /** The state of the daemon that events need. */
  class EventTable {
    var acls: seq<Acl.Entry>
    var patterns: seq<Id>            // the event sources in the order of the tree
    var sources: map<Id, Source>
    var objects: map<Id, Object>
    var eventSeq: int
    var objEventSeq: int
    var sent: seq<Delivery>

    ghost predicate Valid()
      reads this
    {
      && Sorted(Acl.Keys(acls)) && Linked(patterns, sources, objects) && InOrder(patterns, sources)
      && (forall o :: o in objects ==> objects[o].eventSeen <= objEventSeq) && 0 <= objEventSeq
    }

    /** ubusd_event_init, with the access control list that was loaded */
    constructor (acls: seq<Acl.Entry>)
      requires Sorted(Acl.Keys(acls))
      ensures Valid() && this.acls == acls && objects == map[] && sources == map[] && patterns == [] && sent == []
    {
      this.acls, patterns, sources, objects, eventSeq, objEventSeq, sent := acls, [], map[], map[], 0, 1, [];
    }

    lemma {:induction false} Listed()
      requires Valid()
      ensures forall i :: 0 <= i < |patterns| ==> patterns[i] in sources
    {
    }

    lemma {:induction false} AclSorted()
      requires Valid()
      ensures Sorted(Acl.Keys(acls))
    {
    }

    lemma {:induction false} Unnamed(o: Id)
      requires Valid() && o in objects && objects[o].events == []
      ensures forall h :: h in sources ==> sources[h].obj != o
    {
      OwnEvents(patterns, sources, objects, o);
    }

    /** A new object has no patterns. */
    method AddObject(o: Id, client: Id)
      requires Valid() && o !in objects
      modifies `objects
      ensures Valid() && objects == old(objects)[o := Object(client, 0, [])]
    {
      hide Leq, InOrder, Sorted;
      NotNamed(patterns, sources, objects, o);
      objects := objects[o := Object(client, 0, [])];
    }

    method SetClient(o: Id, client: Id)
      requires Valid() && o in objects
      modifies `objects
      ensures Valid() && objects == old(objects)[o := old(objects)[o].(client := client)]
    {
      hide Leq, InOrder, Sorted;
      objects := objects[o := objects[o].(client := client)];
    }

    /** An object without patterns goes away. */
    method DropObject(o: Id)
      requires Valid() && o in objects && objects[o].events == []
      modifies `objects
      ensures Valid() && objects == old(objects) - {o}
    {
      hide Leq, InOrder, Sorted;
      OwnEvents(patterns, sources, objects, o);
      objects := objects - {o};
    }

    /** ubusd_send_event_msg, after the objects in got were sent the event */
    method SendEventMsg(cl: Id, o: Id, ghost got: seq<Id>)
      requires o in objects && Marked(objects, objEventSeq, got)
      modifies `objects, `eventSeq, `sent
      ensures SameObjects(old(objects), objects)
      ensures Marked(objects, objEventSeq, NowGot(old(objects)[o].client, cl, o, got))
      ensures sent == old(sent) +
                if |NowGot(old(objects)[o].client, cl, o, got)| > |got|
                  then [Delivery(old(objects)[o].client, o, old(eventSeq) + 1)] else []
      ensures eventSeq == old(eventSeq) + |NowGot(old(objects)[o].client, cl, o, got)| - |got|
    {
      if objects[o].client == cl {
        return;
      }
      if objects[o].eventSeen == objEventSeq {
        return;
      }
      objects := objects[o := objects[o].(eventSeen := objEventSeq)];
      eventSeq := eventSeq + 1;
      sent := sent + [Delivery(objects[o].client, o, eventSeq)];
    }

    /** ubusd_send_event: the event goes to exactly the objects of other clients with a matching
        pattern, once each, in the order their patterns are found. */
    method SendEvent(cl: Id, who: Option<Acl.Client>, id: str) returns (st: Status)
      requires Valid()
      modifies `objects, `eventSeq, `objEventSeq, `sent
      ensures Valid() && SameObjects(old(objects), objects)
      ensures st == if Acl.Allowed(acls, who, Some(id), [], Acl.Send) then Ok else PermissionDenied
      ensures st == Ok ==>
                sent == old(sent) + Expected(Table(patterns, sources), id, cl, Clients(objects), old(eventSeq) + 1)
      ensures st != Ok ==> sent == old(sent)
    {
      hide Leq, Common, Matches, Expected, Acl.Allowed, Linked, Clients;
      var denied := Acl.Check(acls, who, Some(id), [], Acl.Send);
      if denied != 0 {
        return PermissionDenied;
      }
      objEventSeq := objEventSeq + 1;
      LinkedLive(patterns, sources, objects);
      ScanPatterns(cl, id);
      LinkedKept(patterns, sources, old(objects), objects);
      return Ok;
    }

    /** The scan of ubusd_send_event */
    method ScanPatterns(cl: Id, id: str)
      requires Live(patterns, sources, objects) && InOrder(patterns, sources)
      requires forall o :: o in objects ==> objects[o].eventSeen < objEventSeq
      modifies `objects, `eventSeq, `sent
      ensures SameObjects(old(objects), objects)
      ensures forall o :: o in objects ==> objects[o].eventSeen <= objEventSeq
      ensures sent == old(sent) + Expected(Table(patterns, sources), id, cl, Clients(old(objects)), old(eventSeq) + 1)
    {
      hide Leq, Common, Matches, Sorted, Receivers, Deliveries, SameObjects, Clients, Marked, Known;
      ghost var table, clientOf := Table(patterns, sources), Clients(objects);
      var matchLen := 0;
      ghost var last := -1;
      ghost var got: seq<Id> := [];
      var i := 0;
      ClientsKept(objects, objects, 0);
      NoReceivers(table, id, cl, clientOf, eventSeq + 1);
      MarkedNone(objects, objEventSeq);
      while i < |patterns|
        invariant 0 <= i <= |patterns| && -1 <= last < i && (last == -1 ==> matchLen == 0)
        invariant last >= 0 ==> matchLen == Common(id, table[last].key)
        invariant SameObjects(old(objects), objects) && Live(patterns, sources, objects)
        invariant got == Receivers(table[..i], id, cl, clientOf) && Known(got, clientOf)
                  && Marked(objects, objEventSeq, got)
        invariant sent == old(sent) + Deliveries(got, clientOf, old(eventSeq) + 1)
        invariant eventSeq == old(eventSeq) + |got|
      {
        var ev := sources[patterns[i]];
        ghost var was := objects;
        var stop, len, hit := Acl.Look(id, ev.key, ev.partial, matchLen);
        if stop {
          BreakLosesNothing(id, Keys(table), last, i);
          NoMoreReceivers(table, id, cl, clientOf, i);
          MarkedBound(objects, objEventSeq, got);
          return;
        }
        matchLen, last := len, i;
        NextReceiver(table, id, cl, clientOf, i);
        assert hit == Matches(id, table[i].key, table[i].partial);
        if hit {
          ClientsKept(old(objects), objects, ev.obj);
          OneMore(got, ev.obj, clientOf, old(eventSeq) + 1);
          SendEventMsg(cl, ev.obj, got);
          got := NowGot(clientOf[ev.obj], cl, ev.obj, got);
          SameTrans(old(objects), was, objects);
          LiveKept(patterns, sources, was, objects);
        }
        i := i + 1;
      }
      assert table[..|table|] == table;
      MarkedBound(objects, objEventSeq, got);
    }

    /** ubusd_alloc_event_pattern; h is the event source that calloc returned, and before the byte
        in front of the pattern, which is looked at if the pattern is empty. A pattern that ends in
        a star stands for all strings that begin with what is before it. */
    method AllocEventPattern(cl: Id, who: Option<Acl.Client>, pattern: Option<str>, before: int, target: Option<Id>,
                             h: Id)
      returns (st: Status)
      requires Valid() && h !in sources
      modifies `patterns, `sources, `objects
      ensures Valid() && Clients(objects) == Clients(old(objects))
      ensures st == AllocStatus(acls, old(objects), cl, who, pattern, target)
      ensures st != Ok ==> patterns == old(patterns) && sources == old(sources) && objects == old(objects)
      ensures st == Ok ==>
                sources == old(sources)[h := Source(Stem(pattern.value), target.value, Starred(pattern.value, before))]
      ensures st == Ok ==>
                objects ==
                  old(objects)[target.value :=
                               old(objects)[target.value].(events := [h] + old(objects)[target.value].events)]
      ensures st == Ok ==> var n := Place(old(patterns), old(sources), Stem(pattern.value));
                patterns == old(patterns)[..n] + [h] + old(patterns)[n..]
    {
      hide Leq, Linked, Sorted, InOrder, Place, Clients, Acl.Allowed, Stem, Starred;
      if pattern == None || target == None {
        return InvalidArgument;
      }
      var o := target.value;
      if o < UBUS_SYSTEM_OBJECT_MAX {
        return PermissionDenied;
      }
      if o !in objects {
        return NotFound;
      }
      if objects[o].client != cl {
        return PermissionDenied;
      }
      var key, partial := pattern.value, false;
      if (if key == [] then before else key[|key| - 1]) == STAR {
        partial := true;
        key := if key == [] then key else key[..|key| - 1];
      }
      SplitIs(pattern.value, before);
      var src := Source(key, o, partial);
      if src.key != [] {
        var denied := Acl.Check(acls, who, Some(src.key), [], Acl.Listen);
        if denied != 0 {
          return PermissionDenied;
        }
      }
      Register(h, src);
      return Ok;
    }

    /** The new source goes into the tree and on the list of its object. */
    method Register(h: Id, src: Source)
      requires Valid() && h !in sources && src.obj in objects
      modifies `patterns, `sources, `objects
      ensures Valid() && Clients(objects) == Clients(old(objects)) && sources == old(sources)[h := src]
      ensures objects == old(objects)[src.obj := old(objects)[src.obj].(events := [h] + old(objects)[src.obj].events)]
      ensures var n := Place(old(patterns), old(sources), src.key);
                patterns == old(patterns)[..n] + [h] + old(patterns)[n..]
    {
      hide Leq, Linked, Sorted, Clients, Place, InOrder, NoDup;
      Listed();
      var n := Place(patterns, sources, src.key);
      LinkAdd(patterns, sources, objects, h, src, n);
      OrderAdd(patterns, sources, h, src);
      ClientsSame(objects, src.obj, [h] + objects[src.obj].events);
      objects := objects[src.obj := objects[src.obj].(events := [h] + objects[src.obj].events)];
      sources := sources[h := src];
      patterns := patterns[..n] + [h] + patterns[n..];
    }

    /** ubusd_delete_event_source */
    method DeleteEventSource(h: Id)
      requires Valid() && h in sources
      modifies `patterns, `sources, `objects
      ensures Valid() && sources == old(sources) - {h} && patterns == Without(old(patterns), h)
      ensures objects.Keys == old(objects).Keys && Clients(objects) == Clients(old(objects))
      ensures objects[old(sources)[h].obj].events == Without(old(objects)[old(sources)[h].obj].events, h)
    {
      hide Leq, Linked, Sorted, Clients, Without;
      LinkRemove(patterns, sources, objects, h);
      OrderWithout(patterns, sources, h);
      var o := sources[h].obj;
      assert o in objects by { LinkedHas(patterns, sources, objects, h); }
      ClientsSame(objects, o, Without(objects[o].events, h));
      objects := objects[o := objects[o].(events := Without(objects[o].events, h))];
      patterns := Without(patterns, h);
      sources := sources - {h};
    }

    /** ubusd_event_cleanup_object: no event will look at the object any more. */
    method CleanupObject(o: Id)
      requires Valid() && o in objects
      modifies `patterns, `sources, `objects
      ensures Valid() && objects.Keys == old(objects).Keys && Clients(objects) == Clients(old(objects))
      ensures objects[o].events == []
      ensures sources == map h | h in old(sources) && old(sources)[h].obj != o :: old(sources)[h]
    {
      hide Leq, Sorted, InOrder, Linked;
      while objects[o].events != []
        invariant Valid() && objects.Keys == old(objects).Keys && Clients(objects) == Clients(old(objects))
        invariant forall h :: h in sources ==> h in old(sources) && sources[h] == old(sources)[h]
        invariant forall h :: h in old(sources) && old(sources)[h].obj != o ==> h in sources
        decreases |sources|
      {
        var h := objects[o].events[0];
        OwnEvents(patterns, sources, objects, o);
        DeleteEventSource(h);
      }
      OwnEvents(patterns, sources, objects, o);
    }
  }

  lemma SplitIs(pattern: str, before: int)
    ensures var last := if pattern == [] then before else pattern[|pattern| - 1];
            && Starred(pattern, before) == (last == STAR)
            && Stem(pattern) == if pattern != [] && last == STAR then pattern[..|pattern| - 1] else pattern
  {
  }

  /** A star at the end of a pattern is taken off. */
  lemma StemIs(key: str, before: int)
    ensures Stem(key + [42]) == key && Starred(key + [42], before)
    ensures key != [] && key[|key| - 1] != 42 ==> Stem(key) == key && !Starred(key, before)
    ensures Stem([]) == [] && (Starred([], before) <==> before == 42)
  {
  }

  /** The pattern without a star at its end, and whether it has one */
  ghost predicate Starred(pattern: str, before: int) {
    if pattern == [] then before == STAR else pattern[|pattern| - 1] == STAR
  }

  ghost function Stem(pattern: str): str {
    if pattern != [] && pattern[|pattern| - 1] == STAR then pattern[..|pattern| - 1] else pattern
  }

  ghost function AllocStatus(acls: seq<Acl.Entry>, objects: map<Id, Object>, cl: Id, who: Option<Acl.Client>,
                             pattern: Option<str>, target: Option<Id>): Status {
    if pattern == None || target == None then InvalidArgument
    else if target.value < 1024 then PermissionDenied
    else if target.value !in objects then NotFound
    else if objects[target.value].client != cl then PermissionDenied
    else if Stem(pattern.value) != [] && !Acl.Allowed(acls, who, Some(Stem(pattern.value)), [], Acl.Listen)
      then PermissionDenied
    else Ok
  }
}
