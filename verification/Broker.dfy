/** ubusd_obj.c, ubusd_proto.c: the daemon's tables of objects, types, paths, clients,
    subscriptions and, with ubusd_event.c, event patterns. */
module Broker {
  import opened Basics
  import opened Patterns
  import Acl
  import E = Events

  type Id = nat

  const NONE: Id := 0

  datatype Status = Ok | InvalidArgument | NotFound | PermissionDenied

  /** struct ubus_object; typ and client are NONE where the source has a null pointer. */
  datatype Object = Object(client: Id, typ: Id, path: Option<str>, subscribers: seq<Id>, targets: seq<Id>)

  /** struct ubus_subscription */
  datatype Subscription = Subscription(subscriber: Id, target: Id)

  /** What is sent, in that order: a target's owner is told whether it has subscribers; a
      subscriber's owner that a subscription ended; everybody that an object came or went. */
  datatype Message =
    | Notify(obj: Id, active: bool)
    | Unsubscribed(subscriber: Id, target: Id)
    | ObjectEvent(path: str, added: bool)

  /** What the last NOTIFY about an object said; nothing yet means no subscribers. */
  ghost function LastNotify(sent: seq<Message>, o: Id): bool {
    if sent == [] then false
    else
      var m := sent[|sent| - 1];
      if m.Notify? && m.obj == o then m.active else LastNotify(sent[..|sent| - 1], o)
  }

  lemma {:induction false} LastNotifyNext(sent: seq<Message>, m: Message, o: Id)
    ensures LastNotify(sent + [m], o) == if m.Notify? && m.obj == o then m.active else LastNotify(sent, o)
  {
    assert (sent + [m])[..|sent|] == sent;
  }

  // ----- how the tables agree -----

  /** Each subscription is on its target's and its subscriber's list, and on no others. */
  ghost predicate SubsAgree(objects: map<Id, Object>, subs: map<Id, Subscription>) {
    && (forall s :: s in subs ==> subs[s].subscriber in objects && subs[s].target in objects)
    && SubscribersAgree(objects, subs) && TargetsAgree(objects, subs)
  }

  ghost predicate SubscribersAgree(objects: map<Id, Object>, subs: map<Id, Subscription>) {
    && (forall o, s :: o in objects ==> (s in objects[o].subscribers <==> s in subs && subs[s].target == o))
    && (forall o :: o in objects ==> NoDup(objects[o].subscribers))
  }

  ghost predicate TargetsAgree(objects: map<Id, Object>, subs: map<Id, Subscription>) {
    && (forall o, s :: o in objects ==> (s in objects[o].targets <==> s in subs && subs[s].subscriber == o))
    && (forall o :: o in objects ==> NoDup(objects[o].targets))
  }

  /** The objects of a type */
  ghost function Users(objects: map<Id, Object>, t: Id): set<Id> { set o | o in objects && objects[o].typ == t }

  /** A type is there as long as an object has it, and counts them. */
  ghost predicate TypesAgree(objects: map<Id, Object>, types: map<Id, int>) {
    && NONE !in types
    && (forall o :: o in objects && objects[o].typ != NONE ==> objects[o].typ in types)
    && (forall t :: t in types ==> types[t] == |Users(objects, t)| && types[t] > 0)
  }

  ghost predicate PathsAgree(objects: map<Id, Object>, paths: map<str, Id>) {
    && (forall o :: o in objects && objects[o].path.Some? ==>
        objects[o].path.value in paths && paths[objects[o].path.value] == o)
    && (forall p :: p in paths ==> paths[p] in objects && objects[paths[p]].path == Some(p))
  }

  ghost predicate ClientsAgree(objects: map<Id, Object>, clients: map<Id, seq<Id>>) {
    && NONE !in clients
    && (forall o :: o in objects && objects[o].client != NONE ==> objects[o].client in clients)
    && (forall c, o :: c in clients ==> (o in clients[c] <==> o in objects && objects[o].client == c))
    && (forall c :: c in clients ==> NoDup(clients[c]))
  }

  /** The owner of each object was told last whether it has subscribers. */
  ghost predicate Informed(objects: map<Id, Object>, sent: seq<Message>) {
    forall o {:trigger LastNotify(sent, o)} :: LastNotify(sent, o) == (o in objects && objects[o].subscribers != [])
  }

  /** Only the lists of subscriptions differ. */
  ghost predicate SameIdentity(a: map<Id, Object>, b: map<Id, Object>) {
    a.Keys == b.Keys
    && forall o :: o in a ==> a[o].client == b[o].client && a[o].typ == b[o].typ && a[o].path == b[o].path
  }

  lemma IdentitySelf(a: map<Id, Object>)
    ensures SameIdentity(a, a)
  {
  }

  lemma IdentityNext(a: map<Id, Object>, b: map<Id, Object>, c: map<Id, Object>)
    requires SameIdentity(a, b) && SameIdentity(b, c)
    ensures SameIdentity(a, c) && a.Keys == c.Keys
  {
  }

  lemma {:induction false} IdentityKeeps(a: map<Id, Object>, b: map<Id, Object>, types: map<Id, int>,
                                         paths: map<str, Id>, clients: map<Id, seq<Id>>)
    requires SameIdentity(a, b) && TypesAgree(a, types) && PathsAgree(a, paths) && ClientsAgree(a, clients)
    ensures TypesAgree(b, types) && PathsAgree(b, paths) && ClientsAgree(b, clients)
  {
    forall t | t in types ensures types[t] == |Users(b, t)| {
      assert Users(a, t) == Users(b, t);
    }
  }

  // ----- subscriptions -----

  ghost function AddSub(objects: map<Id, Object>, s: Id, o: Id, target: Id): map<Id, Object>
    requires o in objects && target in objects
  {
    var one := objects[target := objects[target].(subscribers := [s] + objects[target].subscribers)];
    one[o := one[o].(targets := [s] + one[o].targets)]
  }

  ghost function DropSub(objects: map<Id, Object>, s: Id, o: Id, target: Id): map<Id, Object>
    requires o in objects && target in objects
  {
    var one := objects[target := objects[target].(subscribers := Without(objects[target].subscribers, s))];
    one[o := one[o].(targets := Without(one[o].targets, s))]
  }

  lemma {:induction false} AddSubSubscribers(objects: map<Id, Object>, subs: map<Id, Subscription>, s: Id, o: Id,
                                             target: Id)
    requires SubscribersAgree(objects, subs) && s !in subs && o in objects && target in objects
    ensures SubscribersAgree(AddSub(objects, s, o, target), subs[s := Subscription(o, target)])
  {
    hide NoDup;
    PrependNoDup(objects[target].subscribers, s);
  }

  lemma {:induction false} AddSubTargets(objects: map<Id, Object>, subs: map<Id, Subscription>, s: Id, o: Id,
                                         target: Id)
    requires TargetsAgree(objects, subs) && s !in subs && o in objects && target in objects
    ensures TargetsAgree(AddSub(objects, s, o, target), subs[s := Subscription(o, target)])
  {
    hide NoDup;
    PrependNoDup(objects[o].targets, s);
  }

  lemma {:induction false} AddSubAgrees(objects: map<Id, Object>, subs: map<Id, Subscription>, s: Id, o: Id, target: Id)
    requires SubsAgree(objects, subs) && s !in subs && o in objects && target in objects
    ensures SubsAgree(AddSub(objects, s, o, target), subs[s := Subscription(o, target)])
    ensures SameIdentity(objects, AddSub(objects, s, o, target))
  {
    hide SubscribersAgree, TargetsAgree;
    AddSubSubscribers(objects, subs, s, o, target);
    AddSubTargets(objects, subs, s, o, target);
  }

  lemma {:induction false} DropSubSubscribers(objects: map<Id, Object>, subs: map<Id, Subscription>, s: Id, o: Id,
                                              target: Id)
    requires SubscribersAgree(objects, subs) && s in subs && o in objects && target in objects
             && subs[s] == Subscription(o, target)
    ensures SubscribersAgree(DropSub(objects, s, o, target), subs - {s})
  {
    hide NoDup, Without;
    WithoutNoDup(objects[target].subscribers, s);
  }

  lemma {:induction false} DropSubTargets(objects: map<Id, Object>, subs: map<Id, Subscription>, s: Id, o: Id,
                                          target: Id)
    requires TargetsAgree(objects, subs) && s in subs && o in objects && target in objects
             && subs[s] == Subscription(o, target)
    ensures TargetsAgree(DropSub(objects, s, o, target), subs - {s})
  {
    hide NoDup, Without;
    WithoutNoDup(objects[o].targets, s);
  }

  lemma {:induction false} DropSubAgrees(objects: map<Id, Object>, subs: map<Id, Subscription>, s: Id)
    requires SubsAgree(objects, subs) && s in subs
    ensures SubsAgree(DropSub(objects, s, subs[s].subscriber, subs[s].target), subs - {s})
    ensures SameIdentity(objects, DropSub(objects, s, subs[s].subscriber, subs[s].target))
  {
    hide SubscribersAgree, TargetsAgree, Without;
    DropSubSubscribers(objects, subs, s, subs[s].subscriber, subs[s].target);
    DropSubTargets(objects, subs, s, subs[s].subscriber, subs[s].target);
  }

  // ----- the daemon -----

  /** The events that ubusd_send_obj_event sends: "ubus.object.add" and "ubus.object.remove" */
  const OBJECT_ADD: str := [117, 98, 117, 115, 46, 111, 98, 106, 101, 99, 116, 46, 97, 100, 100]
  const OBJECT_REMOVE: str := [117, 98, 117, 115, 46, 111, 98, 106, 101, 99, 116, 46, 114, 101, 109, 111, 118, 101]

  /** What the names of the daemon's own events begin with: "ubus." */
  const UBUS_PREFIX: str := [117, 98, 117, 115, 46]

  /** The table of event patterns knows the same objects, with the same owners. */
  ghost predicate Tied(objects: map<Id, Object>, known: map<Id, E.Object>) {
    known.Keys == objects.Keys && forall o :: o in objects ==> known[o].client == objects[o].client
  }

  lemma {:induction false} TiedKept(a: map<Id, Object>, b: map<Id, Object>, known: map<Id, E.Object>)
    requires Tied(a, known) && SameIdentity(a, b)
    ensures Tied(b, known)
  {
    forall o | o in b ensures known[o].client == b[o].client {
      assert o in a;
    }
  }

  lemma {:induction false} TiedBy(objects: map<Id, Object>, known: map<Id, E.Object>, now: map<Id, E.Object>)
    requires Tied(objects, known) && E.Clients(now) == E.Clients(known)
    ensures Tied(objects, now)
  {
    assert E.Clients(now).Keys == now.Keys && E.Clients(known).Keys == known.Keys;
    forall o | o in objects ensures now[o].client == objects[o].client {
      assert E.Clients(now)[o] == E.Clients(known)[o];
    }
  }

  class Tables {
    const events: E.EventTable       // the pattern tree and the access control list
    var objects: map<Id, Object>
    var subs: map<Id, Subscription>
    var types: map<Id, int>
    var paths: map<str, Id>
    var clients: map<Id, seq<Id>>
    var creds: map<Id, Acl.Client>
    var sent: seq<Message>

    /** The tables of objects, subscriptions, types, paths and clients agree. */
    ghost predicate Tabled()
      reads this
    {
      && creds.Keys == clients.Keys
      && SubsAgree(objects, subs) && TypesAgree(objects, types) && PathsAgree(objects, paths)
      && ClientsAgree(objects, clients) && Informed(objects, sent)
    }

    /** So does the table of event patterns, whose sources then name live objects only. */
    ghost predicate Valid()
      reads this, events
    {
      Tabled() && events.Valid() && Tied(objects, events.objects)
    }

    /** ubusd_obj_init */
    constructor (acls: seq<Acl.Entry>)
      requires Sorted(Acl.Keys(acls))
      ensures Valid() && fresh(events) && events.acls == acls && objects == map[] && clients == map[] && sent == []
    {
      events := new E.EventTable(acls);
      objects, subs, types, paths, clients, creds, sent := map[], map[], map[], map[], map[], map[], [];
    }

    /** In every state no event pattern names an object that is gone. */
    lemma {:induction false} PatternsLive()
      requires Valid()
      ensures forall h :: h in events.sources ==> events.sources[h].obj in objects
    {
      forall h | h in events.sources ensures events.sources[h].obj in objects {
        E.LinkedHas(events.patterns, events.sources, events.objects, h);
      }
    }

    /** ubus_subscribe; s is what calloc returns. */
    method Subscribe(o: Id, target: Id, s: Id)
      requires Tabled() && s !in subs && o in objects && target in objects
      modifies `objects, `subs, `sent
      ensures Tabled() && objects == AddSub(old(objects), s, o, target)
              && subs == old(subs)[s := Subscription(o, target)]
      ensures SameIdentity(old(objects), objects)
      ensures sent == old(sent) + if old(objects)[target].subscribers == [] then [Notify(target, true)] else []
    {
      hide SubsAgree, TypesAgree, PathsAgree, ClientsAgree, LastNotify;
      AddSubAgrees(objects, subs, s, o, target);
      IdentityKeeps(objects, AddSub(objects, s, o, target), types, paths, clients);
      var first := objects[target].subscribers == [];
      subs := subs[s := Subscription(o, target)];
      objects := objects[target := objects[target].(subscribers := [s] + objects[target].subscribers)];
      objects := objects[o := objects[o].(targets := [s] + objects[o].targets)];
      if first {
        forall x
          ensures LastNotify(sent + [Notify(target, true)], x) == if x == target then true else LastNotify(sent, x) {
          LastNotifyNext(sent, Notify(target, true), x);
        }
        sent := sent + [Notify(target, true)];
      } else {
        assert sent + [] == sent;
      }
    }

    /** ubus_unsubscribe */
    method Unsubscribe(s: Id)
      requires Tabled() && s in subs
      modifies `objects, `subs, `sent
      ensures Tabled() && subs == old(subs) - {s} && SameIdentity(old(objects), objects)
      ensures old(subs)[s].subscriber in old(objects) && old(subs)[s].target in old(objects)
      ensures objects == DropSub(old(objects), s, old(subs)[s].subscriber, old(subs)[s].target)
      ensures sent == old(sent) +
                if objects[old(subs)[s].target].subscribers == [] then [Notify(old(subs)[s].target, false)] else []
    {
      hide SubsAgree, TypesAgree, PathsAgree, ClientsAgree, LastNotify, Without;
      var o, target := subs[s].subscriber, subs[s].target;
      SubEnds(objects, subs, s);
      DropSubAgrees(objects, subs, s);
      IdentityKeeps(objects, DropSub(objects, s, o, target), types, paths, clients);
      objects := objects[target := objects[target].(subscribers := Without(objects[target].subscribers, s))];
      objects := objects[o := objects[o].(targets := Without(objects[o].targets, s))];
      subs := subs - {s};
      if objects[target].subscribers == [] {
        forall x
          ensures LastNotify(sent + [Notify(target, false)], x) == if x == target then false else LastNotify(sent, x) {
          LastNotifyNext(sent, Notify(target, false), x);
        }
        sent := sent + [Notify(target, false)];
      } else {
        assert sent + [] == sent;
      }
    }

    /** ubusd_free_object: nothing refers to the object any more, all else is as it was. Its owner's
        subscriptions end, its subscribers are told, and the event about it does not go to itself. */
    method FreeObject(o: Id)
      requires Valid() && o in objects
      modifies `objects, `subs, `types, `paths, `clients, `sent
      modifies events`objects, events`patterns, events`sources, events`eventSeq, events`objEventSeq, events`sent
      ensures Valid() && objects.Keys == old(objects).Keys - {o} && clients.Keys == old(clients).Keys
      ensures forall x :: x in objects ==> SameObject(objects[x], old(objects)[x])
      ensures subs == map s | s in old(subs) && old(subs)[s].subscriber != o && old(subs)[s].target != o :: old(subs)[s]
      ensures clients == Disowned(old(clients), old(objects)[o].client, o)
      ensures old(sent) <= sent
      ensures forall s :: s in old(subs) && old(subs)[s].target == o && old(subs)[s].subscriber != o ==>
        Unsubscribed(old(subs)[s].subscriber, o) in sent[|old(sent)|..]
      ensures old(objects)[o].path.Some? ==>
                sent != [] && sent[|sent| - 1] == ObjectEvent(old(objects)[o].path.value, false)
      ensures events.sources == SourcesWithout(old(events.sources), o)
      ensures Forgotten(old(events.sent), events.sent, o)
    {
      hide SubsAgree, TypesAgree, PathsAgree, ClientsAgree, Informed, LastNotify, Without, SourcesWithout, Forgotten,
           E.EventTable.Valid, Tied, OnlyGone, Disowned;
      DropTargets(o);
      ghost var middle, between := sent, subs;
      DropSubscribers(o);
      TiedKept(old(objects), objects, events.objects);
      SuffixIn(old(sent), middle, sent);
      ghost var last := sent;
      RemoveEvents(o);
      Remove(o);
      SuffixIn(old(sent), last, sent);
      OnlyGoneAll(old(subs), between, subs, o);
    }

    /** What ubusd_free_object has to do with events */
    method RemoveEvents(o: Id)
      requires events.Valid() && o in objects && Tied(objects, events.objects)
      modifies events`objects, events`patterns, events`sources, events`eventSeq, events`objEventSeq, events`sent
      ensures events.Valid() && Tied(objects - {o}, events.objects)
      ensures events.sources == SourcesWithout(old(events.sources), o)
      ensures objects[o].path == None ==> events.sent == old(events.sent)
      ensures Forgotten(old(events.sent), events.sent, o)
    {
      hide E.EventTable.Valid, E.Expected, E.Clients, Acl.Allowed, Tied, Forgotten;
      TiedHas(objects, events.objects, o);
      events.CleanupObject(o);
      TiedBy(objects, old(events.objects), events.objects);
      TiedHas(objects, events.objects, o);
      ForgottenNone(events.sent, o);
      if objects[o].path.Some? {
        Announce(o, OBJECT_REMOVE);
      }
      TiedDrop(objects, events.objects, o);
      events.DropObject(o);
    }

    /** ubusd_send_obj_event about an object without patterns */
    method Announce(o: Id, id: str)
      requires events.Valid() && Tied(objects, events.objects)
               && (forall h :: h in events.sources ==> events.sources[h].obj != o)
      requires o in events.objects && events.objects[o].events == []
      modifies events`objects, events`eventSeq, events`objEventSeq, events`sent
      ensures events.Valid() && Tied(objects, events.objects) && Forgotten(old(events.sent), events.sent, o)
      ensures o in events.objects && events.objects[o].events == []
    {
      hide E.EventTable.Valid, E.Expected, E.Clients, Acl.Allowed, Tied;
      events.Listed();
      var st := events.SendEvent(NONE, None, id);
      AnonymousMay(events.acls, id);
      E.SameClients(old(events.objects), events.objects, o);
      TiedBy(objects, old(events.objects), events.objects);
      NotItself(E.Table(events.patterns, events.sources), id, E.Clients(events.objects), old(events.eventSeq) + 1, o);
    }

    method DropTargets(o: Id)
      requires Tabled() && o in objects
      modifies `objects, `subs, `sent
      ensures Tabled() && SameIdentity(old(objects), objects) && OnlyGone(old(subs), subs, o) && old(sent) <= sent
      ensures forall s :: s in subs ==> subs[s].subscriber != o
      ensures forall s :: s in old(subs) && old(subs)[s].subscriber != o ==> s in subs && subs[s] == old(subs)[s]
    {
      hide SubsAgree, TypesAgree, PathsAgree, ClientsAgree, Informed, LastNotify, Without, OnlyGone;
      OnlyGoneSelf(subs, o);
      while objects[o].targets != []
        invariant Tabled() && SameIdentity(old(objects), objects) && OnlyGone(old(subs), subs, o) && old(sent) <= sent
        invariant forall s :: s in old(subs) && old(subs)[s].subscriber != o ==> s in subs && subs[s] == old(subs)[s]
        decreases |subs|
      {
        FirstTarget(objects, subs, o);
        OnlyGoneNext(old(subs), subs, o, objects[o].targets[0]);
        Unsubscribe(objects[o].targets[0]);
      }
      NoTargets(objects, subs, o);
    }

    method DropSubscribers(o: Id)
      requires Tabled() && o in objects && forall s :: s in subs ==> subs[s].subscriber != o
      modifies `objects, `subs, `sent
      ensures Tabled() && SameIdentity(old(objects), objects) && OnlyGone(old(subs), subs, o) && old(sent) <= sent
      ensures forall s :: s in subs ==> subs[s].subscriber != o && subs[s].target != o
      ensures forall s :: s in old(subs) && old(subs)[s].target == o ==>
                Unsubscribed(old(subs)[s].subscriber, o) in sent[|old(sent)|..]
    {
      hide SubsAgree, TypesAgree, PathsAgree, ClientsAgree, Informed, LastNotify, Without, OnlyGone,
           SameIdentity, DropSub;
      OnlyGoneSelf(subs, o);
      IdentitySelf(objects);
      while objects[o].subscribers != []
        invariant o in objects
        invariant Tabled() && SameIdentity(old(objects), objects) && OnlyGone(old(subs), subs, o) && old(sent) <= sent
        invariant forall s :: s in subs ==> subs[s].subscriber != o && s in old(subs) && subs[s] == old(subs)[s]
        invariant forall s :: s in old(subs) && old(subs)[s].target == o ==>
                    s in subs || Unsubscribed(old(subs)[s].subscriber, o) in sent[|old(sent)|..]
        decreases |subs|
      {
        FirstSubscriber(objects, subs, o);
        var s := objects[o].subscribers[0];
        OnlyGoneNext(old(subs), subs, o, s);
        ghost var before := objects;
        InformedKept(objects, sent, Unsubscribed(subs[s].subscriber, o));
        ghost var was := sent;
        sent := sent + [Unsubscribed(subs[s].subscriber, o)];
        Unsubscribe(s);
        IdentityNext(old(objects), before, objects);
        SuffixMore(old(sent), was, Unsubscribed(old(subs)[s].subscriber, o), sent);
      }
      NoSubscribers(objects, subs, o);
    }

    /** The rest of ubusd_free_object, when no subscription is left */
    method Remove(o: Id)
      requires Tabled() && o in objects && (forall s :: s in subs ==> subs[s].subscriber != o && subs[s].target != o)
      modifies `objects, `types, `paths, `clients, `sent
      ensures Tabled() && objects == old(objects) - {o}
      ensures sent == old(sent) +
                if old(objects)[o].path.Some? then [ObjectEvent(old(objects)[o].path.value, false)] else []
      ensures clients == Disowned(old(clients), old(objects)[o].client, o)
    {
      hide SubsAgree, TypesAgree, PathsAgree, ClientsAgree, Informed, LastNotify, Without;
      var obj := objects[o];
      RemoveAgrees(objects, subs, sent, o);
      RemoveTyped(objects, types, o);
      RemovePath(objects, paths, o);
      RemoveClient(objects, clients, o);
      if obj.path.Some? {
        InformedKept(objects - {o}, sent, ObjectEvent(obj.path.value, false));
        sent := sent + [ObjectEvent(obj.path.value, false)];
        paths := paths - {obj.path.value};
      } else {
        assert sent + [] == sent;
      }
      if obj.client != NONE {
        clients := clients[obj.client := Without(clients[obj.client], o)];
      }
      objects := objects - {o};
      if obj.typ != NONE {
        UnrefType(obj.typ);
      }
    }

    /** ubus_unref_object_type */
    method UnrefType(t: Id)
      requires t in types
      modifies `types
      ensures types == Unref(old(types), t)
    {
      types := types[t := types[t] - 1];
      if types[t] > 0 {
        return;
      }
      types := types - {t};
    }

    /** ubusd_create_object_internal and the references of ubusd_create_object around it: the
        object is there, without path and owner. A type the client names may be unknown, and a
        signature may be invalid; then there is no type. */
    method CreateUntitled(named: Option<Id>, signature: Option<bool>, newType: Id, id: Id)
      requires Tabled() && id != NONE && id !in objects && newType != NONE && newType !in types
      modifies `objects, `types
      ensures Tabled()
              && objects ==
                old(objects)[id := Object(NONE, TypeFor(named, signature, newType, old(types)), None, [], [])]
    {
      hide SubsAgree, TypesAgree, PathsAgree, ClientsAgree, Informed, LastNotify;
      ghost var t := TypeFor(named, signature, newType, types);
      NewTyped(objects, types, id, t, newType);
      NewAgrees(objects, subs, paths, clients, id, t);
      NewInformed(objects, sent, id, t);
      var typ := NONE;
      if named.Some? {
        if named.value in types && named.value != NONE {
          typ := named.value;
          types := types[typ := types[typ] + 1];   // ubus_get_obj_type
        }
      } else if signature == Some(true) {
        typ := newType;
        types := types[typ := 1];                  // ubus_create_obj_type
      }
      objects := objects[id := Object(NONE, typ, None, [], [])];
      if typ != NONE {
        types := types[typ := types[typ] + 1];
        UnrefType(typ);
        assert types == old(types)[t := if t in old(types) then old(types)[t] + 1 else 1];
      }
    }

    /** ubusd_create_object: a new object of the client, or everything stays as it was. */
    method CreateObject(cl: Id, named: Option<Id>, signature: Option<bool>, newType: Id, path: Option<str>, id: Id)
        returns (ok: bool)
      requires Valid() && cl in clients && id != NONE && id !in objects && newType != NONE && newType !in types
      modifies `objects, `types, `paths, `clients, `sent
      modifies events`objects, events`patterns, events`sources, events`eventSeq, events`objEventSeq, events`sent
      ensures Valid() && clients.Keys == old(clients).Keys && events.sources == old(events.sources)
      ensures ok <==> path == None
                      || (Acl.Allowed(events.acls, Some(creds[cl]), path, [], Acl.Publish) && path.value !in old(paths))
      ensures ok ==>
                objects == old(objects)[id := Object(cl, TypeFor(named, signature, newType, old(types)), path, [], [])]
      ensures ok ==> clients == old(clients)[cl := [id] + old(clients)[cl]]
      ensures ok ==> sent == old(sent) + if path.Some? then [ObjectEvent(path.value, true)] else []
      ensures !ok ==> objects == old(objects) && types == old(types) && paths == old(paths) && clients == old(clients)
      ensures !ok ==> sent == old(sent) && events.sent == old(events.sent)
    {
      hide SubsAgree, TypesAgree, PathsAgree, ClientsAgree, Informed, LastNotify, Acl.Allowed, Without, TypeFor, Tied,
           E.EventTable.Valid;
      CreateUntitled(named, signature, newType, id);
      TiedAdd(old(objects), objects, events.objects, id);
      events.AddObject(id, NONE);
      events.Unnamed(id);
      if path.Some? {
        events.AclSorted();
        var denied := Acl.Check(events.acls, Some(creds[cl]), path, [], Acl.Publish);
        if denied != 0 || path.value in paths {
          Undo(id, old(objects), old(types), old(paths));
          return false;
        }
        Announce(id, OBJECT_ADD);
      }
      Own(cl, path, id);
      return true;
    }

    /** ubusd_free_object of a new object that was refused */
    method Undo(id: Id, ghost wasObjects: map<Id, Object>, ghost wasTypes: map<Id, int>, ghost wasPaths: map<str, Id>)
      requires Valid() && id in objects && id !in wasObjects && objects - {id} == wasObjects
      requires objects[id].client == NONE && objects[id].path == None
      requires SubsAgree(wasObjects, subs) && TypesAgree(wasObjects, wasTypes) && PathsAgree(wasObjects, wasPaths)
      requires forall h :: h in events.sources ==> events.sources[h].obj != id
      modifies `objects, `types, `paths, `clients, `sent
      modifies events`objects, events`patterns, events`sources, events`eventSeq, events`objEventSeq, events`sent
      ensures Valid() && objects == wasObjects && types == wasTypes && paths == wasPaths && clients == old(clients)
      ensures sent == old(sent) && events.sent == old(events.sent) && events.sources == old(events.sources)
    {
      hide SubsAgree, TypesAgree, PathsAgree, ClientsAgree, Informed, LastNotify, Without, Tied, E.EventTable.Valid,
           Forgotten;
      NoneYet(wasObjects, subs, id);
      RemoveEvents(id);
      assert SourcesWithout(old(events.sources), id) == old(events.sources);
      Remove(id);
      assert sent == old(sent) + [] == old(sent);
      TypesUnique(objects, wasTypes, types);
      PathsUnique(objects, wasPaths, paths);
    }

    /** A new object gets its path and its owner. */
    method Own(cl: Id, path: Option<str>, id: Id)
      requires Valid() && cl in clients && id in objects && objects[id].client == NONE && objects[id].path == None
      requires path.Some? ==> path.value !in paths
      modifies `objects, `paths, `clients, `sent, events`objects
      ensures Valid() && objects == old(objects)[id := old(objects)[id].(path := path, client := cl)]
      ensures clients == old(clients)[cl := [id] + old(clients)[cl]]
      ensures sent == old(sent) + if path.Some? then [ObjectEvent(path.value, true)] else []
    {
      hide SubsAgree, TypesAgree, PathsAgree, ClientsAgree, Informed, LastNotify, Tied, E.EventTable.Valid;
      Entitle(objects, subs, types, id, cl, path);
      EntitleListed(objects, paths, clients, sent, id, cl, path);
      TiedHas(objects, events.objects, id);
      TiedOwn(objects, events.objects, id, cl, path);
      objects := objects[id := objects[id].(path := path, client := cl)];
      if path.Some? {
        InformedKept(objects, sent, ObjectEvent(path.value, true));
        paths := paths[path.value := id];
        sent := sent + [ObjectEvent(path.value, true)];
      } else {
        assert sent + [] == sent;
      }
      events.SetClient(id, cl);
      clients := clients[cl := [id] + clients[cl]];
    }

    /** ubusd_handle_remove_object; the reply names the type if it goes with the object. */
    method RemoveObject(cl: Id, id: Option<Id>) returns (st: Status, reply: Option<Id>)
      requires Valid()
      modifies `objects, `subs, `types, `paths, `clients, `sent
      modifies events`objects, events`patterns, events`sources, events`eventSeq, events`objEventSeq, events`sent
      ensures Valid() && clients.Keys == old(clients).Keys && st == RemoveStatus(old(objects), cl, id)
      ensures objects.Keys == if st == Ok then old(objects).Keys - {id.value} else old(objects).Keys
      ensures st != Ok ==> objects == old(objects) && subs == old(subs) && reply == None
      ensures st == Ok ==>
                reply ==
                  if old(objects)[id.value].typ != NONE && old(objects)[id.value].typ !in types
                    then Some(old(objects)[id.value].typ) else None
    {
      hide SubsAgree, TypesAgree, PathsAgree, ClientsAgree, Informed, Without, Tied, E.EventTable.Valid;
      reply := None;
      if id == None {
        return InvalidArgument, reply;
      }
      if id.value !in objects {
        return NotFound, reply;
      }
      if objects[id.value].client != cl {
        return PermissionDenied, reply;
      }
      var t := objects[id.value].typ;
      LastOfType(objects, types, id.value);
      if t != NONE && types[t] == 1 {
        reply := Some(t);
      }
      FreeObject(id.value);
      TypeGone(old(objects), objects, types, id.value);
      return Ok, reply;
    }

    /** ubusd_alloc_event_pattern for a client */
    method AllocEventPattern(cl: Id, pattern: Option<str>, before: int, target: Option<Id>, h: Id)
        returns (st: E.Status)
      requires Valid() && cl in clients && h !in events.sources
      modifies events`objects, events`patterns, events`sources
      ensures Valid() && st == E.AllocStatus(events.acls, old(events.objects), cl, Some(creds[cl]), pattern, target)
      ensures st == E.Ok ==>
                events.sources ==
                  old(events.sources)[h :=
                                      E.Source(E.Stem(pattern.value), target.value, E.Starred(pattern.value, before))]
      ensures st != E.Ok ==> events.sources == old(events.sources)
    {
      hide SubsAgree, TypesAgree, PathsAgree, ClientsAgree, Informed, Tied, E.EventTable.Valid, E.AllocStatus;
      st := events.AllocEventPattern(cl, Some(creds[cl]), pattern, before, target, h);
      TiedBy(objects, old(events.objects), events.objects);
    }

    /** ubusd_forward_event: events of the daemon are not for clients to send; others go to the
        objects of other clients with a matching pattern. */
    method ForwardEvent(cl: Id, id: str) returns (st: E.Status)
      requires Valid() && cl in clients
      modifies events`objects, events`eventSeq, events`objEventSeq, events`sent
      ensures Valid() && old(events.sent) <= events.sent
      ensures var ours := [117, 98, 117, 115, 46] <= id;   // "ubus."
              st == if !ours && Acl.Allowed(events.acls, Some(creds[cl]), Some(id), [], Acl.Send) then E.Ok
                    else E.PermissionDenied
      ensures st != E.Ok ==> events.sent == old(events.sent)
      ensures ToOwners(events.sent[|old(events.sent)|..], objects, cl)
    {
      hide SubsAgree, TypesAgree, PathsAgree, ClientsAgree, Informed, Tied, E.EventTable.Valid, E.Expected, E.Clients,
           Acl.Allowed;
      if UBUS_PREFIX <= id {
        return E.PermissionDenied;
      }
      events.Listed();
      st := events.SendEvent(cl, Some(creds[cl]), id);
      E.SameClients(old(events.objects), events.objects, 0);
      TiedBy(objects, old(events.objects), events.objects);
      ToOthers(E.Table(events.patterns, events.sources), id, cl, objects, events.objects, old(events.eventSeq) + 1);
      assert st == E.Ok ==>
               events.sent[|old(events.sent)|..] ==
                 E.Expected(E.Table(events.patterns, events.sources), id, cl, E.Clients(events.objects),
                            old(events.eventSeq) + 1);
    }

    /** ubusd_handle_add_watch; s is what calloc returns. */
    method AddWatch(cl: Id, id: Option<Id>, target: Option<Id>, s: Id) returns (st: Status)
      requires Valid() && cl in clients && s !in subs
      modifies `objects, `subs, `sent
      ensures Valid() && st == WatchStatus(events.acls, old(objects), creds, cl, id, target)
      ensures st == Ok ==>
                subs == old(subs)[s := Subscription(id.value, target.value)]
                && objects == AddSub(old(objects), s, id.value, target.value)
      ensures st != Ok ==> subs == old(subs) && objects == old(objects) && sent == old(sent)
    {
      hide SubsAgree, TypesAgree, PathsAgree, Informed, Acl.Allowed, LastNotify, Tied, E.EventTable.Valid;
      if id == None || target == None {
        return InvalidArgument;
      }
      if id.value !in objects {
        return NotFound;
      }
      if objects[id.value].client != cl {
        return InvalidArgument;
      }
      if target.value !in objects || objects[target.value].client == NONE {
        return NotFound;
      }
      var t := objects[target.value];
      if t.client == cl {
        return InvalidArgument;
      }
      if t.path == None {
        if creds[t.client].user != creds[cl].user && creds[t.client].group != creds[cl].group {
          return NotFound;
        }
      } else {
        events.AclSorted();
        var denied := Acl.Check(events.acls, Some(creds[cl]), t.path, [], Acl.Subscribe);
        if denied != 0 {
          return NotFound;
        }
      }
      Subscribe(id.value, target.value, s);
      TiedKept(old(objects), objects, events.objects);
      return Ok;
    }

    /** ubusd_handle_remove_watch: one subscription of the object to the target ends. */
    method RemoveWatch(cl: Id, id: Option<Id>, target: Option<Id>) returns (st: Status)
      requires Valid()
      modifies `objects, `subs, `sent
      ensures Valid() && SameIdentity(old(objects), objects)
      ensures id == None || target == None ==> st == InvalidArgument
      ensures id.Some? && target.Some? && id.value !in objects ==> st == NotFound
      ensures id.Some? && target.Some? && id.value in objects && objects[id.value].client != cl ==>
                st == InvalidArgument
      ensures id.Some? && target.Some? && id.value in objects && objects[id.value].client == cl ==>
        st == if exists s :: s in old(subs) && old(subs)[s] == Subscription(id.value, target.value) then Ok
          else NotFound
      ensures st == Ok ==>
                exists s ::
                  s in old(subs) && old(subs)[s] == Subscription(id.value, target.value) && subs == old(subs) - {s}
      ensures st != Ok ==> subs == old(subs)
    {
      hide SubsAgree, TypesAgree, PathsAgree, ClientsAgree, Informed, LastNotify, Tied, E.EventTable.Valid;
      if id == None || target == None {
        return InvalidArgument;
      }
      if id.value !in objects {
        return NotFound;
      }
      if objects[id.value].client != cl {
        return InvalidArgument;
      }
      var list := objects[id.value].targets;
      OwnTargets(objects, subs, id.value);
      var i := 0;
      while i < |list|
        invariant 0 <= i <= |list| && forall j :: 0 <= j < i ==> subs[list[j]].target != target.value
      {
        if subs[list[i]].target == target.value {
          assert subs[list[i]] == Subscription(id.value, target.value);
          Unsubscribe(list[i]);
          TiedKept(old(objects), objects, events.objects);
          return Ok;
        }
        i := i + 1;
      }
      return NotFound;
    }

    /** ubusd_proto_new_client */
    method NewClient(cl: Id, cred: Acl.Client)
      requires Valid() && cl != NONE && cl !in clients
      modifies `clients, `creds
      ensures Valid() && clients == old(clients)[cl := []] && creds == old(creds)[cl := cred]
    {
      hide SubsAgree, TypesAgree, PathsAgree, ClientsAgree, Informed, LastNotify, Tied, E.EventTable.Valid;
      ClientComes(objects, clients, cl);
      clients := clients[cl := []];
      creds := creds[cl := cred];
    }

    /** ubusd_proto_free_client: the client, its objects and all that referred to them are gone,
        and nothing else. */
    method FreeClient(cl: Id)
      requires Valid() && cl in clients
      modifies `objects, `subs, `types, `paths, `clients, `creds, `sent
      modifies events`objects, events`patterns, events`sources, events`eventSeq, events`objEventSeq, events`sent
      ensures Valid() && clients.Keys == old(clients).Keys - {cl}
      ensures objects.Keys == set o | o in old(objects) && old(objects)[o].client != cl
      ensures forall o :: o in objects ==> SameObject(objects[o], old(objects)[o])
      ensures forall s :: s in subs ==>
                s in old(subs) && subs[s] == old(subs)[s] && subs[s].subscriber in objects && subs[s].target in objects
      ensures forall s :: s in old(subs) && old(subs)[s].subscriber in objects && old(subs)[s].target in objects ==>
                s in subs
      ensures PatternsOf(old(events.sources), events.sources, objects)
    {
      hide SubsAgree, TypesAgree, PathsAgree, ClientsAgree, Informed, LastNotify, Without, Pruned, PatternsOf, Tied,
           E.EventTable.Valid;
      FreeObjects(cl);
      ClientGone(objects, clients, cl);
      LiveSubs(objects, subs);
      PrunedMeans(old(objects), old(subs), objects, subs, cl);
      clients := clients - {cl};
      creds := creds - {cl};
    }

    method FreeObjects(cl: Id)
      requires Valid() && cl in clients
      modifies `objects, `subs, `types, `paths, `clients, `sent
      modifies events`objects, events`patterns, events`sources, events`eventSeq, events`objEventSeq, events`sent
      ensures Valid() && clients.Keys == old(clients).Keys && clients[cl] == []
      ensures Pruned(old(objects), old(subs), objects, subs, cl)
              && PatternsOf(old(events.sources), events.sources, objects)
    {
      hide SubsAgree, TypesAgree, PathsAgree, ClientsAgree, Informed, LastNotify, Without, Pruned, SameObject,
           PatternsOf, Tied, E.EventTable.Valid, SourcesWithout, Forgotten, Disowned;
      PrunedSelf(objects, subs, cl);
      PatternsLive();
      PatternsSelf(events.sources, objects);
      while clients[cl] != []
        invariant Valid() && clients.Keys == old(clients).Keys && Pruned(old(objects), old(subs), objects, subs, cl)
        invariant PatternsOf(old(events.sources), events.sources, objects)
        decreases |objects.Keys|
      {
        var o := clients[cl][0];
        FirstOwned(objects, clients, cl);
        ghost var was, wasSubs, wasSources := objects, subs, events.sources;
        DisownedKeys(clients, objects[o].client, o);
        FreeObject(o);
        PatternsNext(old(events.sources), wasSources, was, events.sources, objects, o);
        PrunedNext(old(objects), old(subs), was, wasSubs, objects, subs, cl, o);
        assert objects.Keys == was.Keys - {o};
      }
    }
  }

  ghost function Disowned(clients: map<Id, seq<Id>>, cl: Id, o: Id): map<Id, seq<Id>> {
    if cl == NONE || cl !in clients then clients else clients[cl := Without(clients[cl], o)]
  }

  lemma {:induction false} DisownedKeys(clients: map<Id, seq<Id>>, cl: Id, o: Id)
    ensures Disowned(clients, cl, o).Keys == clients.Keys
  {
  }

  ghost function SourcesWithout(sources: map<Id, E.Source>, o: Id): map<Id, E.Source> {
    map h | h in sources && sources[h].obj != o :: sources[h]
  }

  /** Nothing was sent to o. */
  ghost predicate Forgotten(was: seq<E.Delivery>, now: seq<E.Delivery>, o: Id) {
    was <= now && forall i :: |was| <= i < |now| ==> now[i].obj != o
  }

  lemma {:induction false} ForgottenNone(sent: seq<E.Delivery>, o: Id)
    ensures Forgotten(sent, sent, o)
  {
  }

  lemma {:induction false} AnonymousMay(acls: seq<Acl.Entry>, id: str)
    ensures Acl.Allowed(acls, None, Some(id), [], Acl.Send)
  {
  }

  /** An event does not go to an object that no pattern names. */
  lemma {:induction false} NotItself(ps: seq<E.Source>, id: str, clientOf: map<Id, Id>, seqno: int, o: Id)
    requires forall i :: 0 <= i < |ps| ==> ps[i].obj != o
    ensures forall i :: 0 <= i < |E.Expected(ps, id, NONE, clientOf, seqno)| ==>
              E.Expected(ps, id, NONE, clientOf, seqno)[i].obj != o
  {
    E.ReceiversAre(ps, id, NONE, clientOf);
    E.ReceiversKnown(ps, id, NONE, clientOf);
    var r := E.Receivers(ps, id, NONE, clientOf);
    forall i | 0 <= i < |E.Expected(ps, id, NONE, clientOf, seqno)|
      ensures E.Expected(ps, id, NONE, clientOf, seqno)[i].obj != o {
      assert E.Expected(ps, id, NONE, clientOf, seqno)[i].obj == r[i] && r[i] in r;
    }
  }

  /** Messages for live objects, to their owners, of which the sender is none */
  ghost predicate ToOwners(sent: seq<E.Delivery>, objects: map<Id, Object>, cl: Id) {
    forall i :: 0 <= i < |sent| ==> sent[i].obj in objects && objects[sent[i].obj].client == sent[i].client != cl
  }

  /** It goes to objects of other clients. */
  lemma {:induction false} ToOthers(ps: seq<E.Source>, id: str, cl: Id, objects: map<Id, Object>,
                                    known: map<Id, E.Object>, seqno: int)
    requires Tied(objects, known)
    ensures ToOwners(E.Expected(ps, id, cl, E.Clients(known), seqno), objects, cl)
  {
    var clientOf := E.Clients(known);
    E.ReceiversAre(ps, id, cl, clientOf);
    E.ReceiversKnown(ps, id, cl, clientOf);
    var r, x := E.Receivers(ps, id, cl, clientOf), E.Expected(ps, id, cl, clientOf, seqno);
    forall i | 0 <= i < |x| ensures x[i].obj in objects && objects[x[i].obj].client == x[i].client != cl {
      assert x[i].obj == r[i] && r[i] in r;
      var k :| 0 <= k < |ps| && ps[k].obj == r[i] && E.Wants(ps[k], id, cl, clientOf);
    }
  }

  /** Exactly the sources of objects that are still there are still there. */
  ghost predicate PatternsOf(was: map<Id, E.Source>, now: map<Id, E.Source>, objects: map<Id, Object>) {
    && (forall h :: h in now ==> h in was && now[h] == was[h] && now[h].obj in objects)
    && (forall h :: h in was && was[h].obj in objects ==> h in now)
  }

  lemma {:induction false} PatternsSelf(sources: map<Id, E.Source>, objects: map<Id, Object>)
    requires forall h :: h in sources ==> sources[h].obj in objects
    ensures PatternsOf(sources, sources, objects)
  {
  }

  lemma {:induction false} PatternsNext(was: map<Id, E.Source>, a: map<Id, E.Source>, aObjects: map<Id, Object>,
                                        b: map<Id, E.Source>, bObjects: map<Id, Object>, o: Id)
    requires PatternsOf(was, a, aObjects) && b == SourcesWithout(a, o) && bObjects.Keys == aObjects.Keys - {o}
    ensures PatternsOf(was, b, bObjects)
  {
    assert forall x :: x in bObjects <==> x in aObjects && x != o;
  }

  lemma {:induction false} SuffixIn(a: seq<Message>, b: seq<Message>, c: seq<Message>)
    requires a <= b <= c
    ensures forall x :: x in b[|a|..] || x in c[|b|..] ==> x in c[|a|..]
  {
    assert c[|a|..] == b[|a|..] + c[|b|..];
  }

  lemma {:induction false} SuffixMore(a: seq<Message>, b: seq<Message>, m: Message, c: seq<Message>)
    requires a <= b && b + [m] <= c
    ensures m in c[|a|..] && forall x :: x in b[|a|..] ==> x in c[|a|..]
  {
    assert c[|b|] == m;
    assert c[|a|..][|b| - |a|] == m;
    SuffixIn(a, b, c);
  }

  lemma {:induction false} TiedHas(objects: map<Id, Object>, known: map<Id, E.Object>, o: Id)
    requires Tied(objects, known)
    ensures o in objects <==> o in known
  {
  }

  lemma {:induction false} TiedDrop(objects: map<Id, Object>, known: map<Id, E.Object>, o: Id)
    requires Tied(objects, known)
    ensures Tied(objects - {o}, known - {o})
  {
  }

  lemma {:induction false} TiedAdd(was: map<Id, Object>, now: map<Id, Object>, known: map<Id, E.Object>, o: Id)
    requires Tied(was, known) && o !in was && o in now && now[o].client == NONE && now - {o} == was
    ensures o !in known && Tied(now, known[o := E.Object(NONE, 0, [])])
  {
    forall x | x in now && x != o ensures x in was && was[x] == now[x] {
      assert x in now - {o};
    }
    forall x | x in was ensures x in now {
      assert x in now - {o};
    }
  }

  lemma {:induction false} TiedOwn(objects: map<Id, Object>, known: map<Id, E.Object>, o: Id, cl: Id, path: Option<str>)
    requires Tied(objects, known) && o in objects && o in known
    ensures Tied(objects[o := objects[o].(path := path, client := cl)], known[o := known[o].(client := cl)])
  {
  }

  ghost function RemoveStatus(objects: map<Id, Object>, cl: Id, id: Option<Id>): Status {
    if id == None then InvalidArgument
    else if id.value !in objects then NotFound
    else if objects[id.value].client != cl then PermissionDenied
    else Ok
  }

  lemma {:induction false} LastOfType(objects: map<Id, Object>, types: map<Id, int>, o: Id)
    requires TypesAgree(objects, types) && o in objects
    ensures objects[o].typ != NONE ==>
              objects[o].typ in types && (types[objects[o].typ] == 1 <==> Users(objects, objects[o].typ) == {o})
  {
    var t := objects[o].typ;
    if t != NONE {
      var u := Users(objects, t);
      assert o in u;
      if |u| == 1 {
        assert |u - {o}| == 0;
        assert u == {o};
      }
    }
  }

  lemma {:induction false} TypeGone(was: map<Id, Object>, now: map<Id, Object>, types: map<Id, int>, o: Id)
    requires TypesAgree(now, types) && o in was && now.Keys == was.Keys - {o}
             && forall x :: x in now ==> SameObject(now[x], was[x])
    ensures was[o].typ != NONE ==> (was[o].typ !in types <==> Users(was, was[o].typ) == {o})
  {
    var t := was[o].typ;
    assert forall x :: x in now <==> x in was && x != o;
    if t != NONE {
      assert Users(now, t) == Users(was, t) - {o};
      if t in types {
        assert Users(now, t) != {};
      } else {
        assert forall x :: x in now ==> now[x].typ != t;
      }
      assert o in Users(was, t);
      if Users(was, t) - {o} == {} { assert Users(was, t) == {o}; }
    }
  }

  /** Objects of the client, and subscriptions from or to them, are all that is missing. */
  ghost predicate Pruned(wasObjects: map<Id, Object>, wasSubs: map<Id, Subscription>, objects: map<Id, Object>,
                         subs: map<Id, Subscription>, cl: Id) {
    && (forall o :: o in objects ==> o in wasObjects && SameObject(objects[o], wasObjects[o]))
    && (forall o :: o in wasObjects && wasObjects[o].client != cl ==> o in objects)
    && (forall s :: s in subs ==> s in wasSubs && subs[s] == wasSubs[s])
    && (forall s :: s in wasSubs && wasSubs[s].subscriber in objects && wasSubs[s].target in objects ==> s in subs)
  }

  ghost predicate SameObject(a: Object, b: Object) { a.client == b.client && a.typ == b.typ && a.path == b.path }

  lemma {:induction false} PrunedSelf(objects: map<Id, Object>, subs: map<Id, Subscription>, cl: Id)
    ensures Pruned(objects, subs, objects, subs, cl)
  {
  }

  lemma {:induction false} PrunedNext(wasObjects: map<Id, Object>, wasSubs: map<Id, Subscription>, a: map<Id, Object>,
                                      aSubs: map<Id, Subscription>, b: map<Id, Object>, bSubs: map<Id, Subscription>,
                                      cl: Id, o: Id)
    requires Pruned(wasObjects, wasSubs, a, aSubs, cl) && o in a && a[o].client == cl && b.Keys == a.Keys - {o}
    requires forall x :: x in b ==> SameObject(b[x], a[x])
    requires bSubs == map s | s in aSubs && aSubs[s].subscriber != o && aSubs[s].target != o :: aSubs[s]
    ensures Pruned(wasObjects, wasSubs, b, bSubs, cl)
  {
    forall x | x in b ensures x in wasObjects && SameObject(b[x], wasObjects[x]) {
      assert x in a;
    }
    forall x | x in wasObjects && wasObjects[x].client != cl ensures x in b {
      assert x in a;
    }
  }

  lemma {:induction false} PrunedMeans(wasObjects: map<Id, Object>, wasSubs: map<Id, Subscription>,
                                       objects: map<Id, Object>, subs: map<Id, Subscription>, cl: Id)
    requires Pruned(wasObjects, wasSubs, objects, subs, cl) && forall o :: o in objects ==> objects[o].client != cl
    ensures objects.Keys == set o | o in wasObjects && wasObjects[o].client != cl
    ensures forall o :: o in objects ==> SameObject(objects[o], wasObjects[o])
    ensures forall s :: s in subs ==> s in wasSubs && subs[s] == wasSubs[s]
    ensures forall s :: s in wasSubs && wasSubs[s].subscriber in objects && wasSubs[s].target in objects ==> s in subs
  {
  }

  lemma {:induction false} FirstOwned(objects: map<Id, Object>, clients: map<Id, seq<Id>>, cl: Id)
    requires ClientsAgree(objects, clients) && cl in clients && clients[cl] != []
    ensures clients[cl][0] in objects && objects[clients[cl][0]].client == cl
  {
    assert clients[cl][0] in clients[cl];
  }

  lemma {:induction false} ClientGone(objects: map<Id, Object>, clients: map<Id, seq<Id>>, cl: Id)
    requires ClientsAgree(objects, clients) && cl in clients && clients[cl] == []
    ensures ClientsAgree(objects, clients - {cl}) && forall o :: o in objects ==> objects[o].client != cl
  {
    forall o | o in objects ensures objects[o].client != cl {
      assert o in clients[cl] <==> o in objects && objects[o].client == cl;
    }
  }

  lemma {:induction false} ClientComes(objects: map<Id, Object>, clients: map<Id, seq<Id>>, cl: Id)
    requires ClientsAgree(objects, clients) && cl !in clients && cl != NONE
    ensures ClientsAgree(objects, clients[cl := []])
  {
  }

  ghost function WatchStatus(acls: seq<Acl.Entry>, objects: map<Id, Object>, creds: map<Id, Acl.Client>, cl: Id,
                             id: Option<Id>, target: Option<Id>): Status {
    if id == None || target == None then InvalidArgument
    else if id.value !in objects then NotFound
    else if objects[id.value].client != cl then InvalidArgument
    else if target.value !in objects || objects[target.value].client == NONE then NotFound
    else if objects[target.value].client == cl then InvalidArgument
    else if MayWatch(acls, objects[target.value], creds, cl) then Ok else NotFound
  }

  /** A target without a path is for clients with its owner's user or group, others are subject
      to access control. */
  ghost predicate MayWatch(acls: seq<Acl.Entry>, t: Object, creds: map<Id, Acl.Client>, cl: Id) {
    && cl in creds && t.client in creds
    && if t.path == None then creds[t.client].user == creds[cl].user || creds[t.client].group == creds[cl].group
       else Acl.Allowed(acls, Some(creds[cl]), t.path, [], Acl.Subscribe)
  }

  lemma {:induction false} OwnTargets(objects: map<Id, Object>, subs: map<Id, Subscription>, o: Id)
    requires SubsAgree(objects, subs) && o in objects
    ensures forall i :: 0 <= i < |objects[o].targets| ==>
              objects[o].targets[i] in subs && subs[objects[o].targets[i]].subscriber == o
    ensures forall s :: s in subs && subs[s].subscriber == o ==> s in objects[o].targets
  {
    forall i | 0 <= i < |objects[o].targets|
      ensures objects[o].targets[i] in subs && subs[objects[o].targets[i]].subscriber == o {
      assert objects[o].targets[i] in objects[o].targets;
    }
  }

  lemma {:induction false} LiveSubs(objects: map<Id, Object>, subs: map<Id, Subscription>)
    requires SubsAgree(objects, subs)
    ensures forall s :: s in subs ==> subs[s].subscriber in objects && subs[s].target in objects
  {
  }

  lemma {:induction false} NoneYet(objects: map<Id, Object>, subs: map<Id, Subscription>, id: Id)
    requires SubsAgree(objects, subs) && id !in objects
    ensures forall s :: s in subs ==> subs[s].subscriber != id && subs[s].target != id
  {
  }

  /** Giving a new object a path and an owner */
  lemma {:induction false} Entitle(objects: map<Id, Object>, subs: map<Id, Subscription>, types: map<Id, int>, id: Id,
                                   cl: Id, path: Option<str>)
    requires SubsAgree(objects, subs) && TypesAgree(objects, types) && id in objects
    ensures var now := objects[id := objects[id].(path := path, client := cl)];
              SubsAgree(now, subs) && TypesAgree(now, types)
  {
    hide NoDup;
    var now := objects[id := objects[id].(path := path, client := cl)];
    forall t | t in types ensures |Users(now, t)| == types[t] {
      assert Users(now, t) == Users(objects, t);
    }
  }

  lemma {:induction false} EntitleListed(objects: map<Id, Object>, paths: map<str, Id>, clients: map<Id, seq<Id>>,
                                         sent: seq<Message>, id: Id, cl: Id, path: Option<str>)
    requires PathsAgree(objects, paths) && ClientsAgree(objects, clients) && Informed(objects, sent)
    requires id in objects && objects[id].client == NONE && objects[id].path == None && cl in clients
    requires path.Some? ==> path.value !in paths
    ensures var now := objects[id := objects[id].(path := path, client := cl)];
      && PathsAgree(now, if path.Some? then paths[path.value := id] else paths)
      && ClientsAgree(now, clients[cl := [id] + clients[cl]]) && Informed(now, sent)
  {
    hide LastNotify, NoDup;
    assert id !in clients[cl];
    PrependNoDup(clients[cl], id);
    var now := objects[id := objects[id].(path := path, client := cl)];
    forall x ensures LastNotify(sent, x) == (x in now && now[x].subscribers != []) {
      assert LastNotify(sent, x) == (x in objects && objects[x].subscribers != []);
    }
  }

  ghost function TypeFor(named: Option<Id>, signature: Option<bool>, newType: Id, types: map<Id, int>): Id {
    if named.Some? then (if named.value in types && named.value != NONE then named.value else NONE)
    else if signature == Some(true) then newType else NONE
  }

  lemma {:induction false} NewTyped(objects: map<Id, Object>, types: map<Id, int>, id: Id, t: Id, newType: Id)
    requires TypesAgree(objects, types) && id !in objects && newType !in types
             && (t in types || t == newType || t == NONE)
    ensures TypesAgree(objects[id := Object(NONE, t, None, [], [])],
                       if t == NONE then types else types[t := if t in types then types[t] + 1 else 1])
    ensures t in types ==> types[t] > 0
  {
    var now := objects[id := Object(NONE, t, None, [], [])];
    forall u ensures |Users(now, u)| == |Users(objects, u)| + if u == t then 1 else 0 {
      if u == t {
        assert Users(now, u) == Users(objects, u) + {id};
      } else {
        assert Users(now, u) == Users(objects, u);
      }
    }
    if t != NONE && t !in types {
      assert Users(objects, t) == {};
    }
  }

  lemma {:induction false} NewAgrees(objects: map<Id, Object>, subs: map<Id, Subscription>, paths: map<str, Id>,
                                     clients: map<Id, seq<Id>>, id: Id, t: Id)
    requires SubsAgree(objects, subs) && PathsAgree(objects, paths) && ClientsAgree(objects, clients) && id !in objects
    ensures var now := objects[id := Object(NONE, t, None, [], [])];
      SubsAgree(now, subs) && PathsAgree(now, paths) && ClientsAgree(now, clients)
  {
  }

  lemma {:induction false} NewInformed(objects: map<Id, Object>, sent: seq<Message>, id: Id, t: Id)
    requires Informed(objects, sent) && id !in objects
    ensures Informed(objects[id := Object(NONE, t, None, [], [])], sent)
  {
    hide LastNotify;
    var now := objects[id := Object(NONE, t, None, [], [])];
    forall x ensures LastNotify(sent, x) == (x in now && now[x].subscribers != []) {
      assert LastNotify(sent, x) == (x in objects && objects[x].subscribers != []);
    }
  }

  lemma {:induction false} TypesUnique(objects: map<Id, Object>, a: map<Id, int>, b: map<Id, int>)
    requires TypesAgree(objects, a) && TypesAgree(objects, b)
    ensures a == b
  {
    forall t ensures t in a <==> t in b {
      if t in a {
        var o :| o in Users(objects, t);
        assert objects[o].typ in b;
      }
      if t in b {
        var o :| o in Users(objects, t);
        assert objects[o].typ in a;
      }
    }
  }

  lemma {:induction false} PathsUnique(objects: map<Id, Object>, a: map<str, Id>, b: map<str, Id>)
    requires PathsAgree(objects, a) && PathsAgree(objects, b)
    ensures a == b
  {
    forall p ensures p in a <==> p in b {
      if p in a { assert objects[a[p]].path == Some(p); }
      if p in b { assert objects[b[p]].path == Some(p); }
    }
    forall p | p in a ensures a[p] == b[p] {
      assert objects[a[p]].path == Some(p);
    }
  }

  /** ubus_unref_object_type */
  ghost function Unref(types: map<Id, int>, t: Id): map<Id, int>
    requires t in types
  {
    if types[t] - 1 > 0 then types[t := types[t] - 1] else types - {t}
  }

  /** Of the subscriptions only some that have to do with o are gone. */
  ghost predicate OnlyGone(was: map<Id, Subscription>, now: map<Id, Subscription>, o: Id) {
    && (forall s :: s in now ==> s in was && now[s] == was[s])
    && (forall s :: s in was && was[s].subscriber != o && was[s].target != o ==> s in now)
  }

  lemma {:induction false} OnlyGoneSelf(subs: map<Id, Subscription>, o: Id)
    ensures OnlyGone(subs, subs, o)
  {
  }

  lemma {:induction false} OnlyGoneAll(was: map<Id, Subscription>, mid: map<Id, Subscription>,
                                       now: map<Id, Subscription>, o: Id)
    requires OnlyGone(was, mid, o) && OnlyGone(mid, now, o)
             && forall s :: s in now ==> now[s].subscriber != o && now[s].target != o
    ensures now == map s | s in was && was[s].subscriber != o && was[s].target != o :: was[s]
  {
  }

  lemma {:induction false} OnlyGoneNext(was: map<Id, Subscription>, now: map<Id, Subscription>, o: Id, s: Id)
    requires OnlyGone(was, now, o) && s in now && (now[s].subscriber == o || now[s].target == o)
    ensures OnlyGone(was, now - {s}, o)
  {
  }

  lemma {:induction false} FirstTarget(objects: map<Id, Object>, subs: map<Id, Subscription>, o: Id)
    requires SubsAgree(objects, subs) && o in objects && objects[o].targets != []
    ensures var s := objects[o].targets[0]; s in subs && subs[s].subscriber == o
  {
    assert objects[o].targets[0] in objects[o].targets;
  }

  lemma {:induction false} FirstSubscriber(objects: map<Id, Object>, subs: map<Id, Subscription>, o: Id)
    requires SubsAgree(objects, subs) && o in objects && objects[o].subscribers != []
    ensures var s := objects[o].subscribers[0]; s in subs && subs[s].target == o
  {
    assert objects[o].subscribers[0] in objects[o].subscribers;
  }

  lemma {:induction false} NoTargets(objects: map<Id, Object>, subs: map<Id, Subscription>, o: Id)
    requires SubsAgree(objects, subs) && o in objects && objects[o].targets == []
    ensures forall s :: s in subs ==> subs[s].subscriber != o
  {
    forall s | s in subs ensures subs[s].subscriber != o {
      assert s in objects[o].targets <==> s in subs && subs[s].subscriber == o;
    }
  }

  lemma {:induction false} NoSubscribers(objects: map<Id, Object>, subs: map<Id, Subscription>, o: Id)
    requires SubsAgree(objects, subs) && o in objects && objects[o].subscribers == []
    ensures forall s :: s in subs ==> subs[s].target != o
  {
    forall s | s in subs ensures subs[s].target != o {
      assert s in objects[o].subscribers <==> s in subs && subs[s].target == o;
    }
  }

  lemma {:induction false} InformedKept(objects: map<Id, Object>, sent: seq<Message>, m: Message)
    requires Informed(objects, sent) && !m.Notify?
    ensures Informed(objects, sent + [m])
  {
    forall o ensures LastNotify(sent + [m], o) == LastNotify(sent, o) {
      LastNotifyNext(sent, m, o);
    }
  }

  lemma {:induction false} RemoveAgrees(objects: map<Id, Object>, subs: map<Id, Subscription>, sent: seq<Message>,
                                        o: Id)
    requires SubsAgree(objects, subs) && Informed(objects, sent) && o in objects
    requires forall s :: s in subs ==> subs[s].subscriber != o && subs[s].target != o
    ensures SubsAgree(objects - {o}, subs) && Informed(objects - {o}, sent)
  {
    hide LastNotify;
    if objects[o].subscribers != [] {
      FirstSubscriber(objects, subs, o);
    }
    var now := objects - {o};
    forall x ensures LastNotify(sent, x) == (x in now && now[x].subscribers != []) {
      assert LastNotify(sent, x) == (x in objects && objects[x].subscribers != []);
    }
  }

  lemma {:induction false} RemoveTyped(objects: map<Id, Object>, types: map<Id, int>, o: Id)
    requires TypesAgree(objects, types) && o in objects
    ensures objects[o].typ != NONE ==> objects[o].typ in types
    ensures TypesAgree(objects - {o}, if objects[o].typ != NONE then Unref(types, objects[o].typ) else types)
  {
    var t, now := objects[o].typ, objects - {o};
    forall u | u in types ensures |Users(now, u)| == types[u] - if u == t then 1 else 0 {
      if u == t {
        assert Users(objects, u) == Users(now, u) + {o};
      } else {
        assert Users(objects, u) == Users(now, u);
      }
    }
    forall x | x in now && now[x].typ == t && t != NONE ensures types[t] - 1 > 0 {
      assert x in Users(now, t);
    }
  }

  lemma {:induction false} RemovePath(objects: map<Id, Object>, paths: map<str, Id>, o: Id)
    requires PathsAgree(objects, paths) && o in objects
    ensures PathsAgree(objects - {o}, if objects[o].path.Some? then paths - {objects[o].path.value} else paths)
  {
  }

  lemma {:induction false} RemoveClient(objects: map<Id, Object>, clients: map<Id, seq<Id>>, o: Id)
    requires ClientsAgree(objects, clients) && o in objects
    ensures objects[o].client != NONE ==> objects[o].client in clients
    ensures ClientsAgree(objects - {o},
                         if objects[o].client != NONE
                           then clients[objects[o].client := Without(clients[objects[o].client], o)] else clients)
  {
    if objects[o].client != NONE {
      WithoutNoDup(clients[objects[o].client], o);
    }
  }

  lemma {:induction false} SubEnds(objects: map<Id, Object>, subs: map<Id, Subscription>, s: Id)
    requires SubsAgree(objects, subs) && s in subs
    ensures subs[s].subscriber in objects && subs[s].target in objects
    ensures objects[subs[s].target].subscribers != []
  {
    assert s in objects[subs[s].target].subscribers;
  }
}
