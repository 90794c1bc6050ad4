/** runqueue.c: a queue that runs at most so many tasks at a time. The callbacks of tasks may call
    any operation of the queue, so what the source does around a callback is split into the
    steps before and after it; steps of different calls interleave in any way. */
module Runqueue {
  import opened Basics
  import L = Lists
  import S = SafeList

  /** struct runqueue_task; timeout tells whether its timer is pending. */
  datatype Task = Task(queued: bool, running: bool, cancelled: bool, timeout: bool)

  /** The timer of the queue: not pending, or pending with one of its two callbacks */
  datatype Alarm = Off | StartNext | Empty

  datatype Step = Nothing | Call | Complete

  // ----- tasks and lists -----

  lemma {:induction false} WithoutNone(active: seq<Ptr>, inactive: seq<Ptr>, t: Ptr)
    ensures active == [] ==> Without(active, t) == []
    ensures inactive == [] ==> Without(inactive, t) == []
    ensures Without(inactive, t) != [] ==> inactive != []
  {
  }

  /** The lists and the flags of the tasks agree. */
  ghost predicate ListsAgree(active: seq<Ptr>, inactive: seq<Ptr>, tasks: map<Ptr, Task>) {
    && NoDup(active) && NoDup(inactive)
    && (forall t :: t in active ==> t in tasks) && (forall t :: t in inactive ==> t in tasks)
    && (forall t :: t in tasks ==> (tasks[t].running <==> t in active))
    && (forall t :: t in tasks ==> (tasks[t].queued <==> t in active || t in inactive))
    && (forall t :: t in active ==> t !in inactive)
    && (forall t :: t in tasks && (tasks[t].timeout || tasks[t].cancelled) ==> tasks[t].running)
  }

  /** list_add and list_add_tail */
  function Added(s: seq<Ptr>, t: Ptr, first: bool): seq<Ptr> { if first then [t] + s else s + [t] }

  lemma {:induction false} AddedNoDup(s: seq<Ptr>, t: Ptr, first: bool)
    requires NoDup(s) && t !in s
    ensures NoDup(Added(s, t, first)) && |Added(s, t, first)| == |s| + 1
            && forall x :: x in Added(s, t, first) <==> x in s || x == t
  {
  }

  lemma {:induction false} AddAgrees(active: seq<Ptr>, inactive: seq<Ptr>, tasks: map<Ptr, Task>, t: Ptr,
                                     running: bool, first: bool)
    requires ListsAgree(active, inactive, tasks) && t in tasks && !tasks[t].queued
    ensures ListsAgree(if running then Added(active, t, first) else active,
                       if running then inactive else Added(inactive, t, first),
                       tasks[t := tasks[t].(queued := true, running := running, cancelled := false)])
    ensures |Added(active, t, first)| == |active| + 1
  {
    hide NoDup, Added;
    AddedNoDup(active, t, first);
    AddedNoDup(inactive, t, first);
  }

  lemma {:induction false} RemoveAgrees(active: seq<Ptr>, inactive: seq<Ptr>, tasks: map<Ptr, Task>, t: Ptr)
    requires ListsAgree(active, inactive, tasks) && t in tasks
    ensures ListsAgree(Without(active, t), Without(inactive, t), tasks[t := Task(false, false, false, false)])
    ensures |Without(active, t)| == |active| - (if tasks[t].running then 1 else 0)
  {
    hide NoDup;
    WithoutNoDup(active, t);
    WithoutNoDup(inactive, t);
  }

  lemma {:induction false} StartAgrees(active: seq<Ptr>, inactive: seq<Ptr>, tasks: map<Ptr, Task>, timeout: bool)
    requires ListsAgree(active, inactive, tasks) && inactive != []
    ensures inactive[0] in tasks
    ensures var t := inactive[0];
              ListsAgree(active + [t], inactive[1..], tasks[t := tasks[t].(running := true, timeout := timeout)])
  {
    var t := inactive[0];
    var rest := inactive[1..];
    AddedNoDup(active, t, false);
    forall i, j | 0 <= i < j < |rest| ensures rest[i] != rest[j] { assert inactive[i + 1] != inactive[j + 1]; }
    forall x ensures x in rest <==> x in inactive && x != t {
      if x in rest { var i :| 0 <= i < |rest| && rest[i] == x; assert inactive[i + 1] != inactive[0]; }
      if x in inactive && x != t { var i :| 0 <= i < |inactive| && inactive[i] == x; assert rest[i - 1] == x; }
    }
  }

  lemma {:induction false} Members(active: seq<Ptr>, inactive: seq<Ptr>, tasks: map<Ptr, Task>)
    requires ListsAgree(active, inactive, tasks)
    ensures NoDup(active) && NoDup(inactive)
    ensures forall t :: t in active ==> t in tasks && tasks[t].queued && tasks[t].running
    ensures forall t :: t in inactive ==> t in tasks && tasks[t].queued && !tasks[t].running
    ensures forall t :: t in tasks && tasks[t].queued && !tasks[t].running ==> t in inactive
  {
  }

  // ----- what an iteration over the pending tasks has passed -----

  /** The entries before the one that an iteration will visit next */
  ghost function Passed(s: seq<Ptr>, next: Ptr): seq<Ptr> {
    if s == [] || s[0] == next then [] else [s[0]] + Passed(s[1..], next)
  }

  lemma {:induction false} PassedAt(s: seq<Ptr>, k: nat)
    requires NoDup(s) && k < |s|
    ensures Passed(s, s[k]) == s[..k]
  {
    if k > 0 {
      assert s[0] != s[k];
      var rest := s[1..];
      forall i, j | 0 <= i < j < |rest| ensures rest[i] != rest[j] { assert s[i + 1] != s[j + 1]; }
      PassedAt(rest, k - 1);
      assert s[..k] == [s[0]] + rest[..k - 1];
    }
  }

  lemma {:induction false} PassedAll(s: seq<Ptr>, next: Ptr)
    requires next !in s
    ensures Passed(s, next) == s
  {
    if s != [] { PassedAll(s[1..], next); }
  }

  /** Apart from the task `but`, the tasks in late are what an iteration has passed. */
  ghost predicate Tracks(s: seq<Ptr>, next: Ptr, late: set<Ptr>, but: Ptr) {
    forall x :: x != but && x != NULL ==> (x in Passed(s, next) <==> x in late)
  }

  lemma {:induction false} TrackAdd(s: seq<Ptr>, next: Ptr, late: set<Ptr>, x: Ptr, first: bool)
    requires NoDup(s) && S.HEAD !in s && x !in s && x > 0 && S.Spot(s, next) && Tracks(s, next, late, NULL)
    ensures Tracks(L.Insert(s, if first then 0 else |s|, x), next,
                   if first || next == S.HEAD then late + {x} else late, NULL)
  {
    hide Passed;
    var now := L.Insert(s, if first then 0 else |s|, x);
    InsertNoDup(s, if first then 0 else |s|, x);
    if next == S.HEAD {
      PassedAll(s, next);
      PassedAll(now, next);
    } else {
      var k :| 0 <= k < |s| && s[k] == next;
      PassedAt(s, k);
      if first {
        assert now[k + 1] == next && now[..k + 1] == [x] + s[..k];
        PassedAt(now, k + 1);
      } else {
        assert now[k] == next && now[..k] == s[..k];
        PassedAt(now, k);
      }
    }
  }

  /** Where an iteration is after the entry at k was deleted */
  ghost function Moved(s: seq<Ptr>, next: Ptr, k: nat): Ptr
    requires k < |s|
  {
    if next == s[k] then S.Succ(s, k) else next
  }

  lemma {:induction false} TrackDel(s: seq<Ptr>, next: Ptr, late: set<Ptr>, k: nat)
    requires NoDup(s) && S.HEAD !in s && NULL !in s && k < |s| && S.Spot(s, next) && Tracks(s, next, late, s[k])
    ensures Tracks(L.Remove(s, k), Moved(s, next, k), late - {s[k]}, NULL)
  {
    hide Passed;
    var now := L.Remove(s, k);
    L.NoDupRemove(s, k);
    PassedDel(s, next, k);
    forall x | x != NULL ensures x in Passed(now, Moved(s, next, k)) <==> x in late - {s[k]} {
      assert x in Passed(now, Moved(s, next, k)) <==> x in Passed(s, next) && x != s[k];
    }
  }

  lemma {:induction false} PassedDel(s: seq<Ptr>, next: Ptr, k: nat)
    requires NoDup(s) && S.HEAD !in s && k < |s| && S.Spot(s, next)
    ensures forall x :: x in Passed(L.Remove(s, k), Moved(s, next, k)) <==> x in Passed(s, next) && x != s[k]
  {
    hide Passed;
    var now := L.Remove(s, k);
    L.NoDupRemove(s, k);
    forall x ensures x in now <==> x in s && x != s[k] { RemoveIn(s, k, x); }
    if next == S.HEAD {
      PassedAll(s, next);
      PassedAll(now, next);
    } else {
      var n :| 0 <= n < |s| && s[n] == next;
      PassedAt(s, n);
      if n < k {
        assert now[n] == next && now[..n] == s[..n];
        PassedAt(now, n);
        assert s[k] !in s[..n];
      } else if n > k {
        assert now[n - 1] == next;
        PassedAt(now, n - 1);
        assert now[..n - 1] == L.Remove(s[..n], k);
        assert NoDup(s[..n]);
        forall x ensures x in now[..n - 1] <==> x in s[..n] && x != s[k] { RemoveIn(s[..n], k, x); }
      } else {
        assert s[k] !in s[..k];
        if k + 1 < |s| {
          assert now[k] == s[k + 1] && now[..k] == s[..k];
          PassedAt(now, k);
        } else {
          assert now == s[..k];
          PassedAll(now, S.HEAD);
        }
      }
    }
  }

  lemma {:induction false} RemoveIn(s: seq<Ptr>, k: nat, x: Ptr)
    requires NoDup(s) && k < |s|
    ensures x in L.Remove(s, k) <==> x in s && x != s[k]
  {
    var now := L.Remove(s, k);
    if x in now {
      var i :| 0 <= i < |now| && now[i] == x;
      assert s[if i < k then i else i + 1] == x;
    }
    if x in s && x != s[k] {
      var i :| 0 <= i < |s| && s[i] == x;
      assert now[if i < k then i else i - 1] == x;
    }
  }

  /** Visiting the entry at k, which is not deleted yet */
  lemma {:induction false} TrackVisit(s: seq<Ptr>, late: set<Ptr>, k: nat)
    requires NoDup(s) && S.HEAD !in s && k < |s| && Tracks(s, s[k], late, NULL)
    ensures Tracks(s, S.Succ(s, k), late, s[k])
  {
    hide Passed;
    PassedAt(s, k);
    if k + 1 < |s| {
      PassedAt(s, k + 1);
      assert s[..k + 1] == s[..k] + [s[k]];
    } else {
      PassedAll(s, S.HEAD);
      assert s == s[..k] + [s[k]];
    }
  }

  lemma {:induction false} TrackEnd(s: seq<Ptr>, late: set<Ptr>)
    requires S.HEAD !in s && NULL !in s && NULL !in late && Tracks(s, S.HEAD, late, NULL)
    ensures forall x :: x in late <==> x in s
  {
    PassedAll(s, S.HEAD);
  }

  lemma {:induction false} TrackBegin(s: seq<Ptr>)
    requires NoDup(s) && S.HEAD !in s && s != []
    ensures Tracks(s, S.Succ(s, 0), {}, s[0])
  {
    hide Passed;
    PassedAt(s, 0);
    assert Tracks(s, s[0], {}, NULL);
    TrackVisit(s, {}, 0);
  }

  /** Every iteration over the pending tasks s is about to visit one of them or to end. It has
      passed exactly the tasks in its set late, none if no task was added since its span began. */
  ghost predicate Iterating(s: seq<Ptr>, cur: map<int, Ptr>, iters: map<int, S.Iter>, late: map<int, set<Ptr>>,
                            span: map<int, nat>, adds: nat, but: Ptr) {
    forall j :: j in cur ==> j in iters && j in late && j in span && One(s, iters[j].next, late[j], span[j], adds, but)
  }

  ghost predicate One(s: seq<Ptr>, next: Ptr, late: set<Ptr>, since: nat, adds: nat, but: Ptr) {
    Tracks(s, next, late, but) && NULL !in late && since <= adds && (since == adds ==> late == {})
  }

  /** Tasks added where an iteration has passed: at the front, or at either end when it is about
      to end */
  ghost function Behind(late: map<int, set<Ptr>>, cur: map<int, Ptr>, iters: map<int, S.Iter>, t: Ptr,
                        first: bool): map<int, set<Ptr>> {
    map j | j in late :: if j in cur && j in iters && (first || iters[j].next == S.HEAD) then late[j] + {t} else late[j]
  }

  ghost function Gone(late: map<int, set<Ptr>>, t: Ptr): map<int, set<Ptr>> { map j | j in late :: late[j] - {t} }

  lemma {:induction false} IteratingAdd(s: seq<Ptr>, cur: map<int, Ptr>, iters: map<int, S.Iter>,
                                        late: map<int, set<Ptr>>,
                                        span: map<int, nat>, adds: nat, t: Ptr, first: bool)
    requires Iterating(s, cur, iters, late, span, adds, NULL) && NoDup(s) && S.HEAD !in s && t !in s && t > 0
    requires forall j :: j in cur && j in iters ==> S.Spot(s, iters[j].next)
    ensures Iterating(L.Insert(s, if first then 0 else |s|, t), cur, iters, Behind(late, cur, iters, t, first), span,
                      adds + 1, NULL)
  {
    hide Tracks, Passed;
    forall j | j in cur
      ensures Tracks(L.Insert(s, if first then 0 else |s|, t), iters[j].next, Behind(late, cur, iters, t, first)[j],
                     NULL) {
      assert One(s, iters[j].next, late[j], span[j], adds, NULL);
      TrackAdd(s, iters[j].next, late[j], t, first);
    }
  }

  lemma {:induction false} IteratingDel(s: seq<Ptr>, cur: map<int, Ptr>, iters: map<int, S.Iter>,
                                        iters': map<int, S.Iter>, late: map<int, set<Ptr>>,
                                        span: map<int, nat>, adds: nat, k: nat)
    requires k < |s| && Iterating(s, cur, iters, late, span, adds, s[k]) && NoDup(s) && S.HEAD !in s && NULL !in s
    requires forall j :: j in cur && j in iters ==> S.Spot(s, iters[j].next)
    requires S.MovedNexts(cur.Keys, iters, iters', s[k], S.Succ(s, k))
    ensures Iterating(L.Remove(s, k), cur, iters', Gone(late, s[k]), span, adds, NULL)
  {
    hide Tracks, Passed;
    forall j | j in cur ensures Tracks(L.Remove(s, k), iters'[j].next, Gone(late, s[k])[j], NULL) {
      assert One(s, iters[j].next, late[j], span[j], adds, s[k]);
      TrackDel(s, iters[j].next, late[j], k);
    }
  }

  class Queue {
    var active: seq<Ptr>             // tasks_active
    const waiting: S.SafeList        // tasks_inactive
    var tasks: map<Ptr, Task>
    var runningTasks: int
    const maxRunning: int
    const hasEmptyCb: bool
    var stopped: bool
    var empty: bool
    var alarm: Alarm

    // what the call stack owes: calls of runqueue_start_next, and loops that start tasks
    ghost var owed: nat
    ghost var starting: nat
    // history: whether a task was ever added, and one as running; how many were added as pending
    ghost var used: bool
    ghost var addedRunning: bool
    ghost var adds: nat
    // for each cancellation of pending tasks: the number of adds when it began, and the tasks
    // added where it had passed and still there
    ghost var span: map<int, nat>
    ghost var late: map<int, set<Ptr>>
    // since the start timer was armed last: whether a runqueue_kill ended, and the tasks that
    // the last one left behind
    ghost var quiet: bool
    ghost var stranded: set<Ptr>

    ghost function Inactive(): seq<Ptr>
      reads this, waiting
    {
      waiting.entries
    }

    predicate Room()
      reads this
    {
      maxRunning == 0 || runningTasks < maxRunning
    }

    /** A pending task could be started now. */
    ghost predicate Startable()
      reads this, waiting
    {
      !stopped && Inactive() != [] && Room()
    }

    /** The queue ran empty and has not noticed yet. */
    ghost predicate RanEmpty()
      reads this, waiting
    {
      used && !empty && active == [] && Inactive() == []
    }

    /** No call that will look at the queue again is under way. */
    ghost predicate Idle()
      reads this
    {
      owed == 0 && starting == 0
    }

    /** When no call is under way, the start timer is armed for a task that could start unless
        runqueue_kill left that task behind, and for a queue that ran empty unless runqueue_kill
        ended since. */
    ghost predicate Alarms()
      reads this, waiting
    {
      && (Startable() && Idle() ==> (alarm == StartNext <==> stranded == {}))
      && (RanEmpty() && Idle() ==> (alarm == StartNext <==> !quiet))
      && (alarm == StartNext || starting > 0 ==> stranded == {})
      && (alarm == StartNext ==> !quiet)
      && (stranded != {} ==> forall t :: t in stranded <==> t in Inactive())
      && (alarm == Empty ==> empty)
    }

    ghost predicate ValidBut(but: Ptr)
      reads this, waiting, waiting.links
    {
      && waiting.Valid() && ListsAgree(active, Inactive(), tasks) && (forall t :: t in tasks ==> t > 0)
      && runningTasks == |active| && (empty ==> active == [] && Inactive() == [])
      && (maxRunning > 0 && !addedRunning ==> runningTasks <= maxRunning)
      && Alarms()
      && Iterating(Inactive(), waiting.cur, waiting.iters, late, span, adds, but)
    }

    ghost predicate Valid()
      reads this, waiting, waiting.links
    {
      ValidBut(NULL)
    }

    /** In every state: a pending task could start and nothing will start it, exactly if
        runqueue_kill left it behind and the queue is not stopped, has room, and no call that will
        look at it again is under way. */
    lemma {:induction false} StuckExactly(t: Ptr)
      requires Valid()
      ensures !stopped && (maxRunning == 0 || |active| < maxRunning) && owed == 0 && starting == 0 ==>
                (t in Inactive() && alarm != StartNext <==> t in stranded)
    {
      hide ListsAgree, Iterating, S.SafeList.Valid, NoDup;
    }

    lemma {:induction false} Facts()
      requires Valid()
      ensures NoDup(Inactive()) && S.HEAD !in Inactive()
    {
      waiting.Facts();
    }

    lemma {:induction false} ActiveFacts()
      requires Valid()
      ensures NoDup(active) && (active != [] ==> active[0] in tasks && tasks[active[0]].queued)
    {
      Members(active, Inactive(), tasks);
      if active != [] {
        var t: Ptr := active[0];
        assert t in active;
      }
    }

    /** runqueue_init */
    constructor (tasks: set<Ptr>, maxRunning: int, hasEmptyCb: bool)
      requires forall t :: t in tasks ==> t > 0
      ensures Valid() && fresh(waiting) && fresh(waiting.links) && active == [] && Inactive() == []
              && waiting.cur == map[]
      ensures !empty && !stopped && alarm == Off && Idle() && late == map[] && this.maxRunning == maxRunning
      ensures this.tasks == map t | t in tasks :: Task(false, false, false, false)
    {
      active, runningTasks, stopped, empty, alarm := [], 0, false, false, Off;
      waiting := new S.SafeList();
      this.tasks := map t | t in tasks :: Task(false, false, false, false);
      this.maxRunning, this.hasEmptyCb := maxRunning, hasEmptyCb;
      owed, starting, used, addedRunning, adds := 0, 0, false, false, 0;
      span, late, quiet, stranded := map[], map[], false, {};
    }

    /** runqueue_start_next */
    method StartNextCall()
      modifies `alarm, `stranded, `quiet
      ensures alarm == if empty then old(alarm) else StartNext
      ensures if empty then stranded == old(stranded) && quiet == old(quiet) else stranded == {} && !quiet
    {
      if empty {
        return;
      }
      alarm := StartNext;
      stranded, quiet := {}, false;
    }

    /** _runqueue_task_add; hasRun tells whether the type has a run callback. */
    method Add(t: Ptr, hasRun: bool, running: bool, first: bool)
      requires Valid() && t in tasks
      modifies `active, `tasks, `runningTasks, `empty, `alarm, `used, `addedRunning, `adds, `late, `stranded, `quiet,
               waiting, waiting.links
      ensures Valid() && waiting.cur == old(waiting.cur) && waiting.iters == old(waiting.iters)
      ensures Refused(old(tasks)[t], hasRun, running) ==>
        && tasks == old(tasks) && active == old(active) && Inactive() == old(Inactive()) && alarm == old(alarm)
        && empty == old(empty) && late == old(late) && adds == old(adds) && stranded == old(stranded)
      ensures !Refused(old(tasks)[t], hasRun, running) ==>
        && tasks == old(tasks)[t := old(tasks)[t].(queued := true, running := running, cancelled := false)]
        && active == (if running then Added(old(active), t, first) else old(active))
        && Inactive() == (if running then old(Inactive()) else Added(old(Inactive()), t, first))
        && alarm == StartNext && !empty && stranded == {} && adds == old(adds) + (if running then 0 else 1)
        && late == if running then old(late) else Behind(old(late), waiting.cur, waiting.iters, t, first)
      ensures addedRunning == (old(addedRunning) || (running && !Refused(old(tasks)[t], hasRun, running)))
    {
      hide ListsAgree, Iterating, Behind, S.SafeList.Valid, NoDup;
      if tasks[t].queued {
        return;
      }
      if !hasRun && !running {
        return;
      }
      Enter(t, running, first);
    }

    /** The task joins a list, and the start timer is armed. */
    method Enter(t: Ptr, running: bool, first: bool)
      requires Valid() && t in tasks && !tasks[t].queued
      modifies `active, `tasks, `runningTasks, `empty, `alarm, `used, `addedRunning, `adds, `late, `stranded, `quiet,
               waiting, waiting.links
      ensures Valid() && waiting.cur == old(waiting.cur) && waiting.iters == old(waiting.iters)
      ensures tasks == old(tasks)[t := old(tasks)[t].(queued := true, running := running, cancelled := false)]
      ensures active == (if running then Added(old(active), t, first) else old(active))
      ensures Inactive() == (if running then old(Inactive()) else Added(old(Inactive()), t, first))
      ensures alarm == StartNext && !empty && stranded == {} && adds == old(adds) + (if running then 0 else 1)
      ensures late == (if running then old(late) else Behind(old(late), waiting.cur, waiting.iters, t, first))
      ensures addedRunning == (old(addedRunning) || running)
    {
      hide ListsAgree, Iterating, Behind, Added, S.SafeList.Valid, NoDup;
      AddAgrees(active, Inactive(), tasks, t, running, first);
      NotMember(active, Inactive(), tasks, t);
      if running {
        runningTasks := runningTasks + 1;
        active := Added(active, t, first);
        addedRunning := true;
      } else {
        Link(t, first);
      }
      tasks := tasks[t := tasks[t].(queued := true, running := running, cancelled := false)];
      empty := false;
      used := true;
      StartNextCall();
    }

    /** safe_list_add and safe_list_add_first of a pending task */
    method Link(t: Ptr, first: bool)
      requires waiting.Valid() && t > 0 && t !in Inactive()
      requires Iterating(Inactive(), waiting.cur, waiting.iters, late, span, adds, NULL)
      modifies waiting, waiting.links, `late, `adds
      ensures waiting.Valid() && waiting.cur == old(waiting.cur) && waiting.iters == old(waiting.iters)
      ensures Inactive() == Added(old(Inactive()), t, first) && adds == old(adds) + 1
      ensures late == Behind(old(late), waiting.cur, waiting.iters, t, first)
      ensures Iterating(Inactive(), waiting.cur, waiting.iters, late, span, adds, NULL)
    {
      hide Iterating, Behind, S.SafeList.Valid, NoDup;
      waiting.Facts();
      IteratingAdd(Inactive(), waiting.cur, waiting.iters, late, span, adds, t, first);
      AddedIs(Inactive(), t, first);
      late, adds := Behind(late, waiting.cur, waiting.iters, t, first), adds + 1;
      waiting.Add(t, !first);
    }

    /** The alarm goes off and the loop of __runqueue_start_next begins. */
    method StartBegin()
      requires Valid() && alarm == StartNext
      modifies `alarm, `starting
      ensures Valid() && alarm == Off && starting == old(starting) + 1
    {
      hide ListsAgree, Iterating;
      alarm := Off;
      starting := starting + 1;
    }

    /** safe_list_del of a pending task */
    method Unlink(t: Ptr)
      requires waiting.Valid() && t in Inactive()
               && Iterating(Inactive(), waiting.cur, waiting.iters, late, span, adds, t)
      modifies waiting, waiting.links, `late
      ensures waiting.Valid() && waiting.cur == old(waiting.cur) && Inactive() == Without(old(Inactive()), t)
      ensures Iterating(Inactive(), waiting.cur, waiting.iters, late, span, adds, NULL) && late == Gone(old(late), t)
      ensures KeptNexts(waiting.cur, old(waiting.iters), waiting.iters, t)
    {
      hide Iterating, Gone, Without;
      waiting.Facts();
      ghost var k :| 0 <= k < |Inactive()| && Inactive()[k] == t;
      L.RemoveIsWithout(Inactive(), k);
      waiting.Del(t, k);
      IteratingDel(old(Inactive()), waiting.cur, old(waiting.iters), waiting.iters, late, span, adds, k);
      late := Gone(late, t);
    }

    /** One round of the loop: the task whose run callback is to be called, which is the first
        pending one, or the end of the loop, where the queue may turn out to be empty. */
    method StartRound(hasRunTimeout: bool) returns (started: bool, t: Ptr)
      requires Valid() && starting > 0
      modifies `active, `tasks, `runningTasks, `empty, `alarm, `starting, `late, waiting, waiting.links
      ensures Valid() && waiting.cur == old(waiting.cur)
      ensures started <==> !old(stopped) && old(Inactive()) != [] && (maxRunning == 0 || |old(active)| < maxRunning)
      ensures started ==>
        && old(Inactive()) != [] && t == old(Inactive())[0] && t in old(tasks)
        && Inactive() == Without(old(Inactive()), t) && active == old(active) + [t]
        && tasks == old(tasks)[t := old(tasks)[t].(running := true, timeout := old(tasks)[t].timeout || hasRunTimeout)]
        && starting == old(starting) && alarm == old(alarm) && empty == old(empty) && late == Gone(old(late), t)
      ensures !started ==> stopped || Inactive() == [] || (maxRunning != 0 && |active| >= maxRunning)
      ensures !started ==>
        && active == old(active) && Inactive() == old(Inactive()) && tasks == old(tasks)
        && starting == old(starting) - 1
        && empty == (old(empty) || (active == [] && Inactive() == [])) && late == old(late)
        && alarm == if empty && !old(empty) && hasEmptyCb then Empty else old(alarm)
    {
      hide ListsAgree, Iterating, Gone, Without, S.SafeList.Valid, NoDup;
      started := false;
      t := waiting.First();
      waiting.Facts();
      if !stopped && t != S.HEAD && Room() {
        Start(t, hasRunTimeout);
        return true, t;
      }
      if !empty && active == [] && t == S.HEAD {
        empty := true;
        if hasEmptyCb {
          alarm := Empty;
        }
      }
      starting := starting - 1;
    }

    /** The first pending task becomes active. */
    method Start(t: Ptr, hasRunTimeout: bool)
      requires Valid() && starting > 0 && Inactive() != [] && t == Inactive()[0] && Room()
      modifies `active, `tasks, `runningTasks, `late, waiting, waiting.links
      ensures Valid() && waiting.cur == old(waiting.cur) && t in old(tasks)
      ensures Inactive() == Without(old(Inactive()), t) && active == old(active) + [t] && late == Gone(old(late), t)
      ensures tasks ==
                old(tasks)[t := old(tasks)[t].(running := true, timeout := old(tasks)[t].timeout || hasRunTimeout)]
    {
      hide ListsAgree, Iterating, Gone, Without, S.SafeList.Valid, NoDup;
      Members(active, Inactive(), tasks);
      assert t in Inactive() && t in tasks;
      StartAgrees(active, Inactive(), tasks, tasks[t].timeout || hasRunTimeout);
      L.RemoveIsWithout(Inactive(), 0);
      assert L.Remove(Inactive(), 0) == Inactive()[1..];
      IteratingAny(Inactive(), waiting.cur, waiting.iters, late, span, adds, t);
      Unlink(t);
      active := active + [t];
      tasks := tasks[t := tasks[t].(running := true, timeout := tasks[t].timeout || hasRunTimeout)];
      runningTasks := runningTasks + 1;
    }

    /** The empty callback is called: there is nothing left to run. */
    method EmptyFires()
      requires Valid() && alarm == Empty
      modifies `alarm
      ensures Valid() && alarm == Off
      ensures empty && active == [] && Inactive() == []
    {
      hide ListsAgree, Iterating;
      alarm := Off;
    }

    /** runqueue_task_complete of a pending task up to the complete callback; an iteration may
        just have visited it. */
    method TakeOut(t: Ptr)
      requires ValidBut(t) && t in tasks && tasks[t].queued && !tasks[t].running
      modifies `tasks, `late, `owed, `stranded, waiting, waiting.links
      ensures Valid() && owed == old(owed) + 1 && waiting.cur == old(waiting.cur)
      ensures tasks == old(tasks)[t := Task(false, false, false, false)] && t in old(Inactive())
      ensures Inactive() == Without(old(Inactive()), t) && active == Without(active, t)
      ensures late == Gone(old(late), t) && stranded == old(stranded) - {t}
      ensures KeptNexts(waiting.cur, old(waiting.iters), waiting.iters, t)
    {
      hide ListsAgree, Iterating, Gone, Without, S.SafeList.Valid, NoDup;
      RemoveAgrees(active, Inactive(), tasks, t);
      WithoutNone(active, Inactive(), t);
      Where(active, Inactive(), tasks, t);
      Unlink(t);
      tasks := tasks[t := Task(false, false, false, false)];
      owed := owed + 1;
      stranded := stranded - {t};
    }

    /** runqueue_task_complete up to the complete callback; false if the task is not queued. */
    method CompleteBegin(t: Ptr) returns (going: bool)
      requires Valid() && t in tasks
      modifies `active, `tasks, `runningTasks, `late, `owed, `stranded, waiting, waiting.links
      ensures Valid() && going == old(tasks)[t].queued && waiting.cur == old(waiting.cur)
      ensures !going ==>
                tasks == old(tasks) && active == old(active) && Inactive() == old(Inactive()) && owed == old(owed)
                && late == old(late)
      ensures going ==>
        && tasks == old(tasks)[t := Task(false, false, false, false)] && owed == old(owed) + 1
        && active == Without(old(active), t) && Inactive() == Without(old(Inactive()), t)
        && late == if t in old(Inactive()) then Gone(old(late), t) else old(late)
    {
      hide ListsAgree, Iterating, Gone, Without, S.SafeList.Valid, NoDup;
      if !tasks[t].queued {
        return false;
      }
      Where(active, Inactive(), tasks, t);
      if tasks[t].running {
        RemoveAgrees(active, Inactive(), tasks, t);
        WithoutNone(active, Inactive(), t);
        runningTasks := runningTasks - 1;
        active := Without(active, t);
        tasks := tasks[t := Task(false, false, false, false)];
        owed := owed + 1;
      } else {
        IteratingAny(Inactive(), waiting.cur, waiting.iters, late, span, adds, t);
        TakeOut(t);
      }
      return true;
    }

    /** runqueue_task_complete behind the complete callback */
    method CompleteEnd()
      requires Valid() && owed > 0
      modifies `alarm, `owed, `stranded, `quiet
      ensures Valid() && owed == old(owed) - 1 && alarm == if empty then old(alarm) else StartNext
      ensures if empty then stranded == old(stranded) && quiet == old(quiet) else stranded == {} && !quiet
    {
      hide ListsAgree, Iterating;
      StartNextCall();
      owed := owed - 1;
    }

    /** runqueue_task_cancel: nothing, completion, or the cancel callback is to be called. */
    method Cancel(t: Ptr, hasCancelTimeout: bool) returns (next: Step)
      requires Valid() && t in tasks
      modifies `tasks
      ensures Valid() && next ==
                (if !old(tasks)[t].queued then Nothing else if !old(tasks)[t].running then Complete else Call)
      ensures next == Call ==>
                tasks ==
                  old(tasks)[t :=
                             old(tasks)[t].(cancelled := true, timeout := old(tasks)[t].timeout || hasCancelTimeout)]
      ensures next != Call ==> tasks == old(tasks)
    {
      hide Iterating;
      if !tasks[t].queued {
        return Nothing;
      }
      if !tasks[t].running {
        return Complete;
      }
      tasks := tasks[t := tasks[t].(cancelled := true, timeout := tasks[t].timeout || hasCancelTimeout)];
      return Call;
    }

    /** runqueue_task_kill: nothing, the kill callback and then completion, or completion. */
    method Kill(t: Ptr, hasKill: bool) returns (next: Step)
      requires t in tasks
      ensures next == if !tasks[t].queued then Nothing else if tasks[t].running && hasKill then Call else Complete
    {
      if !tasks[t].queued {
        return Nothing;
      }
      if tasks[t].running && hasKill {
        return Call;
      }
      return Complete;
    }

    /** The timer of a task fires, which only those of running tasks do: true says that the task
        is to be killed, having been cancelled before, and false that it is to be cancelled. */
    method TaskTimeout(t: Ptr) returns (kill: bool)
      requires Valid() && t in tasks && tasks[t].timeout
      modifies `tasks
      ensures Valid() && tasks == old(tasks)[t := old(tasks)[t].(timeout := false)]
      ensures t in active && kill == tasks[t].cancelled
    {
      hide Iterating;
      tasks := tasks[t := tasks[t].(timeout := false)];
      return tasks[t].cancelled;
    }

    /** runqueue_stop */
    method Stop()
      requires Valid()
      modifies `stopped
      ensures Valid() && stopped
    {
      hide ListsAgree, Iterating;
      stopped := true;
    }

    /** runqueue_resume */
    method Resume()
      requires Valid()
      modifies `stopped, `alarm, `stranded, `quiet
      ensures Valid() && !stopped && alarm == if empty then old(alarm) else StartNext
    {
      hide ListsAgree, Iterating;
      stopped := false;
      StartNextCall();
    }

    // ----- cancelling all pending tasks, and runqueue_kill -----

    /** runqueue_kill begins: its loop over the active tasks comes first. */
    ghost method KillBegin(i: int)
      requires Valid() && i !in waiting.cur
      modifies `span
      ensures Valid() && span == old(span)[i := adds]
    {
      hide ListsAgree, Tracks;
      span := span[i := adds];
    }

    /** runqueue_cancel_pending begins, in a runqueue_kill or on its own: the first pending task is
        completed, and its complete callback is to be called. */
    method CancelBegin(i: int) returns (done: bool, t: Ptr)
      requires Valid() && i > 0 && i !in waiting.cur && (i in span ==> span[i] <= adds)
      modifies `tasks, `late, `owed, `stranded, `span, waiting, waiting.links
      ensures Valid() && done == (old(Inactive()) == [])
      ensures span == if i in old(span) then old(span) else old(span)[i := adds]
      ensures done ==> Ended(i) && late == old(late)[i := {}] && waiting.cur == old(waiting.cur)
      ensures done ==> tasks == old(tasks) && Inactive() == [] && owed == old(owed)
      ensures !done ==>
        && t == old(Inactive())[0] && t in old(tasks) && tasks == old(tasks)[t := Task(false, false, false, false)]
        && active == Without(active, t) && Inactive() == Without(old(Inactive()), t) && owed == old(owed) + 1
        && waiting.cur == old(waiting.cur)[i := t] && late == Gone(old(late)[i := {}], t)
        && i in waiting.iters && waiting.iters[i].next == S.Succ(old(Inactive()), 0)
    {
      hide ListsAgree, Tracks, Iterating, Gone, Without, S.SafeList.Valid, NoDup, Ended;
      waiting.Facts();
      Prepare(i);
      t := waiting.First();
      if t == S.HEAD {
        NoneLeft(i);
        return true, t;
      }
      Visit(i);
      return false, t;
    }

    /** Nothing is pending: the iteration ends at once. */
    method NoneLeft(i: int)
      requires Valid() && i > 0 && i !in waiting.cur && Inactive() == []
      requires i in span && span[i] <= adds && i in late && late[i] == {}
      modifies waiting, waiting.links
      ensures Valid() && Ended(i) && waiting.cur == old(waiting.cur) && Inactive() == []
    {
      hide ListsAgree, Tracks, Iterating, S.SafeList.Valid, NoDup;
      waiting.Begin(i);
      waiting.Finish(i);
      IteratingSame(Inactive(), old(waiting.cur), waiting.cur, old(waiting.iters), waiting.iters, late, span, adds);
    }

    /** The history of a cancellation begins. */
    ghost method Prepare(i: int)
      requires Valid() && i !in waiting.cur && (i in span ==> span[i] <= adds)
      modifies `span, `late
      ensures Valid() && i in span && span[i] <= adds
      ensures span == (if i in old(span) then old(span) else old(span)[i := adds]) && late == old(late)[i := {}]
    {
      hide ListsAgree, Tracks, S.SafeList.Valid, NoDup;
      if i !in span {
        span := span[i := adds];
      }
      late := late[i := {}];
    }

    /** The first task is visited. */
    method Visit(i: int)
      requires Valid() && i > 0 && i !in waiting.cur && Inactive() != []
      requires i in span && span[i] <= adds && i in late && late[i] == {}
      modifies `tasks, `late, `owed, `stranded, waiting, waiting.links
      ensures var t := old(Inactive())[0];
        && Valid() && t in old(tasks) && tasks == old(tasks)[t := Task(false, false, false, false)]
        && active == Without(active, t) && Inactive() == Without(old(Inactive()), t) && owed == old(owed) + 1
        && waiting.cur == old(waiting.cur)[i := t] && late == Gone(old(late), t)
        && i in waiting.iters && waiting.iters[i].next == S.Succ(old(Inactive()), 0)
    {
      hide ListsAgree, Tracks, Iterating, Gone, Without, S.SafeList.Valid, NoDup;
      waiting.Facts();
      waiting.Begin(i);
      var t := waiting.cur[i];
      DifferentNext(Inactive());
      TrackBegin(Inactive());
      IteratingMore(Inactive(), old(waiting.cur), waiting.cur, old(waiting.iters), waiting.iters, late, late, span,
                    span, adds, i, t);
      Members(active, Inactive(), tasks);
      assert t in Inactive();
      TakeOut(t);
    }

    /** The next step of safe_list_for_each in runqueue_cancel_pending, behind the completion of the
        task visited last. At its end, what is pending is what was added where it had passed. */
    method CancelNext(i: int) returns (done: bool, t: Ptr)
      requires Valid() && i in waiting.cur && waiting.cur[i] != S.HEAD
      modifies `tasks, `late, `owed, `stranded, waiting, waiting.links
      ensures Valid() && i in old(waiting.iters) && done == (old(waiting.iters)[i].next == S.HEAD)
      ensures done ==> Ended(i) && late == old(late) && waiting.cur == old(waiting.cur) - {i}
      ensures done ==> tasks == old(tasks) && Inactive() == old(Inactive()) && owed == old(owed)
      ensures !done ==>
        && t == old(waiting.iters)[i].next && t in old(Inactive()) && t in old(tasks)
        && tasks == old(tasks)[t := Task(false, false, false, false)]
        && active == Without(active, t) && Inactive() == Without(old(Inactive()), t) && owed == old(owed) + 1
        && waiting.cur == old(waiting.cur)[i := t] && late == Gone(old(late), t)
    {
      hide ListsAgree, Tracks, Gone, Without, S.SafeList.Valid, NoDup;
      waiting.Facts();
      ghost var k := waiting.Advance(i);
      t := waiting.cur[i];
      if t == S.HEAD {
        TrackEnd(Inactive(), late[i]);
        assert Inactive() == [] || Inactive()[0] in late[i];
        waiting.Finish(i);
        return true, t;
      }
      TrackVisit(Inactive(), late[i], k);
      IteratingMore(Inactive(), old(waiting.cur), waiting.cur, old(waiting.iters), waiting.iters, late, late, span,
                    span, adds, i, t);
      Members(active, Inactive(), tasks);
      assert t in Inactive();
      TakeOut(t);
      return false, t;
    }

    /** A cancellation of the pending tasks is over: exactly the tasks added where it had passed are
        pending, none if none was added since its span began. */
    ghost predicate Ended(i: int)
      reads this, waiting
    {
      && i in late && i in span && i !in waiting.cur && (forall t :: t in late[i] <==> t in Inactive())
      && (span[i] == adds ==> Inactive() == [])
    }

    /** The end of runqueue_kill takes the alarm away. The tasks left behind are exactly those added
        where its cancellation had passed, if the queue is not stopped, has room for them, and no
        completion or start loop is under way around the kill; and none if none was added. */
    method KillEnd(i: int)
      requires Valid() && Ended(i)
      modifies `alarm, `stranded, `quiet
      ensures Valid() && alarm == Off && quiet
      ensures var idle := !stopped && (maxRunning == 0 || |active| < maxRunning) && owed == 0 && starting == 0;
              stranded == if idle then late[i] else {}
      ensures (forall t :: t in Inactive() <==> t in late[i]) && (Inactive() != [] <==> late[i] != {})
      ensures span[i] == adds ==> Inactive() == [] && stranded == {}
    {
      hide ListsAgree, Iterating;
      LeftBehind(Inactive(), late[i]);
      alarm, quiet := Off, true;
      stranded := if !stopped && Room() && Idle() then late[i] else {};
    }

    /** runqueue_kill, with callbacks that leave the queue alone: it ends, and nothing is left. */
    method KillAll(i: int)
      requires Valid() && i > 0 && i !in waiting.cur
      modifies this, waiting, waiting.links
      ensures Valid() && active == [] && Inactive() == [] && runningTasks == 0 && alarm == Off && stranded == {}
      ensures waiting.cur == old(waiting.cur) && stopped == old(stopped)
    {
      hide ListsAgree, Iterating, Gone, Without, NoDup, Queue.Valid;
      KillBegin(i);
      while active != []
        invariant Valid() && waiting.cur == old(waiting.cur) && stopped == old(stopped) && i in span && span[i] == adds
        decreases |active|
      {
        ActiveFacts();
        var t := active[0];
        var next := Kill(t, true);
        WithoutNoDup(active, t);
        var going := CompleteBegin(t);
        CompleteEnd();
      }
      CancelAll(i);
      KillEnd(i);
      NoneRunning(this);
    }

    /** runqueue_cancel_pending in it */
    method CancelAll(i: int)
      requires Valid() && i > 0 && i !in waiting.cur && i in span && span[i] == adds
      modifies `tasks, `late, `owed, `stranded, `span, `alarm, `quiet, waiting, waiting.links
      ensures Valid() && Ended(i) && Inactive() == [] && waiting.cur == old(waiting.cur)
    {
      hide ListsAgree, Iterating, Gone, Without, NoDup, Queue.Valid;
      Facts();
      var done, t := CancelBegin(i);
      while !done
        invariant Valid() && i in span && span[i] == adds
        invariant done ==> Ended(i) && waiting.cur == old(waiting.cur)
        invariant !done ==>
                    owed > 0 && i in waiting.cur && waiting.cur[i] != S.HEAD
                    && waiting.cur == old(waiting.cur)[i := waiting.cur[i]]
        decreases !done, |Inactive()|
      {
        CompleteEnd();
        Facts();
        ghost var was, wasCur := Inactive(), waiting.cur;
        done, t := CancelNext(i);
        if !done {
          WithoutNoDup(was, t);
        } else {
          assert wasCur - {i} == old(waiting.cur);
        }
      }
    }
  }

  lemma {:induction false} LeftBehind(s: seq<Ptr>, late: set<Ptr>)
    requires forall t :: t in late <==> t in s
    ensures s == [] <==> late == {}
  {
    if s != [] {
      var t: Ptr := s[0];
      assert t in s && t in late;
      assert late != {};
    } else {
      assert forall t :: t !in late;
      assert late == {};
    }
  }

  lemma {:induction false} Where(active: seq<Ptr>, inactive: seq<Ptr>, tasks: map<Ptr, Task>, t: Ptr)
    requires ListsAgree(active, inactive, tasks) && t in tasks && tasks[t].queued
    ensures tasks[t].running ==> t in active && t !in inactive && Without(inactive, t) == inactive
    ensures !tasks[t].running ==> t in inactive && t !in active && Without(active, t) == active
  {
  }

  lemma {:induction false} IteratingAny(s: seq<Ptr>, cur: map<int, Ptr>, iters: map<int, S.Iter>,
                                        late: map<int, set<Ptr>>,
                                        span: map<int, nat>, adds: nat, t: Ptr)
    requires Iterating(s, cur, iters, late, span, adds, NULL)
    ensures Iterating(s, cur, iters, late, span, adds, t)
  {
  }

  /** One iteration moved on to visit t. */
  lemma {:induction false} IteratingMore(s: seq<Ptr>, cur: map<int, Ptr>, cur': map<int, Ptr>,
                                         iters: map<int, S.Iter>, iters': map<int, S.Iter>,
                                         late: map<int, set<Ptr>>, late': map<int, set<Ptr>>, span: map<int, nat>,
                                         span': map<int, nat>,
                                         adds: nat, i: int, t: Ptr)
    requires Iterating(s, cur, iters, late, span, adds, NULL) && cur'.Keys == cur.Keys + {i}
    requires S.SameNexts(cur.Keys - {i}, iters, iters')
    requires forall j :: j in cur && j != i && j in late && j in span ==>
               j in late' && late'[j] == late[j] && j in span' && span'[j] == span[j]
    requires i in iters' && i in late' && i in span' && One(s, iters'[i].next, late'[i], span'[i], adds, t)
    ensures Iterating(s, cur', iters', late', span', adds, t)
  {
    hide Tracks;
    forall j | j in cur'
      ensures j in iters' && j in late' && j in span' && One(s, iters'[j].next, late'[j], span'[j], adds, t) {
      if j != i {
        assert One(s, iters[j].next, late[j], span[j], adds, NULL);
        TracksAny(s, iters[j].next, late[j], t);
      }
    }
  }

  lemma {:induction false} IteratingSame(s: seq<Ptr>, cur: map<int, Ptr>, cur': map<int, Ptr>,
                                         iters: map<int, S.Iter>, iters': map<int, S.Iter>,
                                         late: map<int, set<Ptr>>, span: map<int, nat>, adds: nat)
    requires Iterating(s, cur, iters, late, span, adds, NULL) && cur'.Keys <= cur.Keys
             && S.SameNexts(cur'.Keys, iters, iters')
    ensures Iterating(s, cur', iters', late, span, adds, NULL)
  {
    hide Tracks;
    forall j | j in cur'
      ensures j in iters' && j in late && j in span && One(s, iters'[j].next, late[j], span[j], adds, NULL) {
      assert j in cur && One(s, iters[j].next, late[j], span[j], adds, NULL);
    }
  }

  lemma {:induction false} TracksAny(s: seq<Ptr>, next: Ptr, late: set<Ptr>, t: Ptr)
    ensures Tracks(s, next, late, NULL) ==> Tracks(s, next, late, t)
  {
  }

  /** Iterations that were not about to visit t are about to visit what they were. */
  ghost predicate KeptNexts(cur: map<int, Ptr>, was: map<int, S.Iter>, now: map<int, S.Iter>, t: Ptr) {
    forall j :: j in cur && j in was && was[j].next != t ==> j in now && now[j].next == was[j].next
  }

  lemma {:induction false} DifferentNext(s: seq<Ptr>)
    requires NoDup(s) && s != [] && S.HEAD !in s
    ensures S.Succ(s, 0) != s[0]
  {
  }

  ghost predicate Refused(t: Task, hasRun: bool, running: bool) { t.queued || (!hasRun && !running) }

  lemma {:induction false} NotMember(active: seq<Ptr>, inactive: seq<Ptr>, tasks: map<Ptr, Task>, t: Ptr)
    requires ListsAgree(active, inactive, tasks) && t in tasks && !tasks[t].queued
    ensures t !in active && t !in inactive
  {
  }

  lemma {:induction false} AddedIs(s: seq<Ptr>, t: Ptr, first: bool)
    ensures Added(s, t, first) == L.Insert(s, if first then 0 else |s|, t) == L.Insert(s, if !first then |s| else 0, t)
  {
  }

  method OnePending() returns (q: Queue)
    ensures fresh(q) && fresh(q.waiting) && fresh(q.waiting.links) && q.Valid() && q.active == [] && q.Inactive() == [7]
    ensures q.maxRunning == 1 && !q.stopped && q.Idle() && 7 in q.tasks && q.waiting.cur == map[]
  {
    hide ListsAgree, Iterating, NoDup, Queue.Valid, Behind;
    q := new Queue({7}, 1, true);
    q.Add(7, true, false, false);
  }

  /** The only pending task is cancelled in a kill, and its complete callback is to be called. */
  method KillOnly() returns (q: Queue)
    ensures fresh(q) && fresh(q.waiting) && fresh(q.waiting.links) && q.Valid() && q.active == [] && q.Inactive() == []
    ensures q.maxRunning == 1 && !q.stopped && q.owed == 1 && q.starting == 0 && 7 in q.tasks && !q.tasks[7].queued
    ensures q.waiting.cur == map[1 := 7] && 1 in q.waiting.iters && q.waiting.iters[1].next == S.HEAD
    ensures 1 in q.late && q.late[1] == {}
  {
    hide ListsAgree, Iterating, NoDup, Queue.Valid;
    q := OnePending();
    q.KillBegin(1);
    var done, t := q.CancelBegin(1);
    assert [7][1..] == [];
  }

  /** The callback adds the task again. */
  method AddAgain(q: Queue, first: bool)
    requires q.Valid() && q.Inactive() == [] && 7 in q.tasks && !q.tasks[7].queued && q.owed == 1 && q.starting == 0
    requires 1 in q.waiting.cur && 1 in q.waiting.iters && q.waiting.iters[1].next == S.HEAD && 1 in q.late
             && q.late[1] == {}
    modifies q, q.waiting, q.waiting.links
    ensures q.Valid() && q.Idle() && q.active == old(q.active) && q.stopped == old(q.stopped)
    ensures q.waiting.cur == old(q.waiting.cur) && q.waiting.iters == old(q.waiting.iters) && 1 in q.late
            && q.late[1] == {7}
  {
    hide ListsAgree, Iterating, NoDup, Queue.Valid;
    q.Add(7, true, false, first);
    assert q.late[1] == {} + {7} == {7};
    q.CompleteEnd();
  }

  /** A completion that adds its task again, at either end, when the cancellation is about to end,
      leaves a task that could be started and that nothing starts. */
  method KillStrands(first: bool) returns (q: Queue)
    ensures fresh(q) && q.Valid() && q.Inactive() != [] && !q.stopped && |q.active| < q.maxRunning
    ensures q.owed == 0 && q.starting == 0 && q.alarm == Off && q.stranded == {7}
  {
    hide ListsAgree, Iterating, NoDup, Queue.Valid;
    q := KillOnly();
    AddAgain(q, first);
    var done, t := q.CancelNext(1);
    NoneRunning(q);
    q.KillEnd(1);
  }

  lemma {:induction false} NoneRunning(q: Queue)
    requires q.Valid() && q.active == []
    ensures q.runningTasks == 0
  {
  }
}
