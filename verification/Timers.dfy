/** uloop.c: a queue of timers ordered by a comparison in truncated milliseconds. */
module Timers {
  import opened Basics

  const INT_MAX: int := 0x7fff_ffff
  const MILLI: int := 1000
  const MICRO: int := 1000000

  datatype Time = Time(sec: int, usec: int)

  /** struct uloop_timeout */
  datatype Timer = Timer(time: Time, pending: bool)

  /** x / y in C, for a positive divisor: the fraction is dropped. */
  function Div(x: int, y: int): int
    requires y > 0
  {
    if x >= 0 then x / y else -(-x / y)
  }

  /** x % y in C */
  function Mod(x: int, y: int): int
    requires y > 0
  {
    x - y * Div(x, y)
  }

  /** tv_diff: milliseconds from t2 to t1 */
  function TvDiff(t1: Time, t2: Time): int {
    (t1.sec - t2.sec) * 1000 + Div(t1.usec - t2.usec, 1000)
  }

  /** The time in microseconds */
  ghost function Exact(t: Time): int { t.sec * MICRO + t.usec }

  lemma {:induction false} DivBounds(x: int)
    ensures -MILLI < x - MILLI * Div(x, 1000) < MILLI
    ensures (x >= 0 ==> x >= MILLI * Div(x, 1000)) && (x <= 0 ==> x <= MILLI * Div(x, 1000))
  {
  }

  /** The difference is less than a millisecond off: of the microseconds the fraction is dropped,
      which makes it too small or too large. */
  lemma {:induction false} TvDiffBounds(t1: Time, t2: Time)
    ensures -MILLI < Exact(t1) - Exact(t2) - MILLI * TvDiff(t1, t2) < MILLI
    ensures t1.usec >= t2.usec ==> Exact(t1) - Exact(t2) >= MILLI * TvDiff(t1, t2)
    ensures t1.usec <= t2.usec ==> Exact(t1) - Exact(t2) <= MILLI * TvDiff(t1, t2)
    ensures TvDiff(t1, t2) > 0 ==> Exact(t1) > Exact(t2)
    ensures TvDiff(t1, t2) <= 0 ==> Exact(t1) < Exact(t2) + MILLI
  {
    DivBounds(t1.usec - t2.usec);
  }

  /** It is not transitive: a does not come after b, nor b after c, but a after c. */
  lemma {:induction false} NotTransitive()
    ensures var a, b, c := Time(0, 1998), Time(0, 999), Time(0, 0);
      TvDiff(a, b) <= 0 && TvDiff(b, c) <= 0 && TvDiff(a, c) > 0
  {
  }

  /** Sorted up to less than a millisecond. */
  ghost predicate Nearly(list: seq<Ptr>, at: map<Ptr, Timer>) {
    && (forall i :: 0 <= i < |list| ==> list[i] in at)
    && (forall i, j :: 0 <= i < j < |list| ==> Exact(at[list[i]].time) < Exact(at[list[j]].time) + MILLI)
  }

  /** Where a new timer goes: before the first that is a whole millisecond later. */
  ghost predicate Position(list: seq<Ptr>, at: map<Ptr, Timer>, t: Time, p: int) {
    && 0 <= p <= |list| && (forall i :: 0 <= i < |list| ==> list[i] in at)
    && (forall i :: 0 <= i < p ==> TvDiff(at[list[i]].time, t) <= 0)
    && (p < |list| ==> TvDiff(at[list[p]].time, t) > 0)
  }

  lemma {:induction false} InsertPair(list: seq<Ptr>, at: map<Ptr, Timer>, n: Ptr, p: nat, i: nat, j: nat)
    requires Nearly(list, at) && n in at && Position(list, at, at[n].time, p) && i < j <= |list|
    ensures var now := list[..p] + [n] + list[p..];
      now[i] in at && now[j] in at && Exact(at[now[i]].time) < Exact(at[now[j]].time) + MILLI
  {
    hide TvDiff, Exact;
    InsertedAt(list, p, n, i);
    InsertedAt(list, p, n, j);
    if j == p {
      TvDiffBounds(at[list[i]].time, at[n].time);
    } else if i == p {
      TvDiffBounds(at[list[p]].time, at[n].time);
    }
  }

  lemma {:induction false} InsertNearly(list: seq<Ptr>, at: map<Ptr, Timer>, n: Ptr, p: nat)
    requires Nearly(list, at) && n in at && n !in list && NoDup(list) && Position(list, at, at[n].time, p)
    ensures Nearly(list[..p] + [n] + list[p..], at) && NoDup(list[..p] + [n] + list[p..])
    ensures forall x :: x in list[..p] + [n] + list[p..] <==> x in list || x == n
  {
    hide TvDiff, Exact, NoDup;
    InsertNoDup(list, p, n);
    var now := list[..p] + [n] + list[p..];
    forall i | 0 <= i < |now| ensures now[i] in at {
      InsertedAt(list, p, n, i);
    }
    forall i, j | 0 <= i < j < |now| ensures Exact(at[now[i]].time) < Exact(at[now[j]].time) + MILLI {
      InsertPair(list, at, n, p, i, j);
    }
  }

  lemma {:induction false} RemoveNearly(list: seq<Ptr>, at: map<Ptr, Timer>, p: nat)
    requires Nearly(list, at) && NoDup(list) && p < |list|
    ensures Nearly(list[..p] + list[p + 1..], at) && NoDup(list[..p] + list[p + 1..])
    ensures forall x :: x in list[..p] + list[p + 1..] <==> x in list && x != list[p]
  {
    hide Exact;
    var now := list[..p] + list[p + 1..];
    assert list == list[..p] + [list[p]] + list[p + 1..];
    forall i, j | 0 <= i < j < |now|
      ensures Exact(at[now[i]].time) < Exact(at[now[j]].time) + MILLI && now[i] != now[j] {
      assert now[i] == list[if i < p then i else i + 1] && now[j] == list[if j < p then j else j + 1];
    }
  }

  /** If the first timer is not due, none is overdue by a millisecond or more. */
  lemma {:induction false} FirstSuffices(list: seq<Ptr>, at: map<Ptr, Timer>, now: Time)
    requires Nearly(list, at) && list != [] && TvDiff(at[list[0]].time, now) > 0
    ensures NoneOverdue(list, at, now)
  {
    hide TvDiff, Exact;
    TvDiffBounds(at[list[0]].time, now);
  }

  ghost predicate NoneOverdue(list: seq<Ptr>, at: map<Ptr, Timer>, now: Time) {
    forall i :: 0 <= i < |list| ==> list[i] in at && Exact(now) < Exact(at[list[i]].time) + MILLI
  }

  /** The timers; t of an operation is any timer, pending or not. */
  class TimerQueue {
    var timeouts: seq<Ptr>
    var at: map<Ptr, Timer>

    ghost predicate Valid()
      reads this
    {
      && Nearly(timeouts, at) && NoDup(timeouts)
      && (forall t :: t in at ==> (at[t].pending <==> t in timeouts))
    }

    constructor (timers: set<Ptr>)
      ensures Valid() && timeouts == [] && at.Keys == timers
    {
      timeouts := [];
      at := map t | t in timers :: Timer(Time(0, 0), false);
    }

    /** uloop_timeout_add */
    method Add(t: Ptr) returns (r: int)
      requires Valid() && t in at
      modifies this
      ensures Valid() && r == if old(at)[t].pending then -1 else 0
      ensures r < 0 ==> timeouts == old(timeouts) && at == old(at)
      ensures r == 0 ==> at == old(at)[t := old(at)[t].(pending := true)]
      ensures r == 0 ==>
                exists p ::
                  Position(old(timeouts), old(at), at[t].time, p)
                  && timeouts == old(timeouts)[..p] + [t] + old(timeouts)[p..]
    {
      hide TvDiff, Exact;
      if at[t].pending {
        return -1;
      }
      var h := 0;
      while h < |timeouts|
        invariant 0 <= h <= |timeouts|
        invariant forall i :: 0 <= i < h ==> TvDiff(at[timeouts[i]].time, at[t].time) <= 0
      {
        if TvDiff(at[timeouts[h]].time, at[t].time) > 0 {
          break;
        }
        h := h + 1;
      }
      assert Position(timeouts, at, at[t].time, h);
      InsertNearly(timeouts, at, t, h);
      timeouts := timeouts[..h] + [t] + timeouts[h..];
      at := at[t := at[t].(pending := true)];
      return 0;
    }

    /** uloop_timeout_cancel */
    method Cancel(t: Ptr) returns (r: int)
      requires Valid() && t in at
      modifies this
      ensures Valid() && r == if old(at)[t].pending then 0 else -1
      ensures at == if r == 0 then old(at)[t := old(at)[t].(pending := false)] else old(at)
      ensures r == 0 ==>
                exists p ::
                  0 <= p < |old(timeouts)| && old(timeouts)[p] == t
                  && timeouts == old(timeouts)[..p] + old(timeouts)[p + 1..]
      ensures r < 0 ==> timeouts == old(timeouts)
    {
      hide TvDiff, Exact;
      if !at[t].pending {
        return -1;
      }
      var p := 0;
      while timeouts[p] != t
        invariant 0 <= p < |timeouts| && forall i :: 0 <= i < p ==> timeouts[i] != t
        decreases |timeouts| - p
      {
        p := p + 1;
      }
      RemoveNearly(timeouts, at, p);
      timeouts := timeouts[..p] + timeouts[p + 1..];
      at := at[t := at[t].(pending := false)];
      return 0;
    }

    /** uloop_timeout_set at time now: the timer is pending for msecs milliseconds later,
        whatever it was before; a full second of microseconds is not carried over if it is
        exactly one. */
    method Set(t: Ptr, msecs: int, now: Time) returns (r: int)
      requires Valid() && t in at && 0 <= now.usec < MICRO
      modifies this
      ensures Valid() && r == 0 && at.Keys == old(at).Keys && at[t].pending && t in timeouts
      ensures Exact(at[t].time) == Exact(now) + MILLI * msecs
      ensures msecs >= 0 ==> 0 <= at[t].time.usec <= MICRO
      ensures forall x :: x in at && x != t ==> at[x] == old(at)[x]
    {
      if at[t].pending {
        var c := Cancel(t);
      }
      var time := now;
      time := time.(sec := time.sec + Div(msecs, 1000));
      time := time.(usec := time.usec + Mod(msecs, 1000) * 1000);
      if time.usec > 1000000 {
        time := time.(sec := time.sec + 1);
        time := time.(usec := time.usec - 1000000);
      }
      DivBounds(msecs);
      at := at[t := at[t].(time := time)];
      r := Add(t);
    }

    /** uloop_timeout_remaining64 */
    method Remaining(t: Ptr, now: Time) returns (ms: int)
      requires t in at
      ensures !at[t].pending ==> ms == -1
      ensures at[t].pending ==> -MILLI < Exact(at[t].time) - Exact(now) - MILLI * ms < MILLI
    {
      if !at[t].pending {
        return -1;
      }
      TvDiffBounds(at[t].time, now);
      return TvDiff(at[t].time, now);
    }

    /** uloop_get_next_timeout: no timer at all, or how long to sleep; then no timer becomes due
        two milliseconds or more before that. */
    method GetNextTimeout(now: Time) returns (ms: int)
      requires Valid()
      ensures ms == -1 <==> timeouts == []
      ensures -1 <= ms <= INT_MAX
      ensures ms > 0 ==>
                forall i :: 0 <= i < |timeouts| ==> Exact(at[timeouts[i]].time) > Exact(now) + MILLI * ms - 2 * MILLI
      ensures timeouts != [] && ms == 0 ==> Exact(at[timeouts[0]].time) < Exact(now) + MILLI
      ensures 0 < ms < INT_MAX ==> Exact(at[timeouts[0]].time) < Exact(now) + MILLI * ms + MILLI
    {
      hide TvDiff, Exact;
      if timeouts == [] {
        return -1;
      }
      var diff := TvDiff(at[timeouts[0]].time, now);
      TvDiffBounds(at[timeouts[0]].time, now);
      if diff < 0 {
        return 0;
      }
      if diff > INT_MAX {
        return INT_MAX;
      }
      return diff;
    }

    /** One round of the loop of uloop_process_timeouts with the time sampled at its start: the
        timer whose callback is to be called, or that the pass is over. Callbacks add, set and
        cancel timers between two rounds. A timer that fires is less than a millisecond early;
        when the pass is over none is overdue by a millisecond. */
    method ProcessNext(now: Time) returns (fired: bool, t: Ptr)
      requires Valid()
      modifies this
      ensures Valid() && at.Keys == old(at).Keys
      ensures !fired ==> NoneOverdue(timeouts, at, now) && timeouts == old(timeouts) && at == old(at)
      ensures fired ==> old(timeouts) != [] && t == old(timeouts)[0] && timeouts == old(timeouts)[1..]
      ensures fired ==> at == old(at)[t := old(at)[t].(pending := false)] && Exact(at[t].time) < Exact(now) + MILLI
    {
      hide TvDiff, Exact;
      if timeouts == [] {
        return false, 0;
      }
      t := timeouts[0];
      TvDiffBounds(at[t].time, now);
      if TvDiff(at[t].time, now) > 0 {
        FirstSuffices(timeouts, at, now);
        return false, t;
      }
      var r := Cancel(t);
      assert old(timeouts)[..0] + old(timeouts)[1..] == old(timeouts)[1..];
      return true, t;
    }
  }
}
