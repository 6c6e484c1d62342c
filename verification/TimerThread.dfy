/** threadutil/src/TimerThread.c: the queue of timed events. Every function holds
    the timer's mutex from start to end, so each call is one step; for the worker a
    step is one round of its loop. */
module TimerThread {
  import opened Wrappers

  // EOUTOFMEM and INVALID_EVENT_ID: the same number.
  const FAILED := 0x2000_0000

  /** A ThreadPoolJob as the timer sees it; NULL is an argument of 0. */
  datatype Work = Work(arg: nat, hasFree: bool)

  datatype Event = Event(id: int, time: int, persistent: bool, work: Work)

  /** What has become of an event id. */
  datatype Fate =
    | Pending
    | HandedOver                // the pool took the job
    | PoolRefused(freed: bool)  // it did not; was its argument released?
    | Taken                     // returned by TimerThreadRemove
    | Discarded(freed: bool)    // dropped by TimerThreadShutdown
    | NeverQueued               // no list node; the id is used up all the same

  /** `fates` is a history; no decision looks at it. */
  datatype Timer = Timer(eventQ: seq<Event>, lastEventId: int, shutdown: bool, running: bool, fates: map<int, Fate>)

  const FRESH := Timer([], 0, false, true, map[])

  // ----- the functions

  /** CalculateEventTime: a relative time counts from now. */
  function EventTime(timeout: int, relative: bool, now: int): int {
    if relative then timeout + now else timeout
  }

  /** Before the first event that is not earlier. */
  function Insert(q: seq<Event>, e: Event): seq<Event> {
    if q == [] then [e]
    else if q[0].time >= e.time then [e] + q
    else [q[0]] + Insert(q[1..], e)
  }

  /** TimerThreadSchedule; also the code and the id it gives back. */
  function Scheduled(t: Timer, e: Event, recordAlloc: bool, nodeAlloc: bool): (Timer, int, int) {
    if !recordAlloc then (t, FAILED, FAILED)
    else
      var f := e.(id := t.lastEventId);
      var u := t.(lastEventId := t.lastEventId + 1,
                  fates := t.fates[f.id := if nodeAlloc then Pending else NeverQueued]);
      if nodeAlloc then (u.(eventQ := Insert(t.eventQ, f)), 0, f.id) else (u, FAILED, f.id)
  }

  /** The first event with the id, or the length. */
  function FindEvent(q: seq<Event>, id: int): (i: nat)
    ensures i <= |q| && (i < |q| ==> q[i].id == id)
    ensures forall k :: 0 <= k < i ==> q[k].id != id
  {
    if q == [] || q[0].id == id then 0 else 1 + FindEvent(q[1..], id)
  }

  /** TimerThreadRemove: its code, and the job if it found one. */
  function Removed(t: Timer, id: int): (Timer, int, Option<Work>) {
    var i := FindEvent(t.eventQ, id);
    if i == |t.eventQ| then (t, FAILED, None)
    else (t.(eventQ := t.eventQ[..i] + t.eventQ[i + 1..], fates := t.fates[id := Taken]), 0, Some(t.eventQ[i].work))
  }

  /** What a round of the worker ended with. */
  datatype Round =
    | Exit
    | Dispatch(e: Event, released: bool)
    | WaitUntil(time: int)
    | WaitForSignal

  /** One round of TimerThreadWorker; `accepted` is whether the pool took the job. */
  function Worked(t: Timer, now: int, accepted: bool): (Timer, Round) {
    if t.shutdown then (t.(shutdown := false, running := false), Exit)
    else if t.eventQ == [] then (t, WaitForSignal)
    else
      var e := t.eventQ[0];
      if now < e.time then (t, WaitUntil(e.time))
      else
        var released := !accepted && e.work.arg != 0 && e.work.hasFree;
        (t.(eventQ := t.eventQ[1..], fates := t.fates[e.id := if accepted then HandedOver else PoolRefused(released)]),
         Dispatch(e, released))
  }

  function DiscardAll(q: seq<Event>, fates: map<int, Fate>): map<int, Fate> {
    if q == [] then fates else DiscardAll(q[1..], fates[q[0].id := Discarded(q[0].work.hasFree)])
  }

  /** TimerThreadShutdown up to its wait. */
  function ShutDown(t: Timer): Timer {
    t.(eventQ := [], shutdown := true, fates := DiscardAll(t.eventQ, t.fates))
  }

  // ----- the class

  class TimerThread {
    var eventQ: seq<Event>
    var lastEventId: int
    var shutdown: bool
    ghost var running: bool
    ghost var fates: map<int, Fate>

    ghost function View(): Timer
      reads this
    {
      Timer(eventQ, lastEventId, shutdown, running, fates)
    }

    /** The queue is strictly ordered, and holds just the events that are pending. */
    ghost predicate Valid()
      reads this
    {
      Inv(View())
    }

    constructor ()
      ensures Valid() && View() == FRESH
    {
      eventQ, lastEventId, shutdown := [], 0, false;
      running, fates := true, map[];
    }

    /** The search for the place of an event: before the first that is not earlier. */
    method Place(e: Event) returns (i: nat)
      ensures i <= |eventQ| && Insert(eventQ, e) == eventQ[..i] + [e] + eventQ[i..]
    {
      i := 0;
      while i < |eventQ| && eventQ[i].time < e.time
        invariant i <= |eventQ|
        invariant forall k :: 0 <= k < i ==> eventQ[k].time < e.time
      {
        i := i + 1;
      }
      InsertHere(eventQ, e, i);
    }

    method Schedule(timeout: int, relative: bool, now: int, work: Work, persistent: bool,
                    recordAlloc: bool, nodeAlloc: bool)
      returns (rc: int, id: int)
      modifies this
      ensures (View(), rc, id) ==
              Scheduled(old(View()), Event(0, EventTime(timeout, relative, now), persistent, work),
                        recordAlloc, nodeAlloc)
      ensures old(Valid()) ==> Valid()
      ensures rc == 0 <==> recordAlloc && nodeAlloc
      ensures rc == 0 ==> id == old(lastEventId)
      ensures rc == 0 ==>
                var e := Event(id, if relative then now + timeout else timeout, persistent, work);
                multiset(eventQ) == multiset(old(eventQ)) + multiset{e}
      ensures rc != 0 ==> eventQ == old(eventQ)
    {
      hide Inv, Insert;
      InsertBag(eventQ, Event(lastEventId, EventTime(timeout, relative, now), persistent, work));
      ScheduledIfInv(View(), Event(0, EventTime(timeout, relative, now), persistent, work), recordAlloc, nodeAlloc);
      var time := if relative then timeout + now else timeout;
      if !recordAlloc {
        return FAILED, FAILED;
      }
      var e := Event(lastEventId, time, persistent, work);
      rc := FAILED;
      var i := Place(e);
      if nodeAlloc {
        rc := 0;
        eventQ := eventQ[..i] + [e] + eventQ[i..];
      }
      fates := fates[e.id := if nodeAlloc then Pending else NeverQueued];
      id := lastEventId;
      lastEventId := lastEventId + 1;
    }

    method Remove(id: int) returns (rc: int, out: Option<Work>)
      modifies this
      ensures (View(), rc, out) == Removed(old(View()), id)
      ensures rc == 0 <==> InQueue(old(eventQ), id)
      ensures if rc == 0 then
                exists e :: e in old(eventQ) && e.id == id && out == Some(e.work)
                            && multiset(old(eventQ)) == multiset(eventQ) + multiset{e}
              else out == None && eventQ == old(eventQ)
      ensures old(Valid()) ==> Valid() && (rc == 0 <==> id in old(fates) && old(fates)[id] == Pending)
    {
      hide Inv, InQueue;
      ghost var before := View();
      if Inv(before) {
        RemovedInv(before, id);
        RemoveAnswers(before, id);
      }
      FoundInQueue(eventQ, id);
      rc, out := FAILED, None;
      var i := Find(id);
      if i < |eventQ| {
        WithoutBag(eventQ, i);
        rc, out := 0, Some(eventQ[i].work);
        eventQ := eventQ[..i] + eventQ[i + 1..];
        fates := fates[id := Taken];
      }
    }

    /** The search for an id. */
    method Find(id: int) returns (i: nat)
      ensures i == FindEvent(eventQ, id)
    {
      i := 0;
      while i < |eventQ| && eventQ[i].id != id
        invariant i <= |eventQ|
        invariant forall k :: 0 <= k < i ==> eventQ[k].id != id
      {
        i := i + 1;
      }
    }

    /** One round of TimerThreadWorker; `accepted` is what the pool would answer. */
    method WorkerRound(now: int, accepted: bool) returns (r: Round)
      requires Valid()
      modifies this
      ensures Valid() && (View(), r) == Worked(old(View()), now, accepted)
      ensures r.Exit? <==> old(shutdown)
      ensures r.Dispatch? <==> !old(shutdown) && exists e :: e in old(eventQ) && e.time <= now
      ensures r.Dispatch? ==>
                && r.e.time <= now && old(fates)[r.e.id] == Pending
                && old(eventQ) == [r.e] + eventQ
                && fates == old(fates)[r.e.id := if accepted then HandedOver else PoolRefused(r.released)]
                && r.released == (!accepted && r.e.work.arg != 0 && r.e.work.hasFree)
      ensures !r.Dispatch? ==> eventQ == old(eventQ) && fates == old(fates)
      ensures r.WaitUntil? ==> forall e :: e in eventQ ==> now < r.time <= e.time
    {
      ghost var before := View();
      WorkedInv(before, now, accepted);
      WorkerIsPunctual(before, now, accepted);
      assert eventQ != [] ==> eventQ[0] in eventQ && eventQ == [eventQ[0]] + eventQ[1..];
      assert forall e :: e in eventQ ==> eventQ[0].time <= e.time by { HeadIsFirst(before); }
      hide Inv;
      if shutdown {
        shutdown := false;
        running := false;
        return Exit;
      }
      if |eventQ| == 0 {
        return WaitForSignal;
      }
      var next := eventQ[0];
      if now >= next.time {
        var released := false;
        if !accepted && next.work.arg != 0 && next.work.hasFree {
          released := true;
        }
        eventQ := eventQ[1..];
        fates := fates[next.id := if accepted then HandedOver else PoolRefused(released)];
        return Dispatch(next, released);
      }
      r := WaitUntil(next.time);
    }

    /** Up to the wait; returns the arguments given to free_func, in order. */
    method Shutdown() returns (calls: seq<nat>)
      modifies this
      ensures View() == ShutDown(old(View()))
      ensures calls == FreedArgs(old(eventQ)) && eventQ == [] && shutdown
      ensures old(Valid()) ==> Valid()
    {
      hide Inv, DiscardAll;
      ghost var before := View();
      if Inv(before) { ShutDownInv(before); }
      ghost var q := eventQ;
      fates := DiscardAll(eventQ, fates);
      shutdown := true;
      calls := [];
      while eventQ != []
        invariant shutdown && lastEventId == old(lastEventId) && running == old(running)
        invariant fates == DiscardAll(q, old(fates))
        invariant FreedArgs(q) == calls + FreedArgs(eventQ)
        decreases |eventQ|
      {
        var e := eventQ[0];
        ghost var rest := FreedArgs(eventQ[1..]);
        assert calls + (ArgOf(e) + rest) == calls + ArgOf(e) + rest;
        eventQ := eventQ[1..];
        if e.work.hasFree {
          calls := calls + [e.work.arg];
        }
      }
    }
  }

  function FreedArgs(q: seq<Event>): seq<nat> {
    if q == [] then []
    else ArgOf(q[0]) + FreedArgs(q[1..])
  }

  function ArgOf(e: Event): seq<nat> {
    if e.work.hasFree then [e.work.arg] else []
  }

  /** One call for each event that has a free_func, with its argument, in order. */
  lemma {:induction false} FreedArgsIs(q: seq<Event>, e: Event)
    ensures FreedArgs([]) == []
    ensures FreedArgs(q + [e]) == FreedArgs(q) + (if e.work.hasFree then [e.work.arg] else [])
    decreases |q|
  {
    if q == [] {
      assert q + [e] == [e] && [e][1..] == [];
    } else {
      var (first, last) := (ArgOf(q[0]), ArgOf(e));
      assert (q + [e])[1..] == q[1..] + [e] && (q + [e])[0] == q[0];
      FreedArgsIs(q[1..], e);
      assert first + (FreedArgs(q[1..]) + last) == first + FreedArgs(q[1..]) + last;
    }
  }

  // ----- what every step keeps

  /** Earlier events first, and of two at the same time the one scheduled later. */
  predicate Before(a: Event, b: Event) {
    a.time < b.time || (a.time == b.time && a.id > b.id)
  }

  ghost predicate Ordered(q: seq<Event>) {
    forall i, j :: 0 <= i < j < |q| ==> Before(q[i], q[j])
  }

  ghost predicate DistinctIds(q: seq<Event>) {
    forall i, j :: 0 <= i < j < |q| ==> q[i].id != q[j].id
  }

  ghost predicate InQueue(q: seq<Event>, id: int) {
    exists k :: 0 <= k < |q| && q[k].id == id
  }

  /** The ids given out so far have a fate, and the pending ones are in the queue. */
  ghost predicate Tracked(q: seq<Event>, lastEventId: int, fates: map<int, Fate>) {
    && 0 <= lastEventId
    && (forall id :: id in fates <==> 0 <= id < lastEventId)
    && (forall id :: InQueue(q, id) <==> id in fates && fates[id] == Pending)
  }

  /** The queue is ordered, and the events in it are the ids that are pending. */
  ghost predicate Inv(t: Timer) {
    Ordered(t.eventQ) && DistinctIds(t.eventQ) && Tracked(t.eventQ, t.lastEventId, t.fates)
  }

  lemma {:induction false} InsertSplits(q: seq<Event>, e: Event) returns (i: nat)
    ensures i <= |q| && Insert(q, e) == q[..i] + [e] + q[i..]
    ensures forall k :: 0 <= k < i ==> q[k].time < e.time
    ensures i < |q| ==> q[i].time >= e.time
  {
    if q == [] || q[0].time >= e.time {
      i := 0;
    } else {
      var j := InsertSplits(q[1..], e);
      i := j + 1;
      assert q[..i] == [q[0]] + q[1..][..j];
    }
  }

  lemma FoundInQueue(q: seq<Event>, id: int)
    ensures FindEvent(q, id) < |q| <==> InQueue(q, id)
  {
    var i := FindEvent(q, id);
    if InQueue(q, id) {
      var k :| 0 <= k < |q| && q[k].id == id;
      assert !(k < i);
    }
  }

  lemma WithoutBag(q: seq<Event>, i: nat)
    requires i < |q|
    ensures multiset(q) == multiset(q[..i] + q[i + 1..]) + multiset{q[i]}
  {
    assert q == q[..i] + [q[i]] + q[i + 1..];
  }

  lemma {:induction false} InsertHere(q: seq<Event>, e: Event, i: nat)
    requires i <= |q| && (forall k :: 0 <= k < i ==> q[k].time < e.time) && (i < |q| ==> q[i].time >= e.time)
    ensures Insert(q, e) == q[..i] + [e] + q[i..]
    decreases i
  {
    if i > 0 {
      InsertHere(q[1..], e, i - 1);
      assert q[..i] == [q[0]] + q[1..][..i - 1];
    }
  }

  lemma InsertBag(q: seq<Event>, e: Event)
    ensures multiset(Insert(q, e)) == multiset(q) + multiset{e}
  {
    hide Insert;
    var i := InsertSplits(q, e);
    assert q == q[..i] + q[i..];
  }

  lemma InsertOrdered(q: seq<Event>, e: Event)
    requires Ordered(q) && forall k :: 0 <= k < |q| ==> q[k].id < e.id
    ensures Ordered(Insert(q, e))
  {
    var i := InsertSplits(q, e);
    hide Insert;
  }

  lemma InsertDistinct(q: seq<Event>, e: Event)
    requires DistinctIds(q) && forall k :: 0 <= k < |q| ==> q[k].id < e.id
    ensures DistinctIds(Insert(q, e))
  {
    var i := InsertSplits(q, e);
    hide Insert;
  }

  lemma InsertMember(q: seq<Event>, e: Event, id: int)
    ensures InQueue(Insert(q, e), id) <==> id == e.id || InQueue(q, id)
  {
    var i := InsertSplits(q, e);
    hide Insert;
    var r := Insert(q, e);
    assert r[i] == e;
    if InQueue(q, id) {
      var k :| 0 <= k < |q| && q[k].id == id;
      assert r[if k < i then k else k + 1].id == id;
    }
  }

  lemma ScheduledInv(t: Timer, e: Event, recordAlloc: bool, nodeAlloc: bool)
    requires Inv(t)
    ensures Inv(Scheduled(t, e, recordAlloc, nodeAlloc).0)
  {
    hide InQueue, Insert;
    forall k | 0 <= k < |t.eventQ| ensures t.eventQ[k].id < t.lastEventId {
      HasMember(t.eventQ, k);
    }
    var f := e.(id := t.lastEventId);
    InsertOrdered(t.eventQ, f);
    InsertDistinct(t.eventQ, f);
    forall id {
      InsertMember(t.eventQ, f, id);
    }
  }

  lemma ScheduledIfInv(t: Timer, e: Event, recordAlloc: bool, nodeAlloc: bool)
    ensures Inv(t) ==> Inv(Scheduled(t, e, recordAlloc, nodeAlloc).0)
  {
    if Inv(t) {
      ScheduledInv(t, e, recordAlloc, nodeAlloc);
    }
  }

  lemma HasMember(q: seq<Event>, k: nat)
    requires k < |q|
    ensures InQueue(q, q[k].id)
  {
  }

  function Without(q: seq<Event>, i: nat): seq<Event>
    requires i < |q|
  {
    q[..i] + q[i + 1..]
  }

  lemma WithoutKeeps(q: seq<Event>, i: nat)
    requires i < |q| && Ordered(q) && DistinctIds(q)
    ensures Ordered(Without(q, i)) && DistinctIds(Without(q, i))
  {
  }

  lemma WithoutMember(q: seq<Event>, i: nat, id: int)
    requires i < |q| && DistinctIds(q)
    ensures InQueue(Without(q, i), id) <==> InQueue(q, id) && id != q[i].id
  {
    var r := Without(q, i);
    if InQueue(q, id) && id != q[i].id {
      var k :| 0 <= k < |q| && q[k].id == id;
      assert r[if k < i then k else k - 1].id == id;
    }
  }

  lemma DroppedInv(t: Timer, i: nat, fate: Fate)
    requires Inv(t) && i < |t.eventQ| && fate != Pending
    ensures Inv(t.(eventQ := Without(t.eventQ, i), fates := t.fates[t.eventQ[i].id := fate]))
  {
    hide InQueue, Without;
    HasMember(t.eventQ, i);
    WithoutKeeps(t.eventQ, i);
    forall id {
      WithoutMember(t.eventQ, i, id);
    }
  }

  lemma RemovedInv(t: Timer, id: int)
    requires Inv(t)
    ensures Inv(Removed(t, id).0)
  {
    hide Inv;
    var i := FindEvent(t.eventQ, id);
    if i < |t.eventQ| {
      DroppedInv(t, i, Taken);
    }
  }

  lemma WorkedInv(t: Timer, now: int, accepted: bool)
    requires Inv(t)
    ensures Inv(Worked(t, now, accepted).0)
  {
    var (u, r) := Worked(t, now, accepted);
    if r.Dispatch? {
      hide Inv;
      assert Without(t.eventQ, 0) == t.eventQ[1..];
      DroppedInv(t, 0, u.fates[r.e.id]);
    }
  }

  lemma {:induction false} DiscardAllFates(q: seq<Event>, fates: map<int, Fate>, id: int)
    requires DistinctIds(q)
    ensures id in DiscardAll(q, fates) <==> id in fates || InQueue(q, id)
    ensures !InQueue(q, id) && id in fates ==> DiscardAll(q, fates)[id] == fates[id]
    ensures forall k :: 0 <= k < |q| && q[k].id == id ==> DiscardAll(q, fates)[id] == Discarded(q[k].work.hasFree)
  {
    if q != [] {
      assert Without(q, 0) == q[1..];
      WithoutMember(q, 0, id);
      DiscardAllFates(q[1..], fates[q[0].id := Discarded(q[0].work.hasFree)], id);
      HasMember(q, 0);
    }
  }

  lemma ShutDownInv(t: Timer)
    requires Inv(t)
    ensures Inv(ShutDown(t))
  {
    hide DiscardAll;
    forall id {
      DiscardAllFates(t.eventQ, t.fates, id);
    }
  }

  /** TimerThreadShutdown drops every pending event, and releases its argument just
      when it has a free_func. */
  lemma ShutdownDiscardsPending(t: Timer, id: int)
    requires Inv(t) && id in t.fates
    ensures var u := ShutDown(t);
            && id in u.fates && u.eventQ == []
            && (t.fates[id] != Pending ==> u.fates[id] == t.fates[id])
            && (forall k :: 0 <= k < |t.eventQ| && t.eventQ[k].id == id ==>
                  u.fates[id] == Discarded(t.eventQ[k].work.hasFree))
            && u.fates[id] != Pending
  {
    hide DiscardAll;
    DiscardAllFates(t.eventQ, t.fates, id);
  }

  lemma HeadIsFirst(t: Timer)
    requires Inv(t)
    ensures forall e :: e in t.eventQ ==> t.eventQ[0].time <= e.time
  {
  }

  // ----- runs

  datatype Call =
    | CallSchedule(e: Event, recordAlloc: bool, nodeAlloc: bool)
    | CallRemove(id: int)
    | CallWorker(now: int, accepted: bool)
    | CallShutdown

  function Next(t: Timer, c: Call): Timer {
    match c
    case CallSchedule(e, recordAlloc, nodeAlloc) => Scheduled(t, e, recordAlloc, nodeAlloc).0
    case CallRemove(id) => Removed(t, id).0
    case CallWorker(now, accepted) => if t.running then Worked(t, now, accepted).0 else t
    case CallShutdown => ShutDown(t)
  }

  function Run(t: Timer, cs: seq<Call>): Timer
    decreases |cs|
  {
    if cs == [] then t else Run(Next(t, cs[0]), cs[1..])
  }

  lemma NextInv(t: Timer, c: Call)
    requires Inv(t)
    ensures Inv(Next(t, c))
  {
    hide Inv, Scheduled, Removed, Worked, ShutDown;
    match c
    case CallSchedule(e, recordAlloc, nodeAlloc) => ScheduledInv(t, e, recordAlloc, nodeAlloc);
    case CallRemove(id) => RemovedInv(t, id);
    case CallWorker(now, accepted) => WorkedInv(t, now, accepted);
    case CallShutdown => ShutDownInv(t);
  }

  /** In every reachable state the queue is strictly ordered and holds exactly the
      pending ids. */
  lemma {:induction false} RunInv(t: Timer, cs: seq<Call>)
    requires Inv(t)
    ensures Inv(Run(t, cs))
    decreases |cs|
  {
    hide Inv, Next;
    if cs != [] {
      NextInv(t, cs[0]);
      RunInv(Next(t, cs[0]), cs[1..]);
    }
  }

  /** The worker never dispatches an event before its time, and what it dispatches
      was pending; when it blocks, nothing in the whole queue is due at the clock
      value it has just read, and it will not oversleep the next event. */
  lemma WorkerIsPunctual(t: Timer, now: int, accepted: bool)
    requires Inv(t)
    ensures var (u, r) := Worked(t, now, accepted);
            match r
            case Dispatch(e, released) =>
              && e.time <= now && t.fates[e.id] == Pending
              && u.fates[e.id] == (if accepted then HandedOver else PoolRefused(e.work.arg != 0 && e.work.hasFree))
              && (forall k :: 0 <= k < |t.eventQ| ==> e.time <= t.eventQ[k].time)
            case WaitUntil(time) =>
              && u == t && (forall k :: 0 <= k < |t.eventQ| ==> now < time <= t.eventQ[k].time)
            case WaitForSignal => u == t && t.eventQ == []
            case Exit => t.shutdown && !u.running
  {
    if t.eventQ != [] {
      assert InQueue(t.eventQ, t.eventQ[0].id);
    }
  }

  /** TimerThreadRemove returns 0 if and only if the id is pending. */
  lemma RemoveAnswers(t: Timer, id: int)
    requires Inv(t)
    ensures var (u, rc, out) := Removed(t, id);
            && (rc == 0 <==> id in t.fates && t.fates[id] == Pending)
            && (rc == 0 <==> out.Some?)
            && (rc == 0 ==>
                  && u.fates == t.fates[id := Taken]
                  && exists k :: 0 <= k < |t.eventQ| && t.eventQ[k].id == id && out == Some(t.eventQ[k].work))
            && (rc != 0 ==> u == t)
  {
    var i := FindEvent(t.eventQ, id);
    if i < |t.eventQ| {
      assert InQueue(t.eventQ, id);
    }
  }

  /** A fate other than pending is for good, and an id once given out stays given
      out: a removed event is never dispatched, a dispatched one never again. */
  lemma NextKeepsFates(t: Timer, c: Call, id: int)
    requires Inv(t) && id in t.fates && t.fates[id] != Pending
    ensures id in Next(t, c).fates && Next(t, c).fates[id] == t.fates[id]
  {
    hide DiscardAll, Insert;
    DiscardAllFates(t.eventQ, t.fates, id);
    if c.CallRemove? {
      var i := FindEvent(t.eventQ, c.id);
      if i < |t.eventQ| {
        HasMember(t.eventQ, i);
      }
    } else if c.CallWorker? && t.eventQ != [] {
      HasMember(t.eventQ, 0);
    }
  }

  lemma {:induction false} FatesAreFinal(t: Timer, cs: seq<Call>, id: int)
    requires Inv(t) && id in t.fates && t.fates[id] != Pending
    ensures id in Run(t, cs).fates && Run(t, cs).fates[id] == t.fates[id]
    decreases |cs|
  {
    hide Inv, Next;
    if cs != [] {
      NextKeepsFates(t, cs[0], id);
      NextInv(t, cs[0]);
      FatesAreFinal(Next(t, cs[0]), cs[1..], id);
    }
  }

  /** An id that TimerThreadSchedule gives out was never given out before. */
  lemma IdsAreFresh(cs: seq<Call>, e: Event, recordAlloc: bool, nodeAlloc: bool)
    ensures var t := Run(FRESH, cs);
            var (u, rc, id) := Scheduled(t, e, recordAlloc, nodeAlloc);
            if recordAlloc then
              id !in t.fates && u.fates.Keys == t.fates.Keys + {id} && (rc == 0 <==> u.fates[id] == Pending)
            else u == t && rc != 0
  {
    RunInv(FRESH, cs);
  }

  // ----- a burst of rounds

  /** The rounds of the worker at one clock value, until it blocks. */
  function Burst(t: Timer, now: int, accepted: bool): (Timer, seq<Event>)
    decreases |t.eventQ|
  {
    var (u, r) := Worked(t, now, accepted);
    if r.Dispatch? then
      var (v, es) := Burst(u, now, accepted);
      (v, [r.e] + es)
    else (u, [])
  }

  lemma DispatchesHead(t: Timer, now: int, accepted: bool)
    requires Worked(t, now, accepted).1.Dispatch?
    ensures var (u, r) := Worked(t, now, accepted);
            u.shutdown == t.shutdown && t.eventQ == [r.e] + u.eventQ
  {
  }

  /** A worker that is awake dispatches exactly the events that are due, in order,
      before it blocks. */
  lemma {:induction false} BurstDispatchesWhatIsDue(t: Timer, now: int, accepted: bool)
    requires Inv(t) && !t.shutdown
    ensures var (u, es) := Burst(t, now, accepted);
            && t.eventQ == es + u.eventQ
            && (forall k :: 0 <= k < |es| ==> es[k].time <= now)
            && (forall k :: 0 <= k < |u.eventQ| ==> now < u.eventQ[k].time)
    decreases |t.eventQ|
  {
    WorkerIsPunctual(t, now, accepted);
    WorkedInv(t, now, accepted);
    hide Inv;
    var (u, r) := Worked(t, now, accepted);
    if r.Dispatch? {
      DispatchesHead(t, now, accepted);
      BurstDispatchesWhatIsDue(u, now, accepted);
      hide Worked;
      var (v, es) := Burst(u, now, accepted);
      assert Burst(t, now, accepted) == (v, [r.e] + es);
      assert t.eventQ == [r.e] + (es + v.eventQ);
    }
  }
}
