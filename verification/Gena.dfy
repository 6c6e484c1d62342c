/** The control point's subscriptions (upnp/src/gena/gena_ctrlpt.c and
    upnp/src/genlib/client_table/client_table.c) and their renewal events in the
    timer queue. What runs under the handle lock is one step; the exchange with the
    device, for which the lock is released, lies between two steps. The timer's
    worker does not take the handle lock, but whether it dispatches an event just
    before or just after the id is recorded in the list leaves the same state. */
module Gena {
  import opened T = TimerThread
  import opened Wrappers

  const AUTO_RENEW_TIME := 10
  const UPNP_INFINITE := -1
  const UPNP_E_OUTOF_MEMORY := -104
  const GENA_E_BAD_SID := -109

  /** A ClientSubscription without its event URL. */
  datatype Sub = Sub(sid: string, actualSid: string, renewEventId: int)

  /** The list, the timer, and a history: the SID in each renewal event that was
      scheduled, and the SIDs that were ever listed. */
  datatype State = State(subs: seq<Sub>, timer: Timer, renewals: map<int, string>, used: set<string>)

  /** Whether the mallocs of ScheduleGenaAutoRenew and those of the timer succeed. */
  datatype Memory = Memory(event: bool, record: bool, node: bool)

  const PLENTY := Memory(true, true, true)

  /** What the device answered to a SUBSCRIBE request. */
  datatype Reply = Reply(code: int, actualSid: string, timeOut: int)

  // ----- the functions

  /** GetClientSubClientSID: the first with the SID, or the length. */
  function FindSub(subs: seq<Sub>, sid: string): (i: nat)
    ensures i <= |subs| && (i < |subs| ==> subs[i].sid == sid)
    ensures forall k :: 0 <= k < i ==> subs[k].sid != sid
  {
    if subs == [] || subs[0].sid == sid then 0 else 1 + FindSub(subs[1..], sid)
  }

  /** The part of free_client_subscription that concerns the timer. */
  function FreeEvent(t: Timer, id: int): Timer {
    if id != -1 then Removed(t, id).0 else t
  }

  /** RemoveClientSubClientSID */
  function RemoveSub(s: State, sid: string): State {
    var i := FindSub(s.subs, sid);
    if i == |s.subs| then s
    else s.(subs := s.subs[..i] + s.subs[i + 1..], timer := FreeEvent(s.timer, s.subs[i].renewEventId))
  }

  /** ScheduleGenaAutoRenew for the i-th subscription. */
  function ScheduleAutoRenew(s: State, i: nat, timeOut: int, now: int, m: Memory): (State, int)
    requires i < |s.subs|
  {
    if timeOut == UPNP_INFINITE then (s, 0)
    else if !m.event then (s, UPNP_E_OUTOF_MEMORY)
    else
      var e := Event(0, EventTime(timeOut - AUTO_RENEW_TIME, true, now), false, Work(1, true));
      var (t, rc, id) := Scheduled(s.timer, e, m.record, m.node);
      if rc != 0 then (s.(timer := t), rc)
      else (s.(timer := t, subs := s.subs[i := s.subs[i].(renewEventId := id)],
               renewals := s.renewals[id := s.subs[i].sid]), 0)
  }

  /** genaSubscribe after a successful exchange; the SID is a new UUID. */
  function Subscribed(s: State, sid: string, reply: Reply, now: int): State {
    var t := s.(subs := [Sub(sid, reply.actualSid, -1)] + s.subs, used := s.used + {sid});
    ScheduleAutoRenew(t, 0, reply.timeOut, now, PLENTY).0
  }

  /** genaRenewSubscription up to the exchange. */
  function RenewBegun(s: State, sid: string): (State, int) {
    var i := FindSub(s.subs, sid);
    if i == |s.subs| then (s, GENA_E_BAD_SID)
    else
      (s.(timer := Removed(s.timer, s.subs[i].renewEventId).0,
          subs := s.subs[i := s.subs[i].(renewEventId := -1)]), 0)
  }

  /** genaRenewSubscription after the exchange. */
  function RenewEnded(s: State, sid: string, reply: Reply, now: int, m: Memory): (State, int) {
    if reply.code != 0 then (RemoveSub(s, sid), reply.code)
    else
      var i := FindSub(s.subs, sid);
      if i == |s.subs| then (s, GENA_E_BAD_SID)
      else
        var t := s.(subs := s.subs[i := s.subs[i].(actualSid := reply.actualSid)]);
        var (u, rc) := ScheduleAutoRenew(t, i, reply.timeOut, now, m);
        if rc != 0 then (RemoveSub(u, sid), rc) else (u, 0)
  }

  // ----- the class

  class ControlPoint {
    var clientSubList: seq<Sub>
    const timer: TimerThread
    ghost var renewals: map<int, string>
    ghost var used: set<string>

    ghost function View(): State
      reads this, timer
    {
      State(clientSubList, timer.View(), renewals, used)
    }

    constructor (timer: TimerThread)
      ensures View() == State([], timer.View(), map[], {}) && this.timer == timer
    {
      this.timer := timer;
      clientSubList, renewals, used := [], map[], {};
    }

    /** The search loop of GetClientSubClientSID. */
    method Find(sid: string) returns (i: nat)
      ensures i == FindSub(clientSubList, sid)
    {
      i := 0;
      while i < |clientSubList| && clientSubList[i].sid != sid
        invariant i <= |clientSubList|
        invariant forall k :: 0 <= k < i ==> clientSubList[k].sid != sid
      {
        i := i + 1;
      }
    }

    /** RemoveClientSubClientSID, with freeClientSubList on the one it unlinks. */
    method Remove(sid: string)
      modifies this, timer
      ensures View() == RemoveSub(old(View()), sid)
      ensures var (subs, i) := (old(clientSubList), FindSub(old(clientSubList), sid));
              if i < |subs| then
                clientSubList == subs[..i] + subs[i + 1..]
                && (old(Agreed(View())) ==> forall e :: e in timer.eventQ ==> e.id != subs[i].renewEventId)
              else View() == old(View())
    {
      RemovesEvent(View(), sid);
      var i := Find(sid);
      if i < |clientSubList| {
        var id := clientSubList[i].renewEventId;
        clientSubList := clientSubList[..i] + clientSubList[i + 1..];
        if id != -1 {
          var _, _ := timer.Remove(id);
        }
      }
    }

    method ScheduleGenaAutoRenew(i: nat, timeOut: int, now: int, m: Memory) returns (rc: int)
      requires i < |clientSubList|
      modifies this, timer
      ensures (View(), rc) == ScheduleAutoRenew(old(View()), i, timeOut, now, m)
      ensures timeOut == -1 ==> rc == 0 && View() == old(View())
      ensures timeOut != -1 ==> (rc == 0 <==> m.event && m.record && m.node)
      ensures timeOut != -1 && rc == 0 ==> Renews(View(), i, now + timeOut - 10)
      ensures timeOut != -1 && rc == 0 ==>
                clientSubList == old(clientSubList)[i := old(clientSubList)[i].(renewEventId := old(timer.lastEventId))]
      ensures rc != 0 ==> clientSubList == old(clientSubList) && timer.eventQ == old(timer.eventQ)
    {
      ScheduledRenewal(View(), i, timeOut, now, m);
      hide Scheduled, Renews;
      if timeOut == UPNP_INFINITE {
        return 0;
      }
      if !m.event {
        return UPNP_E_OUTOF_MEMORY;
      }
      var id;
      rc, id := timer.Schedule(timeOut - AUTO_RENEW_TIME, true, now, Work(1, true), false, m.record, m.node);
      if rc != 0 {
        return;
      }
      renewals := renewals[id := clientSubList[i].sid];
      clientSubList := clientSubList[i := clientSubList[i].(renewEventId := id)];
    }

    /** The second locked part of genaSubscribe. */
    method Subscribe(sid: string, reply: Reply, now: int)
      modifies this, timer
      ensures View() == Subscribed(old(View()), sid, reply, now)
      ensures |clientSubList| == |old(clientSubList)| + 1 && clientSubList[1..] == old(clientSubList)
      ensures clientSubList[0].sid == sid && clientSubList[0].actualSid == reply.actualSid
      ensures if reply.timeOut == -1 then clientSubList[0].renewEventId == -1 && timer.View() == old(timer.View())
              else Renews(View(), 0, now + reply.timeOut - 10)
    {
      hide Renews;
      clientSubList := [Sub(sid, reply.actualSid, -1)] + clientSubList;
      used := used + {sid};
      var _ := ScheduleGenaAutoRenew(0, reply.timeOut, now, PLENTY);
    }

    /** The first locked part of genaRenewSubscription. */
    method BeginRenew(sid: string) returns (rc: int)
      modifies this, timer
      ensures (View(), rc) == RenewBegun(old(View()), sid)
      ensures var (subs, i) := (old(clientSubList), FindSub(old(clientSubList), sid));
              if i < |subs| then
                && rc == 0 && clientSubList == subs[i := subs[i].(renewEventId := -1)]
                && (old(Agreed(View())) ==> forall e :: e in timer.eventQ ==> e.id != subs[i].renewEventId)
              else rc == -109 && View() == old(View())
    {
      BeginsWithoutEvent(View(), sid);
      var i := Find(sid);
      if i == |clientSubList| {
        return GENA_E_BAD_SID;
      }
      var _, _ := timer.Remove(clientSubList[i].renewEventId);
      clientSubList := clientSubList[i := clientSubList[i].(renewEventId := -1)];
      rc := 0;
    }

    /** The second locked part of genaRenewSubscription. */
    method EndRenew(sid: string, reply: Reply, now: int, m: Memory) returns (rc: int)
      modifies this, timer
      ensures (View(), rc) == RenewEnded(old(View()), sid, reply, now, m)
      ensures rc == 0 ==>
                var i := FindSub(clientSubList, sid);
                && i < |clientSubList| && clientSubList[i].actualSid == reply.actualSid
                && if reply.timeOut == -1 then timer.View() == old(timer.View())
                   else Renews(View(), i, now + reply.timeOut - 10)
      ensures rc != 0 && old(DistinctSids(clientSubList)) ==> FindSub(clientSubList, sid) == |clientSubList|
    {
      FailedIsRemoved(View(), sid, reply, now, m);
      hide ScheduleAutoRenew, RemoveSub, Renews;
      RenewedMeans(View(), sid, reply, now, m);
      if reply.code != 0 {
        Remove(sid);
        return reply.code;
      }
      var i := Find(sid);
      if i == |clientSubList| {
        return GENA_E_BAD_SID;
      }
      clientSubList := clientSubList[i := clientSubList[i].(actualSid := reply.actualSid)];
      rc := ScheduleGenaAutoRenew(i, reply.timeOut, now, m);
      if rc != 0 {
        Remove(sid);
      }
    }

    /** One locked round of genaUnregisterClient; done when the list is empty. */
    method UnregisterRound() returns (done: bool)
      requires Agreed(View())
      modifies this, timer
      ensures Agreed(View()) && done == (old(clientSubList) == [])
      ensures clientSubList == if done then [] else old(clientSubList)[1..]
      ensures done ==> View() == old(View()) && forall id :: id in renewals ==> !PendingIn(View().timer, id)
      ensures !done ==> View() == RemoveSub(old(View()), old(clientSubList)[0].sid)
    {
      hide Agreed, RemoveSub;
      done := clientSubList == [];
      if done {
        EmptyMeansNonePending(View());
      } else {
        RemoveInv(View(), clientSubList[0].sid);
        FirstIsRemoved(View());
        Remove(clientSubList[0].sid);
      }
    }

    /** genaUnregisterClient when no other call comes in between its rounds; for
        the other runs see UnregisterEnds. */
    method UnregisterClient()
      requires Agreed(View())
      modifies this, timer
      ensures Agreed(View()) && clientSubList == []
      ensures forall id :: id in renewals ==> !PendingIn(View().timer, id)
    {
      hide Agreed, RemoveSub;
      var done := false;
      while !done
        invariant Agreed(View())
        invariant done ==> clientSubList == [] && forall id :: id in renewals ==> !PendingIn(View().timer, id)
        decreases if done then 0 else 1, |clientSubList|
      {
        done := UnregisterRound();
      }
    }
  }

  // ----- when a subscription is renewed

  /** The i-th subscription has an event in the timer's queue, due at the given time,
      whose job releases its argument if it is dropped. */
  ghost predicate Renews(s: State, i: nat, time: int) {
    && i < |s.subs| && Event(s.subs[i].renewEventId, time, false, Work(1, true)) in s.timer.eventQ
    && s.subs[i].renewEventId in s.renewals && s.renewals[s.subs[i].renewEventId] == s.subs[i].sid
  }

  lemma InsertsIt(q: seq<Event>, e: Event)
    ensures e in Insert(q, e)
  {
    hide Insert;
    InsertBag(q, e);
    assert e in multiset(Insert(q, e));
  }

  /** The automatic renewal: nothing for an unlimited subscription, else an event that
      is due ten seconds before the subscription ends. */
  lemma ScheduledRenewal(s: State, i: nat, timeOut: int, now: int, m: Memory)
    requires i < |s.subs|
    ensures var (u, rc) := ScheduleAutoRenew(s, i, timeOut, now, m);
            && (timeOut == -1 ==> rc == 0 && u == s)
            && (timeOut != -1 ==> (rc == 0 <==> m.event && m.record && m.node))
            && (timeOut != -1 && rc == 0 ==>
                  && Renews(u, i, now + timeOut - 10)
                  && u.subs == s.subs[i := s.subs[i].(renewEventId := s.timer.lastEventId)])
            && (rc != 0 ==> u.subs == s.subs && u.timer.eventQ == s.timer.eventQ)
  {
    hide Insert;
    InsertsIt(s.timer.eventQ, Event(s.timer.lastEventId, timeOut - 10 + now, false, Work(1, true)));
  }

  lemma SameFind(subs: seq<Sub>, i: nat, sub: Sub, sid: string)
    requires i < |subs| && sub.sid == subs[i].sid
    ensures FindSub(subs[i := sub], sid) == FindSub(subs, sid)
  {
    var (a, b) := (FindSub(subs[i := sub], sid), FindSub(subs, sid));
    assert forall k :: 0 <= k < |subs| ==> subs[i := sub][k].sid == subs[k].sid;
    assert a < |subs| ==> subs[a].sid == sid;
    assert b < |subs| ==> subs[i := sub][b].sid == sid;
  }

  /** A renewal that succeeds: the device's new SID, and the next event in time. */
  lemma RenewedMeans(s: State, sid: string, reply: Reply, now: int, m: Memory)
    ensures var (u, rc) := RenewEnded(s, sid, reply, now, m);
            var i := FindSub(s.subs, sid);
            rc == 0 ==>
              && i < |s.subs| == |u.subs| && FindSub(u.subs, sid) == i && u.subs[i].actualSid == reply.actualSid
              && if reply.timeOut == -1 then u.timer == s.timer else Renews(u, i, now + reply.timeOut - 10)
  {
    var i := FindSub(s.subs, sid);
    if reply.code == 0 && i < |s.subs| {
      var t := s.(subs := s.subs[i := s.subs[i].(actualSid := reply.actualSid)]);
      SameFind(s.subs, i, t.subs[i], sid);
      ScheduledRenewal(t, i, reply.timeOut, now, m);
      hide ScheduleAutoRenew, RemoveSub, Renews;
      var (u, rc) := ScheduleAutoRenew(t, i, reply.timeOut, now, m);
      if rc == 0 {
        assert u.subs[i].sid == t.subs[i].sid;
        SameFind(t.subs, i, u.subs[i], sid);
        assert u.subs == t.subs[i := u.subs[i]];
      }
    }
  }

  // ----- what every step keeps

  ghost predicate PendingIn(t: Timer, id: int) {
    id in t.fates && t.fates[id] == Pending
  }

  ghost predicate DistinctSids(subs: seq<Sub>) {
    forall i, j :: 0 <= i < j < |subs| ==> subs[i].sid != subs[j].sid
  }

  /** Some listed subscription has the event. */
  ghost predicate Refers(subs: seq<Sub>, id: int) {
    exists k :: 0 <= k < |subs| && subs[k].renewEventId == id
  }

  /** The SIDs are distinct, a RenewEventId that is not -1 is that of an event with
      the same SID, and every pending renewal event has its subscription. */
  ghost predicate Agreed(s: State) {
    && T.Inv(s.timer)
    && DistinctSids(s.subs) && (forall k :: 0 <= k < |s.subs| ==> s.subs[k].sid in s.used)
    && (forall id :: id in s.renewals ==> id in s.timer.fates)
    && (forall k :: 0 <= k < |s.subs| ==> s.subs[k].renewEventId == -1 || Owns(s, k))
    && (forall id :: id in s.renewals && PendingIn(s.timer, id) ==> Refers(s.subs, id))
  }

  ghost predicate Owns(s: State, k: nat)
    requires k < |s.subs|
  {
    s.subs[k].renewEventId in s.renewals && s.renewals[s.subs[k].renewEventId] == s.subs[k].sid
  }

  // ----- the timer, as far as pending events go

  /** The ids given out stay, and no further event is pending. */
  ghost predicate OnlyFewer(t: Timer, u: Timer) {
    && T.Inv(u) && u.fates.Keys == t.fates.Keys
    && forall id :: PendingIn(u, id) ==> PendingIn(t, id)
  }

  lemma RemovedFewer(t: Timer, id: int)
    requires T.Inv(t)
    ensures OnlyFewer(t, Removed(t, id).0) && !PendingIn(Removed(t, id).0, id)
  {
    RemoveAnswers(t, id);
    RemovedInv(t, id);
    hide T.Inv, Removed;
  }

  lemma WorkedFewer(t: Timer, now: int, accepted: bool)
    requires T.Inv(t)
    ensures OnlyFewer(t, Worked(t, now, accepted).0)
  {
    WorkedInv(t, now, accepted);
    WorkerIsPunctual(t, now, accepted);
    hide T.Inv;
  }

  lemma ShutDownFewer(t: Timer)
    requires T.Inv(t)
    ensures OnlyFewer(t, ShutDown(t))
  {
    ShutDownInv(t);
    hide DiscardAll;
    forall id ensures id in ShutDown(t).fates <==> id in t.fates {
      DiscardAllFates(t.eventQ, t.fates, id);
    }
    forall id | id in t.fates {
      ShutdownDiscardsPending(t, id);
    }
  }

  lemma ScheduledAdds(t: Timer, e: Event, record: bool, node: bool)
    requires T.Inv(t)
    ensures var (u, rc, id) := Scheduled(t, e, record, node);
            && T.Inv(u)
            && (if rc == 0 then id !in t.fates && id >= 0 && u.fates == t.fates[id := Pending]
                else OnlyFewer(t, u) || (id !in t.fates && u.fates == t.fates[id := NeverQueued]))
  {
    ScheduledInv(t, e, record, node);
  }

  // ----- each step

  lemma EmptyMeansNonePending(s: State)
    requires Agreed(s) && s.subs == []
    ensures forall id :: id in s.renewals ==> !PendingIn(s.timer, id)
  {
  }

  lemma FirstIsRemoved(s: State)
    requires s.subs != []
    ensures RemoveSub(s, s.subs[0].sid).subs == s.subs[1..]
  {
  }

  lemma TimerStepInv(s: State, u: Timer)
    requires Agreed(s) && OnlyFewer(s.timer, u)
    ensures Agreed(s.(timer := u))
  {
    hide T.Inv;
  }

  lemma RemoveInv(s: State, sid: string)
    requires Agreed(s)
    ensures Agreed(RemoveSub(s, sid))
  {
    var i := FindSub(s.subs, sid);
    if i < |s.subs| {
      RemovedFewer(s.timer, s.subs[i].renewEventId);
      hide T.Inv, Removed;
      var r := RemoveSub(s, sid);
      RemoveRefers(s, r, i);
      RemoveOwns(s, r, i);
    }
  }

  /** Dropping the i-th subscription, once its event is not pending. */
  lemma RemoveRefers(s: State, r: State, i: nat)
    requires Agreed(s) && i < |s.subs| && r.subs == s.subs[..i] + s.subs[i + 1..] && r.renewals == s.renewals
    requires OnlyFewer(s.timer, r.timer)
    requires s.subs[i].renewEventId == -1 || !PendingIn(r.timer, s.subs[i].renewEventId)
    ensures forall d :: d in r.renewals && PendingIn(r.timer, d) ==> Refers(r.subs, d)
  {
    hide T.Inv;
    forall d | d in r.renewals && PendingIn(r.timer, d) ensures Refers(r.subs, d) {
      RenewalIds(s, d);
      var k :| 0 <= k < |s.subs| && s.subs[k].renewEventId == d;
      assert r.subs[if k < i then k else k - 1].renewEventId == d;
    }
  }

  lemma RemoveOwns(s: State, r: State, i: nat)
    requires Agreed(s) && i < |s.subs| && r.subs == s.subs[..i] + s.subs[i + 1..] && r.renewals == s.renewals
    requires r.used == s.used
    ensures DistinctSids(r.subs) && (forall k :: 0 <= k < |r.subs| ==> r.subs[k].sid in r.used)
    ensures forall k :: 0 <= k < |r.subs| ==> r.subs[k].renewEventId == -1 || Owns(r, k)
  {
    hide T.Inv;
    assert forall k :: 0 <= k < |r.subs| ==> r.subs[k] == s.subs[if k < i then k else k + 1];
    forall k | 0 <= k < |r.subs| ensures r.subs[k].renewEventId == -1 || Owns(r, k) {
      assert s.subs[if k < i then k else k + 1].renewEventId == -1 || Owns(s, if k < i then k else k + 1);
    }
  }

  lemma RenewalIds(s: State, id: int)
    requires Agreed(s) && id in s.renewals
    ensures id >= 0
  {
  }

  lemma RenewBegunInv(s: State, sid: string)
    requires Agreed(s)
    ensures Agreed(RenewBegun(s, sid).0)
  {
    var i := FindSub(s.subs, sid);
    if i < |s.subs| {
      var id := s.subs[i].renewEventId;
      RemovedFewer(s.timer, id);
      hide T.Inv, Removed;
      var r := RenewBegun(s, sid).0;
      forall d | d in r.renewals && PendingIn(r.timer, d) ensures Refers(r.subs, d) {
        RenewalIds(s, d);
        var k :| 0 <= k < |s.subs| && s.subs[k].renewEventId == d;
        assert r.subs[k].renewEventId == d;
      }
      forall k | 0 <= k < |r.subs| ensures r.subs[k].renewEventId == -1 || Owns(r, k) {
        assert s.subs[k].renewEventId == -1 || Owns(s, k);
      }
    }
  }

  /** A new event replaces a RenewEventId whose event is not pending. */
  lemma ScheduleInv(s: State, i: nat, timeOut: int, now: int, m: Memory)
    requires Agreed(s) && i < |s.subs| && !PendingIn(s.timer, s.subs[i].renewEventId)
    ensures Agreed(ScheduleAutoRenew(s, i, timeOut, now, m).0)
    ensures ScheduleAutoRenew(s, i, timeOut, now, m).1 != 0
            ==> ScheduleAutoRenew(s, i, timeOut, now, m).0.subs == s.subs
  {
    var e := Event(0, EventTime(timeOut - AUTO_RENEW_TIME, true, now), false, Work(1, true));
    ScheduledAdds(s.timer, e, m.record, m.node);
    hide T.Inv, Scheduled;
    var r := ScheduleAutoRenew(s, i, timeOut, now, m).0;
    forall d | d in r.renewals && PendingIn(r.timer, d) ensures Refers(r.subs, d) {
      if d in s.renewals && PendingIn(s.timer, d) {
        var k :| 0 <= k < |s.subs| && s.subs[k].renewEventId == d;
        assert r.subs[k].renewEventId == d;
      } else {
        assert r.subs[i].renewEventId == d;
      }
    }
    forall k | 0 <= k < |r.subs| ensures r.subs[k].renewEventId == -1 || Owns(r, k) {
      assert s.subs[k].renewEventId == -1 || Owns(s, k);
    }
  }

  lemma ActualSidInv(s: State, i: nat, actual: string)
    requires Agreed(s) && i < |s.subs|
    ensures Agreed(s.(subs := s.subs[i := s.subs[i].(actualSid := actual)]))
  {
    hide T.Inv;
    var r := s.(subs := s.subs[i := s.subs[i].(actualSid := actual)]);
    forall d | d in r.renewals && PendingIn(r.timer, d) ensures Refers(r.subs, d) {
      var k :| 0 <= k < |s.subs| && s.subs[k].renewEventId == d;
      assert r.subs[k].renewEventId == d;
    }
    forall k | 0 <= k < |r.subs| ensures r.subs[k].renewEventId == -1 || Owns(r, k) {
      assert s.subs[k].renewEventId == -1 || Owns(s, k);
    }
  }

  lemma ListedInv(s: State, sid: string, reply: Reply)
    requires Agreed(s) && sid !in s.used
    ensures Agreed(s.(subs := [Sub(sid, reply.actualSid, -1)] + s.subs, used := s.used + {sid}))
  {
    hide T.Inv;
    var r := s.(subs := [Sub(sid, reply.actualSid, -1)] + s.subs, used := s.used + {sid});
    forall d | d in r.renewals && PendingIn(r.timer, d) ensures Refers(r.subs, d) {
      var k :| 0 <= k < |s.subs| && s.subs[k].renewEventId == d;
      assert r.subs[k + 1].renewEventId == d;
    }
    forall k | 0 <= k < |r.subs| ensures r.subs[k].renewEventId == -1 || Owns(r, k) {
      if k > 0 {
        assert s.subs[k - 1].renewEventId == -1 || Owns(s, k - 1);
      }
    }
  }

  lemma SubscribedInv(s: State, sid: string, reply: Reply, now: int)
    requires Agreed(s) && sid !in s.used
    ensures Agreed(Subscribed(s, sid, reply, now))
  {
    var r := s.(subs := [Sub(sid, reply.actualSid, -1)] + s.subs, used := s.used + {sid});
    ListedInv(s, sid, reply);
    NoEventMinusOne(s);
    hide Agreed, ScheduleAutoRenew;
    ScheduleInv(r, 0, reply.timeOut, now, PLENTY);
  }

  lemma NoEventMinusOne(s: State)
    requires Agreed(s)
    ensures !PendingIn(s.timer, -1)
  {
  }

  lemma RenewEndedInv(s: State, sid: string, reply: Reply, now: int, m: Memory)
    requires Agreed(s)
    requires forall k :: 0 <= k < |s.subs| && s.subs[k].sid == sid ==> s.subs[k].renewEventId == -1
    ensures Agreed(RenewEnded(s, sid, reply, now, m).0)
  {
    hide Agreed, RemoveSub, ScheduleAutoRenew;
    var i := FindSub(s.subs, sid);
    if reply.code != 0 {
      RemoveInv(s, sid);
    } else if i < |s.subs| {
      var t := s.(subs := s.subs[i := s.subs[i].(actualSid := reply.actualSid)]);
      ActualSidInv(s, i, reply.actualSid);
      NoEventMinusOne(s);
      ScheduleInv(t, i, reply.timeOut, now, m);
      RemoveInv(ScheduleAutoRenew(t, i, reply.timeOut, now, m).0, sid);
    }
  }

  /** The event of a subscription that is dropped is not queued any more. */
  lemma RemovesEvent(s: State, sid: string)
    ensures var i := FindSub(s.subs, sid);
            i < |s.subs| && Agreed(s) ==>
              forall e :: e in RemoveSub(s, sid).timer.eventQ ==> e.id != s.subs[i].renewEventId
  {
    var i := FindSub(s.subs, sid);
    if i < |s.subs| && Agreed(s) {
      NotQueued(s.timer, s.subs[i].renewEventId);
      NoneNegative(s.timer);
      hide Removed, Agreed;
    }
  }

  lemma NotQueued(t: Timer, id: int)
    requires T.Inv(t)
    ensures forall e :: e in Removed(t, id).0.eventQ ==> e.id != id
  {
    RemovedFewer(t, id);
    var u := Removed(t, id).0;
    hide Removed;
    forall k | 0 <= k < |u.eventQ| ensures u.eventQ[k].id != id {
      HasMember(u.eventQ, k);
    }
  }

  lemma NoneNegative(t: Timer)
    requires T.Inv(t)
    ensures forall e :: e in t.eventQ ==> e.id != -1
  {
    forall k | 0 <= k < |t.eventQ| ensures t.eventQ[k].id != -1 {
      HasMember(t.eventQ, k);
    }
  }

  lemma BeginsWithoutEvent(s: State, sid: string)
    ensures var i := FindSub(s.subs, sid);
            i < |s.subs| && Agreed(s) ==>
              forall e :: e in RenewBegun(s, sid).0.timer.eventQ ==> e.id != s.subs[i].renewEventId
  {
    var i := FindSub(s.subs, sid);
    if i < |s.subs| && Agreed(s) {
      NotQueued(s.timer, s.subs[i].renewEventId);
      hide Removed, Agreed;
    }
  }

  lemma RemovedIsGone(s: State, sid: string)
    requires DistinctSids(s.subs)
    ensures FindSub(RemoveSub(s, sid).subs, sid) == |RemoveSub(s, sid).subs|
  {
    var i := FindSub(s.subs, sid);
    var r := RemoveSub(s, sid).subs;
    if i < |s.subs| {
      assert forall k :: 0 <= k < |r| ==> r[k] == s.subs[if k < i then k else k + 1];
      assert forall k :: 0 <= k < |r| ==> r[k].sid != sid;
    }
  }

  /** A renewal that fails leaves no subscription with the SID. */
  lemma FailedIsRemoved(s: State, sid: string, reply: Reply, now: int, m: Memory)
    ensures var (u, rc) := RenewEnded(s, sid, reply, now, m);
            rc != 0 && DistinctSids(s.subs) ==> FindSub(u.subs, sid) == |u.subs|
  {
    if DistinctSids(s.subs) {
      RemovedIsGone(s, sid);
      var i := FindSub(s.subs, sid);
      if reply.code == 0 && i < |s.subs| {
        var t := s.(subs := s.subs[i := s.subs[i].(actualSid := reply.actualSid)]);
        ScheduledRenewal(t, i, reply.timeOut, now, m);
        hide RemoveSub, ScheduleAutoRenew;
        var (u, rc) := ScheduleAutoRenew(t, i, reply.timeOut, now, m);
        if rc != 0 {
          assert u.subs == t.subs;
          assert forall k :: 0 <= k < |t.subs| ==> t.subs[k].sid == s.subs[k].sid;
          RemovedIsGone(u, sid);
        }
      }
    }
  }

  // ----- every interleaving

  /** A thread between the two locked parts of a call. */
  datatype Thread = Idle | Renewing(sid: string) | Unsubscribing(sid: string)

  datatype World = World(s: State, threads: seq<Thread>)

  datatype Step =
    | Subscribe(sid: string, reply: Reply, now: int)
    | BeginRenew(t: nat, sid: string)
    | EndRenew(t: nat, reply: Reply, now: int, m: Memory)
    | BeginUnsubscribe(t: nat, sid: string)
    | EndUnsubscribe(t: nat)
    | Abandon(t: nat)
    | UnregisterOne
    | TimerRound(now: int, accepted: bool)
    | TimerShutdown
    | OthersSchedule(e: Event, record: bool, node: bool)
    | OthersRemove(id: int)

  /** A SID is listed once; renewals of one SID do not overlap; the other users of
      the timer only remove events of their own. A call is abandoned when its handle
      turns out not to be valid any more. */
  ghost predicate Enabled(w: World, e: Step) {
    match e
    case Subscribe(sid, _, _) => sid !in w.s.used
    case BeginRenew(t, sid) =>
      && t < |w.threads| && w.threads[t].Idle?
      && forall u :: 0 <= u < |w.threads| ==> w.threads[u] != Renewing(sid)
    case EndRenew(t, _, _, _) => t < |w.threads| && w.threads[t].Renewing?
    case BeginUnsubscribe(t, _) => t < |w.threads| && w.threads[t].Idle?
    case EndUnsubscribe(t) => t < |w.threads| && w.threads[t].Unsubscribing?
    case Abandon(t) => t < |w.threads| && !w.threads[t].Idle?
    case UnregisterOne => w.s.subs != []
    case TimerRound(_, _) => w.s.timer.running
    case TimerShutdown => true
    case OthersSchedule(_, _, _) => true
    case OthersRemove(id) => id !in w.s.renewals
  }

  ghost function After(w: World, e: Step): World
    requires Enabled(w, e)
  {
    match e
    case Subscribe(sid, reply, now) => w.(s := Subscribed(w.s, sid, reply, now))
    case BeginRenew(t, sid) =>
      var (s, rc) := RenewBegun(w.s, sid);
      World(s, if rc == 0 then w.threads[t := Renewing(sid)] else w.threads)
    case EndRenew(t, reply, now, m) =>
      World(RenewEnded(w.s, w.threads[t].sid, reply, now, m).0, w.threads[t := Idle])
    case BeginUnsubscribe(t, sid) =>
      if FindSub(w.s.subs, sid) == |w.s.subs| then w else w.(threads := w.threads[t := Unsubscribing(sid)])
    case EndUnsubscribe(t) => World(RemoveSub(w.s, w.threads[t].sid), w.threads[t := Idle])
    case Abandon(t) => w.(threads := w.threads[t := Idle])
    case UnregisterOne => w.(s := RemoveSub(w.s, w.s.subs[0].sid))
    case TimerRound(now, accepted) => w.(s := w.s.(timer := Worked(w.s.timer, now, accepted).0))
    case TimerShutdown => w.(s := w.s.(timer := ShutDown(w.s.timer)))
    case OthersSchedule(e, record, node) => w.(s := w.s.(timer := Scheduled(w.s.timer, e, record, node).0))
    case OthersRemove(id) => w.(s := w.s.(timer := Removed(w.s.timer, id).0))
  }

  ghost function Run(w: World, es: seq<Step>): World
    decreases |es|
  {
    if es == [] then w else Run(if Enabled(w, es[0]) then After(w, es[0]) else w, es[1..])
  }

  /** No subscription that is being renewed has an event. */
  ghost predicate Quiet(subs: seq<Sub>, sid: string) {
    forall k :: 0 <= k < |subs| && subs[k].sid == sid ==> subs[k].renewEventId == -1
  }

  ghost predicate WorldInv(w: World) {
    && Agreed(w.s)
    && (forall t :: 0 <= t < |w.threads| && w.threads[t].Renewing? ==>
          w.threads[t].sid in w.s.used && Quiet(w.s.subs, w.threads[t].sid))
    && (forall t, u :: 0 <= t < u < |w.threads| && w.threads[t].Renewing? ==> w.threads[t] != w.threads[u])
  }

  lemma OthersScheduleInv(s: State, e: Event, record: bool, node: bool)
    requires Agreed(s)
    ensures Agreed(s.(timer := Scheduled(s.timer, e, record, node).0))
  {
    ScheduledAdds(s.timer, e, record, node);
    hide T.Inv, Scheduled;
  }

  /** What a step may do to the list, seen from a SID that is being renewed. */
  lemma RemoveQuiet(s: State, sid: string, other: string)
    requires Quiet(s.subs, other)
    ensures Quiet(RemoveSub(s, sid).subs, other)
  {
  }

  lemma RenewBegunQuiet(s: State, sid: string, other: string)
    requires Agreed(s)
    ensures RenewBegun(s, sid).1 == 0 ==> Quiet(RenewBegun(s, sid).0.subs, sid) && sid in s.used
    ensures Quiet(s.subs, other) ==> Quiet(RenewBegun(s, sid).0.subs, other)
    ensures RenewBegun(s, sid).0.used == s.used
  {
    hide T.Inv, Removed;
  }

  lemma ScheduleQuiet(s: State, i: nat, timeOut: int, now: int, m: Memory, other: string)
    requires i < |s.subs| && s.subs[i].sid != other && Quiet(s.subs, other)
    ensures Quiet(ScheduleAutoRenew(s, i, timeOut, now, m).0.subs, other)
  {
    hide Scheduled;
  }

  lemma RenewEndedQuiet(s: State, sid: string, reply: Reply, now: int, m: Memory, other: string)
    requires Quiet(s.subs, other) && other != sid
    ensures Quiet(RenewEnded(s, sid, reply, now, m).0.subs, other)
  {
    hide RemoveSub, ScheduleAutoRenew;
    var i := FindSub(s.subs, sid);
    if reply.code != 0 {
      RemoveQuiet(s, sid, other);
    } else if i < |s.subs| {
      var t := s.(subs := s.subs[i := s.subs[i].(actualSid := reply.actualSid)]);
      ScheduleQuiet(t, i, reply.timeOut, now, m, other);
      RemoveQuiet(ScheduleAutoRenew(t, i, reply.timeOut, now, m).0, sid, other);
    }
  }

  lemma UsedKept(s: State, sid: string, reply: Reply, now: int, m: Memory)
    ensures RenewEnded(s, sid, reply, now, m).0.used == s.used && RemoveSub(s, sid).used == s.used
    ensures Subscribed(s, sid, reply, now).used == s.used + {sid}
  {
    hide Scheduled, Removed;
  }

  lemma SubscribedQuiet(s: State, sid: string, reply: Reply, now: int, other: string)
    requires Quiet(s.subs, other) && other != sid
    ensures Quiet(Subscribed(s, sid, reply, now).subs, other)
  {
    hide ScheduleAutoRenew;
    var t := s.(subs := [Sub(sid, reply.actualSid, -1)] + s.subs, used := s.used + {sid});
    ScheduleQuiet(t, 0, reply.timeOut, now, PLENTY, other);
  }

  lemma AfterAgreed(w: World, e: Step)
    requires WorldInv(w) && Enabled(w, e)
    ensures Agreed(After(w, e).s)
  {
    hide Agreed, Subscribed, RenewBegun, RenewEnded, RemoveSub, Worked, ShutDown, Scheduled, Removed;
    match e
    case Subscribe(sid, reply, now) => SubscribedInv(w.s, sid, reply, now);
    case BeginRenew(t, sid) => RenewBegunInv(w.s, sid);
    case EndRenew(t, reply, now, m) => RenewEndedInv(w.s, w.threads[t].sid, reply, now, m);
    case BeginUnsubscribe(t, sid) =>
    case EndUnsubscribe(t) => RemoveInv(w.s, w.threads[t].sid);
    case Abandon(t) =>
    case UnregisterOne => RemoveInv(w.s, w.s.subs[0].sid);
    case TimerRound(now, accepted) =>
      TimerSound(w.s);
      WorkedFewer(w.s.timer, now, accepted);
      TimerStepInv(w.s, Worked(w.s.timer, now, accepted).0);
    case TimerShutdown => TimerSound(w.s); ShutDownFewer(w.s.timer); TimerStepInv(w.s, ShutDown(w.s.timer));
    case OthersSchedule(ev, record, node) => OthersScheduleInv(w.s, ev, record, node);
    case OthersRemove(id) => TimerSound(w.s); RemovedFewer(w.s.timer, id); TimerStepInv(w.s, Removed(w.s.timer, id).0);
  }

  lemma TimerSound(s: State)
    requires Agreed(s)
    ensures T.Inv(s.timer)
  {
  }

  lemma AfterQuiet(w: World, e: Step, other: string)
    requires WorldInv(w) && Enabled(w, e) && other in w.s.used && Quiet(w.s.subs, other)
    requires e.EndRenew? ==> w.threads[e.t].sid != other
    ensures other in After(w, e).s.used && Quiet(After(w, e).s.subs, other)
  {
    hide Agreed, Subscribed, RenewBegun, RenewEnded, RemoveSub, Worked, ShutDown, Scheduled, Removed, Quiet;
    match e
    case Subscribe(sid, reply, now) =>
      UsedKept(w.s, sid, reply, now, PLENTY);
      SubscribedQuiet(w.s, sid, reply, now, other);
    case BeginRenew(t, sid) => RenewBegunQuiet(w.s, sid, other);
    case EndRenew(t, reply, now, m) =>
      UsedKept(w.s, w.threads[t].sid, reply, now, m);
      RenewEndedQuiet(w.s, w.threads[t].sid, reply, now, m, other);
    case EndUnsubscribe(t) =>
      UsedKept(w.s, w.threads[t].sid, Reply(0, "", 0), 0, PLENTY);
      RemoveQuiet(w.s, w.threads[t].sid, other);
    case UnregisterOne =>
      UsedKept(w.s, w.s.subs[0].sid, Reply(0, "", 0), 0, PLENTY);
      RemoveQuiet(w.s, w.s.subs[0].sid, other);
    case _ =>
  }

  lemma AfterInv(w: World, e: Step)
    requires WorldInv(w) && Enabled(w, e)
    ensures WorldInv(After(w, e))
  {
    AfterAgreed(w, e);
    var v := After(w, e);
    forall t | 0 <= t < |v.threads| && v.threads[t].Renewing?
      ensures v.threads[t].sid in v.s.used && Quiet(v.s.subs, v.threads[t].sid)
    {
      if e.BeginRenew? && e.t == t && RenewBegun(w.s, e.sid).1 == 0 {
        RenewBegunQuiet(w.s, e.sid, e.sid);
      } else {
        AfterQuiet(w, e, v.threads[t].sid);
      }
    }
    hide Agreed, Subscribed, RenewBegun, RenewEnded, RemoveSub, Worked, ShutDown, Scheduled, Removed, Quiet;
  }

  lemma {:induction false} RunWorldInv(w: World, es: seq<Step>)
    requires WorldInv(w)
    ensures WorldInv(Run(w, es))
    decreases |es|
  {
    hide WorldInv, After, Enabled;
    if es != [] {
      if Enabled(w, es[0]) {
        AfterInv(w, es[0]);
        RunWorldInv(After(w, es[0]), es[1..]);
      } else {
        RunWorldInv(w, es[1..]);
      }
    }
  }

  /** The event is that of exactly one listed subscription, which has its SID. */
  ghost predicate ListedOnce(s: State, id: int)
    requires id in s.renewals
  {
    && (exists k :: 0 <= k < |s.subs| && s.subs[k].renewEventId == id && s.subs[k].sid == s.renewals[id])
    && (forall j, k :: 0 <= j < k < |s.subs| && s.subs[j].renewEventId == id ==> s.subs[k].renewEventId != id)
  }

  lemma AgreedMeansListedOnce(s: State, id: int)
    requires Agreed(s) && id in s.renewals && PendingIn(s.timer, id)
    ensures ListedOnce(s, id)
  {
    hide T.Inv;
    var k :| 0 <= k < |s.subs| && s.subs[k].renewEventId == id;
    RenewalIds(s, id);
    assert Owns(s, k);
    forall i, j | 0 <= i < j < |s.subs| && s.subs[i].renewEventId == id ensures s.subs[j].renewEventId != id {
      assert Owns(s, i) && (s.subs[j].renewEventId == -1 || Owns(s, j));
    }
  }

  function Start(n: nat): World {
    World(State([], FRESH, map[], {}), seq(n, _ => Idle))
  }

  /** However calls of n threads, the timer and other users of the timer interleave,
      every pending renewal event is the RenewEventId of exactly one listed
      subscription, the one with its SID; with an empty list there is none. */
  lemma PendingRenewalsAreListed(n: nat, es: seq<Step>, id: int)
    requires id in Run(Start(n), es).s.renewals && PendingIn(Run(Start(n), es).s.timer, id)
    ensures ListedOnce(Run(Start(n), es).s, id)
  {
    RunWorldInv(Start(n), es);
    hide Run;
    AgreedMeansListedOnce(Run(Start(n), es).s, id);
  }

  lemma RenewalDoesNotGrow(s: State, sid: string, reply: Reply, now: int, m: Memory)
    ensures |RenewBegun(s, sid).0.subs| == |s.subs| && |RemoveSub(s, sid).subs| <= |s.subs|
    ensures |RenewEnded(s, sid, reply, now, m).0.subs| <= |s.subs|
  {
    hide Scheduled, Removed;
  }

  /** A round of genaUnregisterClient shortens the list by one, and only
      genaSubscribe makes it longer, by one. */
  lemma UnregisterMakesProgress(w: World, e: Step)
    requires Enabled(w, e)
    ensures e.UnregisterOne? ==> |After(w, e).s.subs| == |w.s.subs| - 1
    ensures |After(w, e).s.subs| <= |w.s.subs| + (if e.Subscribe? then 1 else 0)
  {
    hide Scheduled, Removed, Worked, ShutDown, RenewBegun, RenewEnded, RemoveSub;
    match e
    case Subscribe(sid, reply, now) => SubscribedLength(w.s, sid, reply, now);
    case UnregisterOne => FirstIsRemoved(w.s);
    case BeginRenew(t, sid) => RenewalDoesNotGrow(w.s, sid, Reply(0, "", 0), 0, PLENTY);
    case EndRenew(t, reply, now, m) => RenewalDoesNotGrow(w.s, w.threads[t].sid, reply, now, m);
    case EndUnsubscribe(t) => RenewalDoesNotGrow(w.s, w.threads[t].sid, Reply(0, "", 0), 0, PLENTY);
    case _ =>
  }

  lemma SubscribedLength(s: State, sid: string, reply: Reply, now: int)
    ensures |Subscribed(s, sid, reply, now).subs| == |s.subs| + 1
  {
    hide Scheduled;
  }

  /** How many subscriptions a run adds. */
  ghost function Subscriptions(w: World, es: seq<Step>): nat
    decreases |es|
  {
    if es == [] then 0
    else
      (if Enabled(w, es[0]) && es[0].Subscribe? then 1 else 0)
      + Subscriptions(if Enabled(w, es[0]) then After(w, es[0]) else w, es[1..])
  }

  /** How many rounds of genaUnregisterClient a run begins. */
  ghost function Rounds(es: seq<Step>): nat {
    if es == [] then 0 else (if es[0].UnregisterOne? then 1 else 0) + Rounds(es[1..])
  }

  /** The round that the i-th step of the run begins finds the list empty, and so
      genaUnregisterClient returns. */
  ghost predicate ReturnsAt(w: World, es: seq<Step>, i: nat) {
    i < |es| && es[i].UnregisterOne? && Run(w, es[..i]).s.subs == []
  }

  /** Whatever other calls come in between its rounds, genaUnregisterClient returns
      after at most as many rounds as there were subscriptions at first and were
      added meanwhile, and one more. */
  lemma {:induction false} UnregisterEnds(w: World, es: seq<Step>)
    requires Rounds(es) > |w.s.subs| + Subscriptions(w, es)
    ensures exists i: nat :: ReturnsAt(w, es, i)
    decreases |es|
  {
    hide After;
    if es[0].UnregisterOne? && w.s.subs == [] {
      assert es[..0] == [];
      assert ReturnsAt(w, es, 0);
    } else {
      var v := if Enabled(w, es[0]) then After(w, es[0]) else w;
      if Enabled(w, es[0]) {
        UnregisterMakesProgress(w, es[0]);
      }
      hide Enabled;
      UnregisterEnds(v, es[1..]);
      var i: nat :| ReturnsAt(v, es[1..], i);
      assert es[..i + 1][1..] == es[1..][..i] && es[..i + 1][0] == es[0];
      assert ReturnsAt(w, es, i + 1);
    }
  }

  /** And when it returns no renewal event is pending. */
  lemma NonePendingAtReturn(n: nat, es: seq<Step>, i: nat, id: int)
    requires ReturnsAt(Start(n), es, i)
    requires id in Run(Start(n), es[..i]).s.renewals
    ensures !PendingIn(Run(Start(n), es[..i]).s.timer, id)
  {
    RunWorldInv(Start(n), es[..i]);
    hide Run;
    EmptyMeansNonePending(Run(Start(n), es[..i]).s);
  }

  // ----- every renewal in time

  /** When the subscriptions end, by SID, as the device has granted it; nothing for
      one without an end. */
  type Ends = map<string, int>

  function Granted(ends: Ends, sid: string, timeOut: int, now: int): Ends {
    if timeOut == -1 then ends - {sid} else ends[sid := now + timeOut]
  }

  ghost function EndsAfter(ends: Ends, w: World, e: Step): Ends
    requires Enabled(w, e)
  {
    match e
    case Subscribe(sid, reply, now) => Granted(ends, sid, reply.timeOut, now)
    case EndRenew(t, reply, now, _) =>
      if reply.code == 0 then Granted(ends, w.threads[t].sid, reply.timeOut, now) else ends
    case _ => ends
  }

  ghost function EndsOf(ends: Ends, w: World, es: seq<Step>): Ends
    decreases |es|
  {
    if es == [] then ends
    else if Enabled(w, es[0]) then EndsOf(EndsAfter(ends, w, es[0]), After(w, es[0]), es[1..])
    else EndsOf(ends, w, es[1..])
  }

  /** The queued event with the id is due ten seconds before its subscription ends. */
  ghost predicate DueAt(s: State, ends: Ends, e: Event) {
    e.id in s.renewals ==> s.renewals[e.id] in ends && e.time == ends[s.renewals[e.id]] - 10
  }

  ghost predicate InTime(s: State, ends: Ends) {
    forall k :: 0 <= k < |s.timer.eventQ| ==> DueAt(s, ends, s.timer.eventQ[k])
  }

  /** Steps that queue no renewal keep every renewal in time. */
  ghost predicate NoNewEvents(s: State, u: State) {
    u.renewals == s.renewals && forall e :: e in u.timer.eventQ ==> e in s.timer.eventQ
  }

  lemma FewerInTime(s: State, u: State, ends: Ends)
    requires InTime(s, ends) && NoNewEvents(s, u)
    ensures InTime(u, ends)
  {
    hide DueAt;
    forall k | 0 <= k < |u.timer.eventQ| ensures DueAt(u, ends, u.timer.eventQ[k]) {
      var e := u.timer.eventQ[k];
      assert e in s.timer.eventQ;
      assert DueAt(s, ends, e);
      assert DueAt(u, ends, e) by { SameDue(s, u, ends, e); }
    }
  }

  lemma SameDue(s: State, u: State, ends: Ends, e: Event)
    requires DueAt(s, ends, e) && u.renewals == s.renewals
    ensures DueAt(u, ends, e)
  {
  }

  lemma RemovedEvents(t: Timer, id: int)
    ensures forall e :: e in Removed(t, id).0.eventQ ==> e in t.eventQ
  {
  }

  lemma RemoveSubEvents(s: State, sid: string)
    ensures NoNewEvents(s, RemoveSub(s, sid))
  {
    var i := FindSub(s.subs, sid);
    if i < |s.subs| {
      RemovedEvents(s.timer, s.subs[i].renewEventId);
    }
  }

  /** No queued renewal is for a SID without an event of its own. */
  lemma QuietHasNone(s: State, sid: string, k: nat)
    requires Agreed(s) && Quiet(s.subs, sid) && k < |s.timer.eventQ| && s.timer.eventQ[k].id in s.renewals
    ensures s.renewals[s.timer.eventQ[k].id] != sid
  {
    var id := s.timer.eventQ[k].id;
    HasMember(s.timer.eventQ, k);
    assert PendingIn(s.timer, id);
    AgreedMeansListedOnce(s, id);
  }

  /** Neither the list nor the grants of the SID matter while it has no event. */
  lemma GrantInTime(s: State, ends: Ends, sid: string, timeOut: int, now: int)
    requires Agreed(s) && InTime(s, ends) && Quiet(s.subs, sid)
    ensures InTime(s, Granted(ends, sid, timeOut, now))
  {
    hide Agreed;
    forall k | 0 <= k < |s.timer.eventQ| ensures DueAt(s, Granted(ends, sid, timeOut, now), s.timer.eventQ[k]) {
      var e := s.timer.eventQ[k];
      assert DueAt(s, ends, e);
      if e.id in s.renewals {
        QuietHasNone(s, sid, k);
      }
    }
  }

  /** The new event is in time by the grant. */
  lemma ScheduleInTime(s: State, i: nat, timeOut: int, now: int, m: Memory, ends: Ends)
    requires Agreed(s) && i < |s.subs| && InTime(s, ends)
    requires timeOut != -1 ==> s.subs[i].sid in ends && ends[s.subs[i].sid] == now + timeOut
    ensures InTime(ScheduleAutoRenew(s, i, timeOut, now, m).0, ends)
  {
    var (u, rc) := ScheduleAutoRenew(s, i, timeOut, now, m);
    ScheduledRenewal(s, i, timeOut, now, m);
    if timeOut != -1 && rc == 0 {
      var id := s.timer.lastEventId;
      var e := Event(id, timeOut - 10 + now, false, Work(1, true));
      InsertBag(s.timer.eventQ, e);
      forall k | 0 <= k < |u.timer.eventQ| ensures DueAt(u, ends, u.timer.eventQ[k]) {
        var d := u.timer.eventQ[k];
        assert d in multiset(u.timer.eventQ);
        if d != e {
          assert d in multiset(s.timer.eventQ);
          var j :| 0 <= j < |s.timer.eventQ| && s.timer.eventQ[j] == d;
          OldId(s, j);
          assert DueAt(s, ends, d);
        }
      }
    } else if rc != 0 {
      FewerInTime(s, u, ends);
    }
  }

  lemma OldId(s: State, k: nat)
    requires Agreed(s) && k < |s.timer.eventQ|
    ensures s.timer.eventQ[k].id < s.timer.lastEventId
  {
    HasMember(s.timer.eventQ, k);
  }

  lemma SubscribedInTime(s: State, sid: string, reply: Reply, now: int, ends: Ends)
    requires Agreed(s) && InTime(s, ends) && sid !in s.used
    ensures InTime(Subscribed(s, sid, reply, now), Granted(ends, sid, reply.timeOut, now))
  {
    var t := s.(subs := [Sub(sid, reply.actualSid, -1)] + s.subs, used := s.used + {sid});
    ListedInv(s, sid, reply);
    hide Agreed, ScheduleAutoRenew, InTime;
    UnusedIsQuiet(s, sid);
    GrantInTime(s, ends, sid, reply.timeOut, now);
    FewerInTime(s, t, Granted(ends, sid, reply.timeOut, now));
    ScheduleInTime(t, 0, reply.timeOut, now, PLENTY, Granted(ends, sid, reply.timeOut, now));
  }

  lemma UnusedIsQuiet(s: State, sid: string)
    requires Agreed(s) && sid !in s.used
    ensures Quiet(s.subs, sid)
  {
  }

  lemma RenewEndedInTime(s: State, sid: string, reply: Reply, now: int, m: Memory, ends: Ends)
    requires Agreed(s) && InTime(s, ends) && Quiet(s.subs, sid)
    ensures InTime(RenewEnded(s, sid, reply, now, m).0,
                   if reply.code == 0 then Granted(ends, sid, reply.timeOut, now) else ends)
  {
    hide Agreed, ScheduleAutoRenew, InTime, RemoveSub;
    RemoveSubEvents(s, sid);
    FewerInTime(s, RemoveSub(s, sid), ends);
    var i := FindSub(s.subs, sid);
    if reply.code == 0 {
      var granted := Granted(ends, sid, reply.timeOut, now);
      GrantInTime(s, ends, sid, reply.timeOut, now);
      if i < |s.subs| {
        var t := s.(subs := s.subs[i := s.subs[i].(actualSid := reply.actualSid)]);
        ActualSidInv(s, i, reply.actualSid);
        FewerInTime(s, t, granted);
        ScheduleInTime(t, i, reply.timeOut, now, m, granted);
        var u := ScheduleAutoRenew(t, i, reply.timeOut, now, m).0;
        RemoveSubEvents(u, sid);
        FewerInTime(u, RemoveSub(u, sid), granted);
      }
    }
  }

  lemma RenewBegunEvents(s: State, sid: string)
    ensures NoNewEvents(s, RenewBegun(s, sid).0)
  {
    var i := FindSub(s.subs, sid);
    if i < |s.subs| {
      RemovedEvents(s.timer, s.subs[i].renewEventId);
    }
  }

  lemma TimerEvents(t: Timer, now: int, accepted: bool)
    ensures forall e :: e in Worked(t, now, accepted).0.eventQ ==> e in t.eventQ
  {
  }

  /** The events of other users are no renewals. */
  lemma OthersInTime(s: State, e: Event, record: bool, node: bool, ends: Ends)
    requires Agreed(s) && InTime(s, ends)
    ensures InTime(s.(timer := Scheduled(s.timer, e, record, node).0), ends)
  {
    var u := s.(timer := Scheduled(s.timer, e, record, node).0);
    if record && node {
      var f := e.(id := s.timer.lastEventId);
      InsertBag(s.timer.eventQ, f);
      forall k | 0 <= k < |u.timer.eventQ| ensures DueAt(u, ends, u.timer.eventQ[k]) {
        var d := u.timer.eventQ[k];
        assert d in multiset(u.timer.eventQ);
        if d != f {
          assert d in multiset(s.timer.eventQ);
          assert DueAt(s, ends, d);
        }
      }
    }
  }

  lemma AfterInTime(w: World, e: Step, ends: Ends)
    requires WorldInv(w) && Enabled(w, e) && InTime(w.s, ends)
    ensures InTime(After(w, e).s, EndsAfter(ends, w, e))
  {
    hide Agreed, Subscribed, RenewBegun, RenewEnded, RemoveSub, Worked, Scheduled, Removed, InTime, Granted, Quiet;
    match e
    case Subscribe(sid, reply, now) => SubscribedInTime(w.s, sid, reply, now, ends);
    case BeginRenew(t, sid) => RenewBegunEvents(w.s, sid); FewerInTime(w.s, After(w, e).s, ends);
    case EndRenew(t, reply, now, m) => RenewEndedInTime(w.s, w.threads[t].sid, reply, now, m, ends);
    case EndUnsubscribe(t) => RemoveSubEvents(w.s, w.threads[t].sid); FewerInTime(w.s, After(w, e).s, ends);
    case UnregisterOne => RemoveSubEvents(w.s, w.s.subs[0].sid); FewerInTime(w.s, After(w, e).s, ends);
    case TimerRound(now, accepted) => TimerEvents(w.s.timer, now, accepted); FewerInTime(w.s, After(w, e).s, ends);
    case TimerShutdown => FewerInTime(w.s, After(w, e).s, ends);
    case OthersSchedule(ev, record, node) => OthersInTime(w.s, ev, record, node, ends);
    case OthersRemove(id) => RemovedEvents(w.s.timer, id); FewerInTime(w.s, After(w, e).s, ends);
    case _ =>
  }

  lemma {:induction false} RunInTime(w: World, es: seq<Step>, ends: Ends)
    requires WorldInv(w) && InTime(w.s, ends)
    ensures InTime(Run(w, es).s, EndsOf(ends, w, es))
    decreases |es|
  {
    hide WorldInv, InTime, After, EndsAfter, Enabled;
    if es != [] {
      if Enabled(w, es[0]) {
        AfterInv(w, es[0]);
        AfterInTime(w, es[0], ends);
        RunInTime(After(w, es[0]), es[1..], EndsAfter(ends, w, es[0]));
      } else {
        RunInTime(w, es[1..], ends);
      }
    }
  }

  /** However calls interleave, every pending renewal event is in the timer's queue,
      due ten seconds before the subscription with its SID ends by the last answer of
      the device. */
  lemma RenewalsAreInTime(n: nat, es: seq<Step>, id: int)
    requires id in Run(Start(n), es).s.renewals && PendingIn(Run(Start(n), es).s.timer, id)
    ensures var (s, ends) := (Run(Start(n), es).s, EndsOf(map[], Start(n), es));
            && s.renewals[id] in ends
            && exists e :: e in s.timer.eventQ && e.id == id && e.time == ends[s.renewals[id]] - 10
  {
    RunWorldInv(Start(n), es);
    RunInTime(Start(n), es, map[]);
    hide Run, EndsOf;
    var (s, ends) := (Run(Start(n), es).s, EndsOf(map[], Start(n), es));
    PendingIsQueued(s, id);
    var k :| 0 <= k < |s.timer.eventQ| && s.timer.eventQ[k].id == id;
    assert DueAt(s, ends, s.timer.eventQ[k]);
    assert s.timer.eventQ[k] in s.timer.eventQ;
  }

  lemma PendingIsQueued(s: State, id: int)
    requires Agreed(s) && PendingIn(s.timer, id)
    ensures InQueue(s.timer.eventQ, id)
  {
  }

  // ----- where it depends on renewals not overlapping

  /** The end of a renewal that schedules an event keeps the agreement exactly when
      the subscription's old event is not pending any more. */
  lemma WhenRenewalAgrees(s: State, sid: string, reply: Reply, now: int)
    requires Agreed(s) && reply.code == 0 && reply.timeOut != UPNP_INFINITE && FindSub(s.subs, sid) < |s.subs|
    ensures Agreed(RenewEnded(s, sid, reply, now, PLENTY).0) <==>
            !PendingIn(s.timer, s.subs[FindSub(s.subs, sid)].renewEventId)
  {
    var i := FindSub(s.subs, sid);
    var stale := s.subs[i].renewEventId;
    var t := s.(subs := s.subs[i := s.subs[i].(actualSid := reply.actualSid)]);
    ActualSidInv(s, i, reply.actualSid);
    var e := Event(0, EventTime(reply.timeOut - AUTO_RENEW_TIME, true, now), false, Work(1, true));
    ScheduledAdds(s.timer, e, true, true);
    if PendingIn(s.timer, stale) {
      StaleEventIsLost(s, i, t, reply.actualSid, reply.timeOut, now);
    } else {
      ScheduleInv(t, i, reply.timeOut, now, PLENTY);
    }
  }

  lemma StaleEventIsLost(s: State, i: nat, t: State, actual: string, timeOut: int, now: int)
    requires Agreed(s) && i < |s.subs| && PendingIn(s.timer, s.subs[i].renewEventId) && timeOut != UPNP_INFINITE
    requires t == s.(subs := s.subs[i := s.subs[i].(actualSid := actual)])
    ensures ScheduleAutoRenew(t, i, timeOut, now, PLENTY).1 == 0
            && !Agreed(ScheduleAutoRenew(t, i, timeOut, now, PLENTY).0)
  {
    var stale := s.subs[i].renewEventId;
    var e := Event(0, EventTime(timeOut - AUTO_RENEW_TIME, true, now), false, Work(1, true));
    ScheduledAdds(s.timer, e, true, true);
    NoEventMinusOne(s);
    assert Owns(s, i);
    AgreedMeansListedOnce(s, stale);
    var r := ScheduleAutoRenew(t, i, timeOut, now, PLENTY).0;
    hide T.Inv;
    assert PendingIn(r.timer, stale) && stale in r.renewals;
    assert !Refers(r.subs, stale);
  }

  /** Two renewals of one SID that overlap: the first event is left behind. */
  lemma OverlappingRenewalsLoseAnEvent()
    ensures var s0 := State([Sub("a", "x", -1)], FRESH, map[], {"a"});
            var s1 := RenewBegun(RenewBegun(s0, "a").0, "a").0;
            var s2 := RenewEnded(s1, "a", Reply(0, "x", 1800), 0, PLENTY).0;
            var s3 := RenewEnded(s2, "a", Reply(0, "x", 1800), 0, PLENTY).0;
            && Agreed(s0) && Agreed(s2) && !Agreed(s3)
            && PendingIn(s3.timer, 0) && s3.renewals[0] == "a" && !Refers(s3.subs, 0)
  {
    var s0 := State([Sub("a", "x", -1)], FRESH, map[], {"a"});
    var reply := Reply(0, "x", 1800);
    assert RenewBegun(s0, "a").0 == s0;
    var first := Event(0, 1790, false, Work(1, true));
    var s2 := RenewEnded(s0, "a", reply, 0, PLENTY).0;
    assert s2 == State([Sub("a", "x", 0)], Timer([first], 1, false, true, map[0 := Pending]), map[0 := "a"], {"a"});
    assert Agreed(s0);
    RenewEndedInv(s0, "a", reply, 0, PLENTY);
    WhenRenewalAgrees(s2, "a", reply, 0);
    var s3 := RenewEnded(s2, "a", reply, 0, PLENTY).0;
    assert s3.subs == [Sub("a", "x", 1)];
  }
}
