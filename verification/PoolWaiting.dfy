/** How long a job can wait in a thread pool. */
module PoolWaiting {
  import opened PoolSteps
  import opened PoolProtocol
  import opened Wrappers

  // ----- what one stretch does to the queues

  /** When BumpPriority stops, neither the head of the medium queue nor the head of
      the low queue has waited too long; it only moves heads to the next queue. */
  lemma {:induction false} BumpSettles(q: Queues, now: int, attr: Attr)
    ensures var b := Bump(q, now, attr);
            && !Starved(b.med, now, attr.starvationTime) && !Starved(b.low, now, attr.maxIdleTime)
            && q.high <= b.high && |b.low| <= |q.low| && b.low == q.low[|q.low| - |b.low|..]
    decreases 2 * |q.low| + |q.med|
  {
    if Starved(q.med, now, attr.starvationTime) {
      BumpSettles(Queues(q.high + [q.med[0]], q.med[1..], q.low), now, attr);
    } else if Starved(q.low, now, attr.maxIdleTime) {
      BumpSettles(Queues(q.high, q.med + [q.low[0]], q.low[1..]), now, attr);
    }
  }

  /** And only jobs that have waited their time are moved: those that join the high
      queue the starvation time, those that leave the low queue the idle time. The
      others stay in the queue of their priority. */
  lemma {:induction false} BumpMovesTheStarved(q: Queues, now: int, attr: Attr)
    ensures var b := Bump(q, now, attr);
            && q.high <= b.high && |b.low| <= |q.low|
            && (forall i :: |q.high| <= i < |b.high| ==>
                  DiffMillis(now, b.high[i].requestTime) >= attr.starvationTime)
            && (forall i :: 0 <= i < |q.low| - |b.low| ==>
                  DiffMillis(now, q.low[i].requestTime) >= attr.maxIdleTime)
    decreases 2 * |q.low| + |q.med|
  {
    hide DiffMillis;
    if Starved(q.med, now, attr.starvationTime) {
      BumpMovesTheStarved(Queues(q.high + [q.med[0]], q.med[1..], q.low), now, attr);
    } else if Starved(q.low, now, attr.maxIdleTime) {
      BumpMovesTheStarved(Queues(q.high, q.med + [q.low[0]], q.low[1..]), now, attr);
    }
  }

  /** A positive limit in milliseconds is reached when that many thousand microseconds
      have passed. */
  lemma MillisPassed(now: int, before: int, limit: int)
    requires limit > 0
    ensures DiffMillis(now, before) >= limit <==> now - before >= 1000 * limit
  {
  }

  lemma CreateQueues(p: Pool, why: Purpose, env: Env)
    ensures Create(p, why, env).0.queues == p.queues
  {
  }

  lemma ResumedQueues(p: Pool, c: Caller, env: Env)
    ensures Resumed(p, c, env).0.queues == p.queues
  {
    hide Create;
    match c
    case AwaitSlot(why) =>
      CreateQueues(p, why, env);
    case AwaitBirth(ForAdd(result, record, jobs, threads)) =>
      CreateQueues(p, ForAdd(result, record, jobs, threads + 1), env);
    case AwaitBirth(ForMinimum(i)) =>
      CreateQueues(p, ForMinimum(i + 1), env);
    case _ =>
  }

  lemma AddedQueues(p: Pool, request: Job, env: Env)
    ensures var q := Added(p, request, env).0.queues;
            q == p.queues || q == Enqueued(p.queues, NewJob(p, request, env.now))
  {
    hide Create, Enqueued;
    var job := NewJob(p, request, env.now);
    var q := if env.nodeAlloc then p.(queues := Enqueued(p.queues, job), nextTicket := p.nextTicket + 1) else p;
    CreateQueues(q, AddPurpose(p, q, env),
                 env);
  }

  // ----- the high queue

  /** The worker step took a job off the queues. */
  predicate Picks(w: World, e: Event)
    requires Enabled(w, e)
  {
    match e
    case WorkerLoops(i, now) => PicksRegular(Checked(Looped(w, i).pool, now, false).1)
    case WorkerWakes(_, now, timedOut) => PicksRegular(Checked(w.pool, now, timedOut).1)
    case _ => false
  }

  predicate PicksRegular(d: Decision) {
    d.Serve? && !d.task.persistent
  }

  function PickCount(w: World, es: seq<Event>): nat
    decreases |es|
  {
    if es == [] then 0
    else if Enabled(w, es[0]) then
      (if Picks(w, es[0]) then 1 else 0) + PickCount(Next(w, es[0]), es[1..])
    else PickCount(w, es[1..])
  }

  ghost predicate HasLeft(w: World, j: Job) {
    j in w.ledger.started || j in w.ledger.removed || j in w.ledger.discarded
  }

  /** The job stands at one of the first n places of the high queue. */
  ghost predicate Among(q: seq<Job>, j: Job, n: int) {
    exists k :: 0 <= k < |q| && k < n && q[k] == j
  }

  lemma CheckedHigh(p: Pool, now: int, timedOut: bool, i: nat)
    requires i < |p.queues.high|
    ensures var (q, d) := Checked(p, now, timedOut);
            var j := p.queues.high[i];
            if !PicksRegular(d) then i < |q.queues.high| && q.queues.high[i] == j
            else if i == 0 then d.task.job == j
            else i - 1 < |q.queues.high| && q.queues.high[i - 1] == j
  {
    hide Bump, Starved;
    BumpSettles(p.queues, now, p.attr);
  }

  lemma RemovedHigh(p: Pool, id: int, i: nat)
    requires i < |p.queues.high|
    ensures var (q, out) := Removed(p, id);
            out == Some(p.queues.high[i]) || Among(q.queues.high, p.queues.high[i], i + 1)
  {
    var h := FindId(p.queues.high, id);
    if h < i {
      assert Without(p.queues.high, h)[i - 1] == p.queues.high[i];
    } else if i < h < |p.queues.high| {
      assert Without(p.queues.high, h)[i] == p.queues.high[i];
    } else if h == |p.queues.high| {
      assert Removed(p, id).0.queues.high[i] == p.queues.high[i];
    }
  }

  /** No step puts a job in front of one that is in the high queue, and a pick
      brings it forward by one place. */
  lemma NextHigh(w: World, e: Event, i: nat)
    requires Enabled(w, e) && i < |w.pool.queues.high|
    ensures var j := w.pool.queues.high[i];
            HasLeft(Next(w, e), j) || Among(Next(w, e).pool.queues.high, j, i + 1 - (if Picks(w, e) then 1 else 0))
  {
    hide Checked, Added, Create, Resumed, Removed, WithFree;
    var j := w.pool.queues.high[i];
    match e
    case WorkerLoops(v, now) =>
      CheckedHigh(Looped(w, v).pool, now, false, i);
    case WorkerWakes(v, now, timedOut) =>
      CheckedHigh(w.pool, now, timedOut, i);
    case CallAdd(c, request, env) =>
      AddedQueues(w.pool, request, env);
      assert Added(w.pool, request, env).0.queues.high[i] == j;
    case CallAddPersistent(c, request, env) =>
      CreateQueues(w.pool, ForPersistent(request), env);
      assert AddedPersistent(w.pool, request, env).0.queues.high[i] == j;
    case CallRemove(c, id) =>
      RemovedHigh(w.pool, id, i);
    case CallSetAttr(c, attr, env) =>
      CreateQueues(w.pool.(attr := attr), ForMinimum(w.pool.totalThreads), env);
    case CallShutdown(c) =>
      assert j in Flat(w.pool.queues);
    case CallerWakes(c, env) =>
      ResumedQueues(w.pool, w.callers[c], env);
    case WorkerStarts(v) =>
  }

  lemma NextKeepsLeft(w: World, e: Event, j: Job)
    requires Enabled(w, e) && HasLeft(w, j)
    ensures HasLeft(Next(w, e), j)
  {
    hide Checked, Added, AddedPersistent, FillUp, Resumed, Removed, WithFree, Waiting, Finished;
  }

  lemma {:induction false} RunKeepsLeft(w: World, es: seq<Event>, j: Job)
    requires HasLeft(w, j)
    ensures HasLeft(Run(w, es), j)
    decreases |es|
  {
    hide Next, Enabled, HasLeft;
    if es != [] {
      if Enabled(w, es[0]) {
        NextKeepsLeft(w, es[0], j);
        RunKeepsLeft(Next(w, es[0]), es[1..], j);
      } else {
        RunKeepsLeft(w, es[1..], j);
      }
    }
  }

  /** Over any run the number of jobs ahead of a job in the high queue never grows,
      and every pick lowers it: once as many jobs were picked as stood before it and
      one more, the job has been started or taken out. */
  lemma {:induction false} BoundedOvertaking(w: World, es: seq<Event>, i: nat)
    requires i < |w.pool.queues.high|
    ensures var j := w.pool.queues.high[i];
            HasLeft(Run(w, es), j) || Among(Run(w, es).pool.queues.high, j, i + 1 - PickCount(w, es))
    decreases |es|
  {
    hide Next, Enabled, HasLeft, Picks;
    var j := w.pool.queues.high[i];
    if es != [] {
      if Enabled(w, es[0]) {
        var v := Next(w, es[0]);
        NextHigh(w, es[0], i);
        if HasLeft(v, j) {
          RunKeepsLeft(v, es[1..], j);
        } else {
          var q := v.pool.queues.high;
          var k :| 0 <= k < |q| && k < i + 1 - (if Picks(w, es[0]) then 1 else 0) && q[k] == j;
          BoundedOvertaking(v, es[1..], k);
        }
      } else {
        BoundedOvertaking(w, es[1..], i);
      }
    }
  }

  // ----- the low queue

  /** What the event reads from the clock, if it reads it. */
  function ClockOf(e: Event, before: int): int {
    match e
    case WorkerLoops(_, now) => now
    case WorkerWakes(_, now, _) => now
    case CallAdd(_, _, env) => env.now
    case CallAddPersistent(_, _, env) => env.now
    case CallSetAttr(_, _, env) => env.now
    case CallerWakes(_, env) => env.now
    case _ => before
  }

  /** The clock never goes back, from `clock` on. */
  ghost predicate Steady(es: seq<Event>, clock: int) {
    es == [] || (clock <= ClockOf(es[0], clock) && Steady(es[1..], ClockOf(es[0], clock)))
  }

  function LastClock(es: seq<Event>, clock: int): int {
    if es == [] then clock else LastClock(es[1..], ClockOf(es[0], clock))
  }

  ghost predicate Ordered(q: seq<Job>, clock: int) {
    && (forall a, b :: 0 <= a < b < |q| ==> q[a].requestTime <= q[b].requestTime)
    && (forall a :: 0 <= a < |q| ==> q[a].requestTime <= clock)
  }

  lemma CheckedLow(p: Pool, now: int, timedOut: bool, clock: int)
    requires Ordered(p.queues.low, clock) && clock <= now
    ensures Ordered(Checked(p, now, timedOut).0.queues.low, now)
  {
    hide Bump, Starved;
    BumpSettles(p.queues, now, p.attr);
  }

  lemma RemovedLow(p: Pool, id: int, clock: int)
    requires Ordered(p.queues.low, clock)
    ensures Ordered(Removed(p, id).0.queues.low, clock)
  {
  }

  lemma EnqueuedLow(q: Queues, job: Job, clock: int)
    requires Ordered(q.low, clock) && clock <= job.requestTime
    ensures Ordered(Enqueued(q, job).low, job.requestTime)
  {
  }

  lemma NextLow(w: World, e: Event, clock: int)
    requires Enabled(w, e) && Ordered(w.pool.queues.low, clock) && clock <= ClockOf(e, clock)
    ensures Ordered(Next(w, e).pool.queues.low, ClockOf(e, clock))
  {
    hide Checked, Added, Create, Resumed, Removed, WithFree, Enqueued;
    match e
    case WorkerLoops(v, now) =>
      CheckedLow(Looped(w, v).pool, now, false, clock);
    case WorkerWakes(v, now, timedOut) =>
      CheckedLow(w.pool, now, timedOut, clock);
    case CallAdd(c, request, env) =>
      AddedQueues(w.pool, request, env);
      EnqueuedLow(w.pool.queues, NewJob(w.pool, request, env.now), clock);
    case CallAddPersistent(c, request, env) =>
      CreateQueues(w.pool, ForPersistent(request), env);
    case CallRemove(c, id) =>
      RemovedLow(w.pool, id, clock);
    case CallSetAttr(c, attr, env) =>
      CreateQueues(w.pool.(attr := attr), ForMinimum(w.pool.totalThreads), env);
    case CallerWakes(c, env) =>
      ResumedQueues(w.pool, w.callers[c], env);
    case _ =>
  }

  lemma {:induction false} RunLow(w: World, es: seq<Event>, clock: int)
    requires Ordered(w.pool.queues.low, clock) && Steady(es, clock)
    ensures Ordered(Run(w, es).pool.queues.low, LastClock(es, clock))
    decreases |es|
  {
    hide Next, Enabled, ClockOf, Ordered;
    if es != [] {
      var now := ClockOf(es[0], clock);
      if Enabled(w, es[0]) {
        NextLow(w, es[0], clock);
        RunLow(Next(w, es[0]), es[1..], now);
      } else {
        OrderedLater(w.pool.queues.low, clock, now);
        RunLow(w, es[1..], now);
      }
    }
  }

  lemma OrderedLater(q: seq<Job>, clock: int, later: int)
    requires Ordered(q, clock) && clock <= later
    ensures Ordered(q, later)
  {
  }

  /** With a clock that never goes back, whenever a worker leaves the wait loop no
      job that stays in the low queue has waited maxIdleTime or more. */
  lemma NoLowJobStarves(attr: Attr, n: nat, env: Env, es: seq<Event>, e: Event)
    requires Steady(es, env.now)
    requires var w := Run(Initial(attr, n, env), es);
             Enabled(w, e) && LastClock(es, env.now) <= ClockOf(e, LastClock(es, env.now))
             && (e.WorkerWakes? || e.WorkerLoops?) && !NothingToDo(w.pool)
    ensures var w := Run(Initial(attr, n, env), es);
            forall j :: j in Next(w, e).pool.queues.low ==> DiffMillis(e.now, j.requestTime) < w.pool.attr.maxIdleTime
  {
    hide Checked, Bump;
    var w := Run(Initial(attr, n, env), es);
    assert Ordered(Initial(attr, n, env).pool.queues.low, env.now) by {
      hide Create;
      CreateQueues(Fresh(attr), ForMinimum(0), env);
    }
    RunLow(Initial(attr, n, env), es, env.now);
    hide Run, Initial;
    if e.WorkerWakes? {
      CheckedYoung(w.pool, e.now, e.timedOut, LastClock(es, env.now));
    } else {
      CheckedYoung(Looped(w, e.w).pool, e.now, false, LastClock(es, env.now));
    }
  }

  lemma CheckedYoung(p: Pool, now: int, timedOut: bool, clock: int)
    requires Ordered(p.queues.low, clock) && !NothingToDo(p)
    ensures forall j :: j in Checked(p, now, timedOut).0.queues.low ==>
                          DiffMillis(now, j.requestTime) < p.attr.maxIdleTime
  {
    hide Bump;
    BumpSettles(p.queues, now, p.attr);
    var b := Bump(p.queues, now, p.attr);
    forall k | 0 <= k < |b.low| ensures DiffMillis(now, b.low[k].requestTime) < p.attr.maxIdleTime {
      assert b.low[0].requestTime <= b.low[k].requestTime;
      Later(now, b.low[0].requestTime, b.low[k].requestTime);
    }
    var q := Checked(p, now, timedOut).0;
    assert q.queues.low == b.low || (b.low != [] && q.queues.low == b.low[1..]);
  }

  lemma Later(now: int, a: int, b: int)
    requires a <= b
    ensures DiffMillis(now, b) <= DiffMillis(now, a)
  {
  }
}
