/** What becomes of the jobs of a thread pool: none is lost or run twice, whatever
    the interleaving. */
module PoolJobs {
  import opened PoolSteps
  import opened PoolProtocol
  import opened Wrappers

  // ----- counting a job

  /** How often a job occurs in a sequence. */
  function Num(q: seq<Job>, j: Job): nat {
    if q == [] then 0 else (if q[0] == j then 1 else 0) + Num(q[1..], j)
  }

  lemma NumConcat(a: seq<Job>, b: seq<Job>, j: Job)
    ensures Num(a + b, j) == Num(a, j) + Num(b, j)
  {
    if a == [] {
      assert a + b == b;
    } else {
      assert (a + b)[1..] == a[1..] + b;
      NumConcat(a[1..], b, j);
    }
  }

  /** How many workers are running the job. */
  function Runs(ws: seq<Worker>, j: Job): nat {
    if ws == [] then 0 else Num(JobOf(ws[0]), j) + Runs(ws[1..], j)
  }

  lemma {:induction false} RunsConcat(a: seq<Worker>, b: seq<Worker>, j: Job)
    ensures Runs(a + b, j) == Runs(a, j) + Runs(b, j)
  {
    if a == [] {
      assert a + b == b;
    } else {
      assert (a + b)[1..] == a[1..] + b;
      RunsConcat(a[1..], b, j);
    }
  }

  lemma {:induction false} RunsUpdate(ws: seq<Worker>, i: nat, v: Worker, j: Job)
    requires i < |ws|
    ensures Runs(ws[i := v], j) + Num(JobOf(ws[i]), j) == Runs(ws, j) + Num(JobOf(v), j)
  {
    hide Num;
    if i == 0 {
      assert ws[i := v][1..] == ws[1..];
    } else {
      assert ws[i := v][1..] == ws[1..][i - 1 := v];
      RunsUpdate(ws[1..], i - 1, v, j);
    }
  }

  // ----- conservation

  /** How often the pool itself holds the job. */
  ghost function Held(p: Pool, j: Job): nat {
    Num(Flat(p.queues), j) + Num(Listed(p.persistentJob), j)
  }

  /** The places an accepted job can be in, added up. */
  ghost function Places(w: World, j: Job): nat {
    Held(w.pool, j) + Runs(w.workers, j) + Num(w.ledger.finished, j) + Num(w.ledger.removed, j)
    + Num(w.ledger.discarded, j) + Num(w.ledger.overwritten, j)
  }

  ghost predicate Ticketed(jobs: seq<Job>) {
    forall i :: 0 <= i < |jobs| ==> jobs[i].ticket == i
  }

  ghost predicate Conserved(w: World, j: Job) {
    && Ticketed(w.ledger.accepted) && |w.ledger.accepted| == w.pool.nextTicket
    && Num(w.ledger.accepted, j) == Places(w, j)
    && Num(w.ledger.started, j) == Runs(w.workers, j) + Num(w.ledger.finished, j)
  }

  /** The next job to be picked is the head of the three queues put together. */
  lemma PickIsHead(p: Pool)
    requires !p.shutdown && p.persistentJob.None? && Flat(p.queues) != []
    ensures Picked(p).1 == Serve(Task(Flat(p.queues)[0], false))
    ensures Flat(Picked(p).0.queues) == Flat(p.queues)[1..]
  {
  }

  /** BumpPriority never changes which job is picked next. */
  lemma BumpKeepsTheNextJob(p: Pool, now: int)
    requires !NothingToDo(p)
    ensures Picked(p.(queues := Bump(p.queues, now, p.attr))).1 == Picked(p).1
  {
    hide Bump, Picked;
    BumpKeepsOrder(p.queues, now, p.attr);
    var q := p.(queues := Bump(p.queues, now, p.attr));
    if !p.shutdown && p.persistentJob.None? {
      PickIsHead(p);
      PickIsHead(q);
    } else {
      PickedAnyway(p, q);
    }
  }

  lemma PickedAnyway(p: Pool, q: Pool)
    requires q == p.(queues := q.queues) && (p.shutdown || p.persistentJob.Some?)
    ensures Picked(p).1 == Picked(q).1
  {
  }

  function Taking(d: Decision): seq<Job> {
    if d.Serve? then [d.task.job] else []
  }

  lemma PickedHeld(p: Pool, j: Job)
    ensures Held(p, j) == Held(Picked(p).0, j) + Num(Taking(Picked(p).1), j)
    ensures Picked(p).0.nextTicket == p.nextTicket
  {
    if !p.shutdown && p.persistentJob.None? && Flat(p.queues) != [] {
      PickIsHead(p);
    }
  }

  lemma CheckedHeld(p: Pool, now: int, timedOut: bool, j: Job)
    ensures Held(p, j) == Held(Checked(p, now, timedOut).0, j) + Num(Taking(Checked(p, now, timedOut).1), j)
    ensures Checked(p, now, timedOut).0.nextTicket == p.nextTicket
  {
    hide Bump, Picked, Num, Flat;
    if !NothingToDo(p) {
      BumpKeepsOrder(p.queues, now, p.attr);
      PickedHeld(p.(idleThreads := p.idleThreads - 1, queues := Bump(p.queues, now, p.attr)), j);
    } else {
      NumOfNone(j);
    }
  }

  lemma NumOfNone(j: Job)
    ensures Num([], j) == 0
  {
  }

  lemma WithoutNum(q: seq<Job>, i: nat, j: Job)
    requires i < |q|
    ensures Num(q, j) == Num(Without(q, i), j) + Num([q[i]], j)
  {
    hide Num;
    assert q == q[..i] + ([q[i]] + q[i + 1..]);
    NumConcat(q[..i], [q[i]] + q[i + 1..], j);
    NumConcat([q[i]], q[i + 1..], j);
    NumConcat(q[..i], q[i + 1..], j);
  }

  lemma FlatNum(q: Queues, j: Job)
    ensures Num(Flat(q), j) == Num(q.high, j) + Num(q.med, j) + Num(q.low, j)
  {
    hide Num;
    NumConcat(q.high + q.med, q.low, j);
    NumConcat(q.high, q.med, j);
  }

  lemma RemovedHeld(p: Pool, id: int, j: Job)
    ensures Held(p, j) == Held(Removed(p, id).0, j) + Num(Listed(Removed(p, id).1), j)
    ensures Removed(p, id).0.nextTicket == p.nextTicket
  {
    hide Without, Num, Flat, FindId;
    var q := p.queues;
    var (h, m, l) := (FindId(q.high, id), FindId(q.med, id), FindId(q.low, id));
    FlatNum(q, j);
    FlatNum(Removed(p, id).0.queues, j);
    NumOfNone(j);
    if h < |q.high| {
      WithoutNum(q.high, h, j);
    } else if m < |q.med| {
      WithoutNum(q.med, m, j);
    } else if l < |q.low| {
      WithoutNum(q.low, l, j);
    }
  }

  lemma FindIdConcat(a: seq<Job>, b: seq<Job>, id: int)
    ensures FindId(a + b, id) == if FindId(a, id) < |a| then FindId(a, id) else |a| + FindId(b, id)
  {
    if a == [] {
      assert a + b == b;
    } else {
      assert (a + b)[1..] == a[1..] + b;
      FindIdConcat(a[1..], b, id);
    }
  }

  /** ThreadPoolRemove takes out the first job with the id, over all that waits in
      the pool in the order in which it is searched; it fails if there is none. */
  lemma RemoveTakesTheFirst(p: Pool, id: int)
    ensures var (q, out) := Removed(p, id);
            var all := Waiting(p);
            var i := FindId(all, id);
            if i < |all| then out == Some(all[i]) && Waiting(q) == Without(all, i) else out == None && q == p
  {
    hide FindId, Without, Flat, Removed, Waiting;
    var (q, slot) := (p.queues, Listed(p.persistentJob));
    var (h, m, l) := (FindId(q.high, id), FindId(q.med, id), FindId(q.low, id));
    FindInFour(q.high, q.med, q.low, slot, id);
    FindIdOne(p.persistentJob, id);
    WaitingIs(p);
    RemovedIs(p, id);
    if h < |q.high| {
      WithoutMiddle([], q.high, q.med + q.low + slot, h);
    } else if m < |q.med| {
      WithoutMiddle(q.high, q.med, q.low + slot, m);
    } else if l < |q.low| {
      WithoutMiddle(q.high + q.med, q.low, slot, l);
    } else if slot != [] && slot[0].id == id {
      WithoutMiddle(q.high + q.med + q.low, slot, [], 0);
    }
  }

  /** What is left after ThreadPoolRemove, case by case. */
  lemma RemovedIs(p: Pool, id: int)
    ensures var (q, slot) := (p.queues, Listed(p.persistentJob));
            var (h, m, l) := (FindId(q.high, id), FindId(q.med, id), FindId(q.low, id));
            var (r, out) := Removed(p, id);
            if h < |q.high| then
              out == Some(q.high[h]) && Waiting(r) == [] + Without(q.high, h) + (q.med + q.low + slot)
            else if m < |q.med| then out == Some(q.med[m]) && Waiting(r) == q.high + Without(q.med, m) + (q.low + slot)
            else if l < |q.low| then out == Some(q.low[l]) && Waiting(r) == q.high + q.med + Without(q.low, l) + slot
            else if slot != [] && slot[0].id == id then
              out == Some(slot[0]) && Waiting(r) == q.high + q.med + q.low + [] + []
            else out == None && r == p
  {
    hide FindId, Without;
    WaitingIs(Removed(p, id).0);
  }

  lemma WaitingIs(p: Pool)
    ensures var (q, slot) := (p.queues, Listed(p.persistentJob));
            && Waiting(p) == q.high + q.med + q.low + slot
            && Waiting(p) == [] + q.high + (q.med + q.low + slot)
            && Waiting(p) == q.high + q.med + (q.low + slot)
            && Waiting(p) == q.high + q.med + q.low + slot + []
  {
  }

  lemma WithoutMiddle(a: seq<Job>, q: seq<Job>, b: seq<Job>, i: nat)
    requires i < |q|
    ensures Without(a + q + b, |a| + i) == a + Without(q, i) + b && (a + q + b)[|a| + i] == q[i]
    ensures |q| == 1 ==> Without(q, i) == []
  {
  }

  lemma FindInFour(a: seq<Job>, b: seq<Job>, c: seq<Job>, d: seq<Job>, id: int)
    ensures FindId(a + b + c + d, id) ==
            if FindId(a, id) < |a| then FindId(a, id)
            else if FindId(b, id) < |b| then |a| + FindId(b, id)
            else if FindId(c, id) < |c| then |a| + |b| + FindId(c, id)
            else |a| + |b| + |c| + FindId(d, id)
  {
    hide FindId;
    FindIdConcat(a + b + c, d, id);
    FindIdConcat(a + b, c, id);
    FindIdConcat(a, b, id);
  }

  lemma FindIdOne(o: Option<Job>, id: int)
    ensures FindId(Listed(o), id) == if o.Some? && o.value.id != id then 1 else 0
  {
  }

  /** What a caller's stretch does to the jobs of the pool. */
  ghost predicate PostStep(p: Pool, q: Pool, m: Move, j: Job) {
    && Held(p, j) + Num(Listed(m.posted), j) == Held(q, j) + Num(Listed(m.lost), j)
    && q.nextTicket == p.nextTicket + |Listed(m.posted)|
    && (m.posted.Some? ==> m.posted.value.ticket == p.nextTicket)
  }

  lemma CreatePosts(p: Pool, why: Purpose, env: Env, j: Job)
    ensures var (q, m) := Create(p, why, env); PostStep(p, q, m, j)
    ensures why.ForAdd? ==> Create(p, why, env).1.posted.None? && Create(p, why, env).1.lost.None?
  {
    hide Num, Flat;
    NumOfNone(j);
  }

  lemma ResumedPosts(p: Pool, c: Caller, env: Env, j: Job)
    ensures var (q, m) := Resumed(p, c, env); PostStep(p, q, m, j)
  {
    hide Create, Num, Flat;
    NumOfNone(j);
    match c
    case AwaitSlot(why) =>
      CreatePosts(p, why, env, j);
    case AwaitBirth(ForAdd(result, record, jobs, threads)) =>
      CreatePosts(p, ForAdd(result, record, jobs, threads + 1), env, j);
    case AwaitBirth(ForMinimum(i)) =>
      CreatePosts(p, ForMinimum(i + 1), env, j);
    case _ =>
  }

  lemma EnqueuedNum(q: Queues, job: Job, j: Job)
    ensures Num(Flat(Enqueued(q, job)), j) == Num(Flat(q), j) + Num([job], j)
  {
    hide Num, Flat;
    FlatNum(q, j);
    FlatNum(Enqueued(q, job), j);
    NumConcat(q.high, [job], j);
    NumConcat(q.med, [job], j);
    NumConcat(q.low, [job], j);
  }

  lemma AddedPosts(p: Pool, request: Job, env: Env, j: Job)
    ensures var (q, m) := Added(p, request, env); PostStep(p, q, m, j)
  {
    hide Create, Enqueued, Num, Flat;
    var job := NewJob(p, request, env.now);
    NumOfNone(j);
    EnqueuedNum(p.queues, job, j);
    var q := if env.nodeAlloc then p.(queues := Enqueued(p.queues, job), nextTicket := p.nextTicket + 1) else p;
    CreatePosts(q, AddPurpose(p, q, env),
                env, j);
  }

  /** ThreadPoolAdd hands a job over if and only if it will return 0. */
  lemma AddAnswers(p: Pool, request: Job, env: Env)
    ensures var (q, m) := Added(p, request, env);
            && (m.posted.Some? <==> QueuedJobs(p) < p.attr.maxJobsTotal && env.jobAlloc && env.nodeAlloc)
            && (m.caller.Returned? ==> (m.caller.code == 0 <==> m.posted.Some?))
            && (m.caller.AwaitSlot? || m.caller.AwaitBirth? ==>
                  m.caller.why.ForAdd? && (m.caller.why.code == 0 <==> m.posted.Some?))
  {
  }

  lemma MovedConserved(w: World, c: nat, p: Pool, m: Move, j: Job)
    requires Conserved(w, j) && c < |w.callers| && PostStep(w.pool, p, m, j)
    ensures Conserved(Moved(w, c, p, m), j)
  {
    hide Num, Held;
    NumOfNone(j);
    RunsConcat(w.workers, [Born], j);
    assert Runs([Born], j) == 0;
    NumConcat(w.ledger.accepted, Listed(m.posted), j);
    NumConcat(w.ledger.overwritten, Listed(m.lost), j);
  }

  lemma DecidedConserved(w: World, i: nat, p: Pool, d: Decision, j: Job)
    requires Conserved(w, j) && i < |w.workers| && w.workers[i].Blocked?
    requires Held(w.pool, j) == Held(p, j) + Num(Taking(d), j) && p.nextTicket == w.pool.nextTicket
    ensures Conserved(Decided(w, i, p, d), j)
  {
    hide Num, Held, Runs;
    var v := Decided(w, i, p, d);
    NumOfNone(j);
    RunsUpdate(w.workers, i, v.workers[i], j);
    NumConcat(w.ledger.started, Taking(d), j);
  }

  lemma LoopedConserved(w: World, i: nat, j: Job)
    requires Conserved(w, j) && i < |w.workers| && (w.workers[i].Started? || w.workers[i].Working?)
    ensures Conserved(Looped(w, i), j)
  {
    hide Num, Runs, Flat;
    NumOfNone(j);
    RunsUpdate(w.workers, i, Blocked, j);
    NumConcat(w.ledger.finished, JobOf(w.workers[i]), j);
  }

  lemma StartedConserved(w: World, i: nat, j: Job)
    requires Conserved(w, j) && i < |w.workers| && w.workers[i].Born?
    ensures Conserved(w.(pool := Registered(w.pool), workers := w.workers[i := Started]), j)
  {
    hide Num, Runs, Flat;
    NumOfNone(j);
    RunsUpdate(w.workers, i, Started, j);
  }

  lemma ShutDownConserved(w: World, c: nat, j: Job)
    requires Conserved(w, j) && Enabled(w, CallShutdown(c))
    ensures Conserved(Next(w, CallShutdown(c)), j)
  {
    hide Num, Runs, WithFree;
    NumOfNone(j);
    NumConcat(w.ledger.discarded, Waiting(w.pool), j);
    assert Waiting(w.pool) == Flat(w.pool.queues) + Listed(w.pool.persistentJob);
    NumConcat(Flat(w.pool.queues), Listed(w.pool.persistentJob), j);
    assert Flat(Queues([], [], [])) == [];
  }

  lemma AddedPersistentPosts(p: Pool, request: Job, env: Env, j: Job)
    ensures var (q, m) := AddedPersistent(p, request, env); PostStep(p, q, m, j)
  {
    hide Create, Num, Flat;
    NumOfNone(j);
    CreatePosts(p, ForPersistent(request), env, j);
  }

  lemma SetAttrPosts(p: Pool, attr: Attr, env: Env, j: Job)
    ensures var (q, m) := FillUp(p.(attr := attr), p.totalThreads, env); PostStep(p, q, m, j)
  {
    hide Create, Num, Flat;
    NumOfNone(j);
    CreatePosts(p.(attr := attr), ForMinimum(p.totalThreads), env, j);
  }

  lemma RemoveConserved(w: World, c: nat, id: int, j: Job)
    requires Conserved(w, j) && Enabled(w, CallRemove(c, id))
    ensures Conserved(Next(w, CallRemove(c, id)), j)
  {
    hide Num, Runs, Held, Removed;
    RemovedHeld(w.pool, id, j);
    NumConcat(w.ledger.removed, Listed(Removed(w.pool, id).1), j);
  }

  lemma NextConserved(w: World, e: Event, j: Job)
    requires Conserved(w, j) && Enabled(w, e)
    ensures Conserved(Next(w, e), j)
  {
    hide Checked, Create, Added, AddedPersistent, Resumed, Removed, FillUp, ShutDown, Conserved, PostStep, Held;
    match e
    case WorkerStarts(i) =>
      StartedConserved(w, i, j);
    case WorkerLoops(i, now) =>
      LoopConserved(w, i, now, j);
    case WorkerWakes(i, now, timedOut) =>
      WakeConserved(w, i, now, timedOut, j);
    case CallAdd(c, request, env) =>
      AddedPosts(w.pool, request, env, j);
      MovedConserved(w, c, Added(w.pool, request, env).0, Added(w.pool, request, env).1, j);
      AddListed(Moved(w, c, Added(w.pool, request, env).0, Added(w.pool, request, env).1),
                Listed(Added(w.pool, request, env).1.posted), j);
    case CallAddPersistent(c, request, env) =>
      AddedPersistentPosts(w.pool, request, env, j);
      MovedConserved(w, c, AddedPersistent(w.pool, request, env).0, AddedPersistent(w.pool, request, env).1, j);
    case CallRemove(c, id) =>
      RemoveConserved(w, c, id, j);
    case CallSetAttr(c, attr, env) =>
      SetAttrPosts(w.pool, attr, env, j);
      SetAttrConserved(w, c, attr, env, j);
    case CallShutdown(c) =>
      ShutDownConserved(w, c, j);
    case CallerWakes(c, env) =>
      ResumedPosts(w.pool, w.callers[c], env, j);
      MovedConserved(w, c, Resumed(w.pool, w.callers[c], env).0, Resumed(w.pool, w.callers[c], env).1, j);
  }

  lemma AddListed(w: World, jobs: seq<Job>, j: Job)
    requires Conserved(w, j)
    ensures Conserved(w.(ledger := w.ledger.(added := w.ledger.added + jobs)), j)
  {
  }

  lemma SetAttrConserved(w: World, c: nat, attr: Attr, env: Env, j: Job)
    requires Conserved(w, j) && Enabled(w, CallSetAttr(c, attr, env))
    ensures Conserved(Next(w, CallSetAttr(c, attr, env)), j)
  {
    hide FillUp, Conserved;
    SetAttrPosts(w.pool, attr, env, j);
    var (p, m) := FillUp(w.pool.(attr := attr), w.pool.totalThreads, env);
    MovedConserved(w, c, p, m, j);
  }

  lemma LoopConserved(w: World, i: nat, now: int, j: Job)
    requires Conserved(w, j) && Enabled(w, WorkerLoops(i, now))
    ensures Conserved(Next(w, WorkerLoops(i, now)), j)
  {
    hide Checked, Held, Conserved, Finished;
    var v := Looped(w, i);
    LoopedConserved(w, i, j);
    CheckedHeld(v.pool, now, false, j);
    var (p, d) := Checked(v.pool, now, false);
    DecidedConserved(v, i, p, d, j);
  }

  lemma WakeConserved(w: World, i: nat, now: int, timedOut: bool, j: Job)
    requires Conserved(w, j) && Enabled(w, WorkerWakes(i, now, timedOut))
    ensures Conserved(Next(w, WorkerWakes(i, now, timedOut)), j)
  {
    hide Checked, Held, Conserved;
    CheckedHeld(w.pool, now, timedOut, j);
    var (p, d) := Checked(w.pool, now, timedOut);
    DecidedConserved(w, i, p, d, j);
  }

  lemma InitialConserved(attr: Attr, n: nat, env: Env, j: Job)
    ensures Conserved(Initial(attr, n, env), j)
  {
    hide Create;
    var (p, m) := FillUp(Fresh(attr), 0, env);
    CreatePosts(Fresh(attr), ForMinimum(0), env, j);
    var w := World(Fresh(attr), [], seq(n + 1, _ => Returned(0)), NO_JOBS);
    MovedConserved(w, 0, p, m, j);
  }

  lemma {:induction false} RunConserved(w: World, es: seq<Event>, j: Job)
    requires Conserved(w, j)
    ensures Conserved(Run(w, es), j)
    decreases |es|
  {
    hide Conserved, Next, Enabled;
    if es != [] {
      if Enabled(w, es[0]) {
        NextConserved(w, es[0], j);
        RunConserved(Next(w, es[0]), es[1..], j);
      } else {
        RunConserved(w, es[1..], j);
      }
    }
  }

  lemma {:induction false} TicketedOnce(jobs: seq<Job>, j: Job)
    requires Ticketed(jobs)
    ensures Num(jobs, j) == if j in jobs then 1 else 0
  {
    if jobs != [] {
      var n := |jobs| - 1;
      TicketedOnce(jobs[..n], j);
      assert jobs == jobs[..n] + [jobs[n]];
      NumConcat(jobs[..n], [jobs[n]], j);
    }
  }

  /** In every reachable state each accepted job is in exactly one place, no other
      job is anywhere, and no job has been handed to a worker more than once. */
  lemma EveryJobInOnePlace(attr: Attr, n: nat, env: Env, es: seq<Event>, j: Job)
    ensures var w := Run(Initial(attr, n, env), es);
            && Num(Flat(w.pool.queues), j) + Num(Listed(w.pool.persistentJob), j) + Runs(w.workers, j)
               + Num(w.ledger.finished, j) + Num(w.ledger.removed, j)
               + Num(w.ledger.discarded, j) + Num(w.ledger.overwritten, j)
               == (if j in w.ledger.accepted then 1 else 0)
            && Num(w.ledger.started, j) == Runs(w.workers, j) + Num(w.ledger.finished, j) <= 1
  {
    hide Run, Initial;
    InitialConserved(attr, n, env, j);
    RunConserved(Initial(attr, n, env), es, j);
    TicketedOnce(Run(Initial(attr, n, env), es).ledger.accepted, j);
  }

  // ----- the jobs of ThreadPoolAdd

  /** No job of the list has the ticket. */
  ghost predicate Foreign(jobs: seq<Job>, x: Job) {
    forall i :: 0 <= i < |jobs| ==> jobs[i].ticket != x.ticket
  }

  /** A job of ThreadPoolAdd never comes near the persistent slot, and nothing is
      discarded before the shutdown. */
  ghost predicate AddsSafe(w: World) {
    && (forall i :: 0 <= i < |w.ledger.added| ==>
          var x := w.ledger.added[i];
          x in w.ledger.accepted && x.ticket < w.pool.nextTicket
          && Foreign(Listed(w.pool.persistentJob), x) && Foreign(w.ledger.overwritten, x))
    && (w.pool.persistentJob.Some? ==> w.pool.persistentJob.value.ticket < w.pool.nextTicket)
    && (forall i :: 0 <= i < |w.ledger.overwritten| ==> w.ledger.overwritten[i].ticket < w.pool.nextTicket)
    && (!w.pool.shutdown ==> w.ledger.discarded == [])
  }

  /** What a stretch other than ThreadPoolAdd's does to the persistent slot. */
  ghost predicate SlotStep(p: Pool, q: Pool, m: Move) {
    && q.shutdown == p.shutdown && q.nextTicket == p.nextTicket + |Listed(m.posted)|
    && if m.posted.Some?
       then m.posted.value.ticket == p.nextTicket && q.persistentJob == m.posted && m.lost == p.persistentJob
       else q.persistentJob == p.persistentJob && m.lost.None?
  }

  lemma CreateSlot(p: Pool, why: Purpose, env: Env)
    ensures var (q, m) := Create(p, why, env);
            if why.ForAdd? then
              q.persistentJob == p.persistentJob && m.lost.None? && m.posted.None? && SlotStep(p, q, m)
            else SlotStep(p, q, m)
  {
  }

  lemma ResumedSlot(p: Pool, c: Caller, env: Env)
    ensures var (q, m) := Resumed(p, c, env); SlotStep(p, q, m)
  {
    hide Create;
    match c
    case AwaitSlot(why) =>
      CreateSlot(p, why, env);
    case AwaitBirth(ForAdd(result, record, jobs, threads)) =>
      CreateSlot(p, ForAdd(result, record, jobs, threads + 1), env);
    case AwaitBirth(ForMinimum(i)) =>
      CreateSlot(p, ForMinimum(i + 1), env);
    case _ =>
  }

  lemma AddedSlot(p: Pool, request: Job, env: Env)
    ensures var (q, m) := Added(p, request, env);
            && q.persistentJob == p.persistentJob && m.lost.None? && q.shutdown == p.shutdown
            && q.nextTicket == p.nextTicket + |Listed(m.posted)|
            && (m.posted.Some? ==> m.posted.value.ticket == p.nextTicket)
  {
    hide Create, Enqueued;
    var job := NewJob(p, request, env.now);
    var q := if env.nodeAlloc then p.(queues := Enqueued(p.queues, job), nextTicket := p.nextTicket + 1) else p;
    CreateSlot(q, AddPurpose(p, q, env), env);
  }

  lemma CheckedSlot(p: Pool, now: int, timedOut: bool)
    ensures var q := Checked(p, now, timedOut).0;
            && (q.persistentJob == p.persistentJob || q.persistentJob.None?)
            && q.nextTicket == p.nextTicket && q.shutdown == p.shutdown
  {
    hide Bump;
  }

  lemma MovedSafe(w: World, c: nat, p: Pool, m: Move)
    requires AddsSafe(w) && c < |w.callers| && SlotStep(w.pool, p, m)
    ensures AddsSafe(Moved(w, c, p, m))
  {
  }

  lemma AddedSafe(w: World, c: nat, request: Job, env: Env)
    requires AddsSafe(w) && Enabled(w, CallAdd(c, request, env))
    ensures AddsSafe(Next(w, CallAdd(c, request, env)))
  {
    hide Added;
    AddedSlot(w.pool, request, env);
  }

  lemma NextSafe(w: World, e: Event)
    requires AddsSafe(w) && Enabled(w, e)
    ensures AddsSafe(Next(w, e))
  {
    hide Checked, Added, AddedPersistent, FillUp, Create, Resumed, Removed, WithFree, Waiting, AddsSafe, SlotStep;
    match e
    case WorkerStarts(i) =>
      WorkerSafe(w, Next(w, e));
    case WorkerLoops(i, now) =>
      CheckedSlot(Looped(w, i).pool, now, false);
      WorkerSafe(w, Next(w, e));
    case WorkerWakes(i, now, timedOut) =>
      CheckedSlot(w.pool, now, timedOut);
      WorkerSafe(w, Next(w, e));
    case CallAdd(c, request, env) =>
      AddedSafe(w, c, request, env);
    case CallAddPersistent(c, request, env) =>
      PersistentSlot(w.pool, request, env);
      MovedSafe(w, c, AddedPersistent(w.pool, request, env).0, AddedPersistent(w.pool, request, env).1);
    case CallRemove(c, id) =>
      RemovedSlot(w.pool, id);
      WorkerSafe(w, Next(w, e));
    case CallSetAttr(c, attr, env) =>
      SetAttrSafe(w, c, attr, env);
    case CallShutdown(c) =>
      ShutDownSafe(w, c);
    case CallerWakes(c, env) =>
      ResumedSlot(w.pool, w.callers[c], env);
      MovedSafe(w, c, Resumed(w.pool, w.callers[c], env).0, Resumed(w.pool, w.callers[c], env).1);
  }

  /** Emptying the slot, or leaving it alone, is safe. */
  lemma WorkerSafe(w: World, v: World)
    requires AddsSafe(w) && v.pool.nextTicket == w.pool.nextTicket && v.pool.shutdown == w.pool.shutdown
    requires v.pool.persistentJob == w.pool.persistentJob || v.pool.persistentJob.None?
    requires v.ledger.added == w.ledger.added && v.ledger.overwritten == w.ledger.overwritten
    requires v.ledger.discarded == w.ledger.discarded && v.ledger.accepted == w.ledger.accepted
    ensures AddsSafe(v)
  {
  }

  lemma PersistentSlot(p: Pool, request: Job, env: Env)
    ensures var (q, m) := AddedPersistent(p, request, env); SlotStep(p, q, m)
  {
    hide Create;
    CreateSlot(p, ForPersistent(request), env);
  }

  lemma RemovedSlot(p: Pool, id: int)
    ensures var q := Removed(p, id).0;
            && (q.persistentJob == p.persistentJob || q.persistentJob.None?)
            && q.nextTicket == p.nextTicket && q.shutdown == p.shutdown
  {
  }

  lemma SetAttrSafe(w: World, c: nat, attr: Attr, env: Env)
    requires AddsSafe(w) && Enabled(w, CallSetAttr(c, attr, env))
    ensures AddsSafe(Next(w, CallSetAttr(c, attr, env)))
  {
    hide Create, SlotStep, AddsSafe;
    var p := w.pool.(attr := attr);
    CreateSlot(p, ForMinimum(w.pool.totalThreads), env);
    SameSlot(w.pool, attr, FillUp(p, w.pool.totalThreads, env).0, FillUp(p, w.pool.totalThreads, env).1);
    MovedSafe(w, c, FillUp(p, w.pool.totalThreads, env).0, FillUp(p, w.pool.totalThreads, env).1);
  }

  lemma SameSlot(p: Pool, attr: Attr, q: Pool, m: Move)
    requires SlotStep(p.(attr := attr), q, m) || (q == p.(attr := attr) && m.posted.None? && m.lost.None?)
    ensures SlotStep(p, q, m)
  {
  }

  lemma ShutDownSafe(w: World, c: nat)
    requires AddsSafe(w) && Enabled(w, CallShutdown(c))
    ensures AddsSafe(Next(w, CallShutdown(c)))
  {
    hide WithFree, Waiting;
  }

  lemma InitialSafe(attr: Attr, n: nat, env: Env)
    ensures AddsSafe(Initial(attr, n, env))
  {
    hide Create;
    CreateSlot(Fresh(attr), ForMinimum(0), env);
  }

  lemma {:induction false} RunSafe(w: World, es: seq<Event>)
    requires AddsSafe(w)
    ensures AddsSafe(Run(w, es))
    decreases |es|
  {
    hide AddsSafe, Next, Enabled;
    if es != [] {
      if Enabled(w, es[0]) {
        NextSafe(w, es[0]);
        RunSafe(Next(w, es[0]), es[1..]);
      } else {
        RunSafe(w, es[1..]);
      }
    }
  }

  lemma {:induction false} ForeignIsAbsent(jobs: seq<Job>, x: Job)
    requires Foreign(jobs, x)
    ensures Num(jobs, x) == 0
  {
    if jobs != [] {
      assert forall i :: 0 <= i < |jobs[1..]| ==> jobs[1..][i] == jobs[i + 1];
      ForeignIsAbsent(jobs[1..], x);
    }
  }

  /** In every reachable state before the shutdown, a job that ThreadPoolAdd accepted
      is in exactly one of: a queue, one running worker, finished, removed. Later it
      can also have been discarded by the shutdown, and nothing else. */
  lemma AddedJobInOnePlace(attr: Attr, n: nat, env: Env, es: seq<Event>, j: Job)
    requires j in Run(Initial(attr, n, env), es).ledger.added
    ensures var w := Run(Initial(attr, n, env), es);
            && Num(Flat(w.pool.queues), j) + Runs(w.workers, j) + Num(w.ledger.finished, j) + Num(w.ledger.removed, j)
               + (if w.pool.shutdown then Num(w.ledger.discarded, j) else 0) == 1
            && Num(w.ledger.started, j) == Runs(w.workers, j) + Num(w.ledger.finished, j)
  {
    EveryJobInOnePlace(attr, n, env, es, j);
    InitialSafe(attr, n, env);
    RunSafe(Initial(attr, n, env), es);
    hide Run, Initial;
    var w := Run(Initial(attr, n, env), es);
    ForeignIsAbsent(Listed(w.pool.persistentJob), j);
    ForeignIsAbsent(w.ledger.overwritten, j);
    NumOfNone(j);
  }

  // ----- free_func

  lemma {:induction false} WithFreeNum(jobs: seq<Job>, j: Job)
    ensures Num(WithFree(jobs), j) == if j.hasFree then Num(jobs, j) else 0
  {
    if jobs != [] {
      WithFreeNum(jobs[1..], j);
    }
  }

  ghost predicate FreedRight(w: World, j: Job) {
    Num(w.ledger.freed, j) == if j.hasFree then Num(w.ledger.discarded, j) else 0
  }

  lemma NextFreedRight(w: World, e: Event, j: Job)
    requires FreedRight(w, j) && Enabled(w, e)
    ensures FreedRight(Next(w, e), j)
  {
    hide Checked, Added, AddedPersistent, Resumed, Removed, FillUp, Finished, Waiting, WithFree, Num;
    if e.CallShutdown? {
      WithFreeNum(Waiting(w.pool), j);
      NumConcat(w.ledger.freed, WithFree(Waiting(w.pool)), j);
      NumConcat(w.ledger.discarded, Waiting(w.pool), j);
    }
  }

  lemma {:induction false} RunFreedRight(w: World, es: seq<Event>, j: Job)
    requires FreedRight(w, j)
    ensures FreedRight(Run(w, es), j)
    decreases |es|
  {
    hide FreedRight, Next, Enabled;
    if es != [] {
      if Enabled(w, es[0]) {
        NextFreedRight(w, es[0], j);
        RunFreedRight(Next(w, es[0]), es[1..], j);
      } else {
        RunFreedRight(w, es[1..], j);
      }
    }
  }

  /** ThreadPoolShutdown calls free_func exactly once for each job it discards
      whose free_func is not null, and for no other job. */
  lemma FreedExactlyOnce(attr: Attr, n: nat, env: Env, es: seq<Event>, j: Job)
    ensures var w := Run(Initial(attr, n, env), es);
            Num(w.ledger.freed, j) == (if j.hasFree then Num(w.ledger.discarded, j) else 0) <= 1
  {
    EveryJobInOnePlace(attr, n, env, es, j);
    InitialFreed(attr, n, env, j);
    hide Run, Initial;
    RunFreedRight(Initial(attr, n, env), es, j);
  }

  lemma InitialFreed(attr: Attr, n: nat, env: Env, j: Job)
    ensures FreedRight(Initial(attr, n, env), j)
  {
  }
}
