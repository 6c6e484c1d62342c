/** The pool object itself: its fields, changed in place by the stretches of code that
    hold its mutex. Each of them is one step of the protocol, and keeps what the
    protocol keeps. */
module PoolMonitor {
  import opened PoolSteps
  import opened PoolProtocol
  import opened PoolJobs
  import opened PoolIds
  import opened PoolWaiting
  import opened Wrappers

  /** What every step of every interleaving keeps: the counters agree with what the
      threads are doing, no job is lost or doubled, those of ThreadPoolAdd stay clear
      of the persistent slot, and the ids given back are in order. */
  ghost predicate Sound(w: World) {
    Counted(w.pool, w.workers) && AllConserved(w) && AddsSafe(w) && IdsRight(w)
  }

  ghost predicate AllConserved(w: World) {
    forall j: Job :: Conserved(w, j)
  }

  lemma NextSound(w: World, e: Event)
    requires Sound(w) && Enabled(w, e)
    ensures Sound(Next(w, e))
  {
    hide Next, Enabled, Counted, Conserved, AddsSafe, IdsRight;
    NextCounted(w, e);
    NextSafe(w, e);
    NextIds(w, e);
    forall j: Job ensures Conserved(Next(w, e), j) {
      NextConserved(w, e, j);
    }
  }

  lemma InitialSound(attr: Attr, n: nat, env: Env)
    ensures Sound(Initial(attr, n, env))
  {
    hide Initial, Counted, Conserved, AddsSafe, IdsRight;
    InitialCounted(attr, n, env);
    InitialSafe(attr, n, env);
    InitialIds(attr, n, env);
    forall j: Job ensures Conserved(Initial(attr, n, env), j) {
      InitialConserved(attr, n, env, j);
    }
  }

  /** What a worker decides. Without a job it sleeps, or quits if it is one too many:
      beyond minThreads after a wait in vain, or beyond maxThreads. On shutdown it
      quits. A job from the queues is the first of high, medium and low put together,
      and the others stay in order; the persistent job goes before them. */
  ghost predicate RightDecision(p: Pool, q: Pool, d: Decision, timedOut: bool) {
    var idle := Flat(p.queues) == [] && p.persistentJob.None? && !p.shutdown;
    var spare := (timedOut && p.totalThreads > p.attr.minThreads)
                 || (p.attr.maxThreads != -1 && p.totalThreads > p.attr.maxThreads);
    match d
    case Block => idle && !spare && q.queues == p.queues
    case Quit => p.shutdown || (idle && spare)
    case Serve(task) =>
      && !p.shutdown
      && if task.persistent
         then p.persistentJob == Some(task.job) && q.persistentJob.None? && Flat(q.queues) == Flat(p.queues)
         else p.persistentJob.None? && Flat(p.queues) == [task.job] + Flat(q.queues)
  }

  lemma DecidesRight(p: Pool, now: int, timedOut: bool)
    ensures RightDecision(p, Checked(p, now, timedOut).0, Checked(p, now, timedOut).1, timedOut)
  {
    hide Bump, Picked;
    var (q, d) := Checked(p, now, timedOut);
    if d.Quit? {
      WhyWorkersQuit(p, now, timedOut);
    } else if d.Serve? {
      BumpKeepsOrder(p.queues, now, p.attr);
      PickServes(p.(idleThreads := p.idleThreads - 1, queues := Bump(p.queues, now, p.attr)));
    } else {
      PickNeverBlocks(p.(idleThreads := p.idleThreads - 1, queues := Bump(p.queues, now, p.attr)));
    }
  }

  lemma PickNeverBlocks(p: Pool)
    ensures !Picked(p).1.Block?
  {
  }

  lemma PickServes(p: Pool)
    requires Picked(p).1.Serve?
    ensures var (q, task) := (Picked(p).0, Picked(p).1.task);
            && !p.shutdown
            && if task.persistent
               then p.persistentJob == Some(task.job) && q.persistentJob.None? && Flat(q.queues) == Flat(p.queues)
               else p.persistentJob.None? && Flat(p.queues) == [task.job] + Flat(q.queues)
  {
    if !p.shutdown && p.persistentJob.None? && Flat(p.queues) != [] {
      PickIsHead(p);
    }
  }

  lemma LoopedDecides(w: World, i: nat, now: int)
    requires i < |w.workers|
    ensures var (q, d) := Checked(Looped(w, i).pool, now, false); RightDecision(w.pool, q, d, false)
  {
    hide Checked;
    DecidesRight(Looped(w, i).pool, now, false);
  }

  /** In a sound state no thread is being born unless one is starting. */
  lemma Handshake(w: World)
    requires Sound(w) && !w.pool.starting
    ensures Count(w.workers, IsBorn) == 0
  {
    hide AllConserved, AddsSafe, IdsRight;
  }

  /** The record of a job: the request, with the next id and the time of the call. */
  ghost predicate IsRecord(job: Job, request: Job, p: Pool, env: Env) {
    && job.id == p.lastJobId && job.ticket == p.nextTicket && job.requestTime == env.now
    && job.priority == request.priority && job.hasFree == request.hasFree
  }

  /** What ThreadPoolAdd does with a job that it accepts: it joins the tail of the
      queue of its priority, and all that waited before stay in their places. */
  ghost predicate Queued(p: Pool, q: Pool, job: Job) {
    && (job.priority.HighPriority? ==> q.queues == p.queues.(high := p.queues.high + [job]))
    && (job.priority.MedPriority? ==> q.queues == p.queues.(med := p.queues.med + [job]))
    && (job.priority.LowPriority? ==> q.queues == p.queues.(low := p.queues.low + [job]))
    && q.persistentJob == p.persistentJob
  }

  /** A thread can be created now: none is starting, the pool is not full, and the
      system agrees. */
  ghost predicate MayStart(p: Pool, env: Env) {
    && !p.starting && (p.attr.maxThreads == -1 || p.totalThreads < p.attr.maxThreads) && env.created == 0
  }

  // ----- what the answers mean

  lemma AddQueues(p: Pool, request: Job, env: Env)
    ensures var (q, m) := Added(p, request, env);
            && (m.posted.Some? ==> IsRecord(m.posted.value, request, p, env) && Queued(p, q, m.posted.value))
            && (m.posted.None? ==> q.queues == p.queues)
            && (m.caller.Returned? && m.posted.Some? ==>
                  m.handed == Some(Handed(m.posted.value.id, m.posted.value.id)))
  {
    hide Create, Flat;
    var job := NewJob(p, request, env.now);
    var q := if env.nodeAlloc then p.(queues := Enqueued(p.queues, job), nextTicket := p.nextTicket + 1) else p;
    CreateQueues(q, AddPurpose(p, q, env), env);
    CreateSlot(q, AddPurpose(p, q, env), env);
    CreateIds(q, AddPurpose(p, q, env), env);
  }

  /** ThreadPoolAdd adds a worker if there is no regular one, if there are at least
      jobsPerThread jobs to each, or if all are busy; the new job counts. */
  ghost predicate AddsWorker(p: Pool, env: Env, m: Move) {
    var before := |p.queues.high| + |p.queues.med| + |p.queues.low|;
    var jobs := before + if env.nodeAlloc then 1 else 0;
    var regular := p.totalThreads - p.persistentThreads;
    var wanted := before < p.attr.maxJobsTotal && env.jobAlloc
                  && (regular == 0 || jobs / regular >= p.attr.jobsPerThread || p.totalThreads == p.busyThreads);
    && (m.spawned <==> wanted && MayStart(p, env))
    && (m.spawned <==> m.caller.AwaitBirth?)
    && (m.caller.AwaitSlot? <==> wanted && p.starting)
    && (!m.spawned && !m.caller.AwaitSlot? ==> m.caller.Returned?)
  }

  lemma QueuedIs(p: Pool)
    ensures QueuedJobs(p) == |p.queues.high| + |p.queues.med| + |p.queues.low|
  {
  }

  lemma AddWorkersRight(p: Pool, request: Job, env: Env)
    ensures AddsWorker(p, env, Added(p, request, env).1)
  {
  }

  /** ThreadPoolAddPersistent: below maxThreads it first sees to one more worker, and
      then accepts the job unless memory is out; at maxThreads it refuses the job if
      only one thread is not persistent. */
  ghost predicate PersistentAnswer(p: Pool, request: Job, env: Env, m: Move) {
    var below := p.totalThreads < p.attr.maxThreads;
    && (m.spawned <==> below && MayStart(p, env))
    && (m.spawned <==> m.caller == AwaitBirth(ForPersistent(request)))
    && (m.caller == AwaitSlot(ForPersistent(request)) <==> below && p.starting)
    && (m.posted.Some? <==>
          && env.jobAlloc
          && if below then !p.starting && env.created != 0 else p.totalThreads - p.persistentThreads != 1)
    && (m.posted.Some? ==> IsRecord(m.posted.value, request, p, env) && m.caller == AwaitTaken(p.lastJobId))
    && (m.posted.None? && !m.spawned && !m.caller.AwaitSlot? ==> m.caller == Returned(0x2000_0000))
  }

  lemma PersistentAnswers(p: Pool, request: Job, env: Env)
    ensures var (q, m) := AddedPersistent(p, request, env);
            && q.queues == p.queues && PersistentAnswer(p, request, env, m)
            && (if m.posted.Some? then q.persistentJob == m.posted && m.lost == p.persistentJob
                else q.persistentJob == p.persistentJob)
            && (m.caller.Returned? ==> m.caller.code == REFUSED && m.posted.None?)
  {
  }

  lemma FirstWorker(attr: Attr, env: Env)
    ensures var q := FillUp(Fresh(attr), 0, env).0;
            && q == Fresh(attr).(starting := q.starting)
            && (q.starting <==>
                  attr.minThreads > 0 && (attr.maxThreads == -1 || attr.maxThreads > 0) && env.created == 0)
  {
  }

  lemma SetAttrAnswers(p: Pool, attr: Attr, env: Env)
    ensures var (q, m) := FillUp(p.(attr := attr), p.totalThreads, env);
            && q.attr == attr && q.queues == p.queues && q.persistentJob == p.persistentJob
            && (m.caller == Returned(0) <==> p.totalThreads >= attr.minThreads)
            && (m.spawned <==> p.totalThreads < attr.minThreads && MayStart(p.(attr := attr), env))
  {
  }

  /** How a caller goes on from its wait for a worker: it waits on while a worker is
      starting; in its turn it creates one if it may; after the birth it tests its
      loop again, with one worker more. */
  ghost predicate WokenRight(p: Pool, k: Caller, env: Env, m: Move) {
    match k
    case AwaitSlot(why) =>
      && (p.starting ==> m == Rest(k))
      && (m.spawned <==> MayStart(p, env)) && (m.spawned ==> m.caller == AwaitBirth(why))
      && (!p.starting && !m.spawned ==> Settles(p, why, env, m))
    case AwaitBirth(why) => if p.starting then m == Rest(k) else AfterBirthRight(p, why, env, m)
    case _ => !m.spawned
  }

  ghost predicate AfterBirthRight(p: Pool, why: Purpose, env: Env, m: Move) {
    match why
    case ForAdd(code, record, jobs, threads) =>
      var wanted := threads == -1 || jobs / (threads + 1) >= p.attr.jobsPerThread
                    || p.totalThreads == p.busyThreads;
      && (m.spawned <==> wanted && MayStart(p, env))
      && m.caller == (if m.spawned then AwaitBirth(ForAdd(code, record, jobs, threads + 1))
                      else Returned(code))
    case ForPersistent(_) => !m.spawned && Settles(p, why, env, m)
    case ForMinimum(i) =>
      && (m.spawned <==> i + 1 < p.attr.minThreads && MayStart(p, env))
      && (m.spawned ==> m.caller == AwaitBirth(ForMinimum(i + 1)))
      && (i + 1 >= p.attr.minThreads ==> m.caller == Returned(0))
      && (!m.spawned && i + 1 < p.attr.minThreads ==> m.caller.Failed?)
  }

  /** What a caller does when it is done with the worker, or has got none. */
  ghost predicate Settles(p: Pool, why: Purpose, env: Env, m: Move) {
    match why
    case ForAdd(code, record, _, _) => m.caller == Returned(code)
    case ForPersistent(request) =>
      && (m.posted.Some? <==> env.jobAlloc)
      && (m.posted.Some? ==> IsRecord(m.posted.value, request, p, env) && m.caller == AwaitTaken(p.lastJobId))
      && (m.posted.None? ==> m.caller == Returned(0x2000_0000))
    case ForMinimum(_) => m.caller.Failed? && m.caller.code != 0
  }

  lemma AfterBirthIsRight(p: Pool, why: Purpose, env: Env)
    requires !p.starting
    ensures AfterBirthRight(p, why, env, AfterBirth(p, why, env).1)
  {
  }

  lemma WakesRight(p: Pool, k: Caller, env: Env)
    ensures WokenRight(p, k, env, Resumed(p, k, env).1)
  {
    hide AfterBirth;
    if k.AwaitBirth? && !p.starting {
      AfterBirthIsRight(p, k.why, env);
    }
  }

  lemma NeverNegative(w: World)
    requires Sound(w)
    ensures w.pool.totalThreads >= 0
  {
    hide AllConserved, AddsSafe, IdsRight;
  }

  lemma WakeAnswers(w: World, c: nat, env: Env)
    requires Sound(w) && Enabled(w, CallerWakes(c, env))
    ensures var (k, q, m) := (w.callers[c], Resumed(w.pool, w.callers[c], env).0, Resumed(w.pool, w.callers[c], env).1);
            && q.queues == w.pool.queues
            && (k.AwaitEnd? ==> (m.caller.Returned? <==> q.totalThreads == 0))
            && (k.AwaitTaken? ==> (m.caller.Returned? <==> w.pool.persistentJob.None?))
            && (RecordOf(k).Some? && m.caller.Returned?
                ==> m.handed == Some(Handed(RecordOf(k).value, |w.ledger.handed|)))
  {
    hide Create, AllConserved, AddsSafe, Counted;
    NeverNegative(w);
    ResumedQueues(w.pool, w.callers[c], env);
    ResumedIds(w.pool, w.callers[c], env);
    NotInAdd(Resumed(w.pool, w.callers[c], env).1.caller);
  }

  class ThreadPool {
    var attr: Attr
    var highJobQ: seq<Job>
    var medJobQ: seq<Job>
    var lowJobQ: seq<Job>
    var persistentJob: Option<Job>
    var lastJobId: int
    var shutdown: bool
    var totalThreads: int
    var busyThreads: int
    var persistentThreads: int
    var workerThreads: int
    var idleThreads: int
    var pendingWorkerThreadStart: bool
    var nextTicket: nat
    // The threads, and what has become of the jobs.
    ghost var workers: seq<Worker>
    ghost var callers: seq<Caller>
    ghost var ledger: Ledger

    ghost function View(): Pool
      reads this
    {
      Pool(attr, Queues(highJobQ, medJobQ, lowJobQ), persistentJob, lastJobId, shutdown,
           totalThreads, busyThreads, persistentThreads, workerThreads, idleThreads,
           pendingWorkerThreadStart, nextTicket)
    }

    ghost function State(): World
      reads this
    {
      World(View(), workers, callers, ledger)
    }

    ghost predicate Valid()
      reads this
    {
      Sound(State())
    }

    // ----- the pieces of the stretches

    method BumpPriority(now: int)
      modifies `highJobQ, `medJobQ, `lowJobQ
      ensures View() == old(View()).(queues := Bump(old(View().queues), now, attr))
    {
      ghost var all := Bump(View().queues, now, attr);
      var done := false;
      while !done
        invariant if done then View().queues == all else all == Bump(View().queues, now, attr)
        decreases if done then 0 else 1, 2 * |lowJobQ| + |medJobQ|
      {
        if |medJobQ| > 0 {
          var job := medJobQ[0];
          if DiffMillis(now, job.requestTime) >= attr.starvationTime {
            medJobQ := medJobQ[1..];
            highJobQ := highJobQ + [job];
            continue;
          }
        }
        if |lowJobQ| > 0 {
          var job := lowJobQ[0];
          if DiffMillis(now, job.requestTime) >= attr.maxIdleTime {
            lowJobQ := lowJobQ[1..];
            medJobQ := medJobQ + [job];
            continue;
          }
        }
        done := true;
      }
    }

    method FinishTask(task: Option<Task>)
      modifies `busyThreads, `idleThreads, `workerThreads, `persistentThreads
      ensures View() == Finished(old(View()), task)
    {
      if task.Some? {
        busyThreads := busyThreads - 1;
      }
      idleThreads := idleThreads + 1;
      if task.Some? {
        if task.value.persistent {
          persistentThreads := persistentThreads - 1;
        } else {
          workerThreads := workerThreads - 1;
        }
      }
    }

    /** What a worker does once it is out of the wait loop, after BumpPriority. */
    method PickTask() returns (d: Decision)
      modifies `highJobQ, `medJobQ, `lowJobQ, `persistentJob, `totalThreads, `busyThreads, `persistentThreads,
               `workerThreads
      ensures (View(), d) == Picked(old(View()))
    {
      if shutdown {
        totalThreads := totalThreads - 1;
        return Quit;
      }
      if persistentJob.Some? {
        d := Serve(Task(persistentJob.value, true));
        persistentJob := None;
        persistentThreads := persistentThreads + 1;
      } else {
        workerThreads := workerThreads + 1;
        if |highJobQ| > 0 {
          d := Serve(Task(highJobQ[0], false));
          highJobQ := highJobQ[1..];
        } else if |medJobQ| > 0 {
          d := Serve(Task(medJobQ[0], false));
          medJobQ := medJobQ[1..];
        } else if |lowJobQ| > 0 {
          d := Serve(Task(lowJobQ[0], false));
          lowJobQ := lowJobQ[1..];
        } else {
          workerThreads := workerThreads - 1;
          totalThreads := totalThreads - 1;
          return Quit;
        }
      }
      busyThreads := busyThreads + 1;
    }

    /** The body of WorkerThread's loop, from the test of the wait loop on. */
    method CheckForWork(now: int, timedOut: bool) returns (d: Decision)
      modifies `highJobQ, `medJobQ, `lowJobQ, `persistentJob
      modifies `totalThreads, `busyThreads, `persistentThreads, `workerThreads, `idleThreads
      ensures (View(), d) == Checked(old(View()), now, timedOut)
    {
      hide Bump, Picked;
      if lowJobQ == [] && medJobQ == [] && highJobQ == [] && persistentJob.None? && !shutdown {
        if (timedOut && totalThreads > attr.minThreads) || (attr.maxThreads != -1 && totalThreads > attr.maxThreads) {
          idleThreads := idleThreads - 1;
          totalThreads := totalThreads - 1;
          return Quit;
        }
        return Block;
      }
      idleThreads := idleThreads - 1;
      BumpPriority(now);
      d := PickTask();
    }

    method CreateWorker(created: int) returns (a: Attempt)
      modifies `pendingWorkerThreadStart
      ensures (View(), a) == TryCreate(old(View()), created)
    {
      if pendingWorkerThreadStart {
        return Busy;
      }
      if attr.maxThreads != INFINITE_THREADS && totalThreads + 1 > attr.maxThreads {
        return Refused(REFUSED);
      }
      if created != 0 {
        return Refused(created);
      }
      pendingWorkerThreadStart := true;
      a := Spawned;
    }

    /** The last lines of ThreadPoolAdd and ThreadPoolAddPersistent. */
    method GiveIdBack(result: int, record: int) returns (m: Move)
      modifies `lastJobId
      ensures (View(), m) == AddReturns(old(View()), result, record)
    {
      m := Rest(Returned(result)).(handed := Some(Handed(record, lastJobId)));
      lastJobId := lastJobId + 1;
    }

    /** ThreadPoolAddPersistent once its CreateWorker has returned. */
    method PostPersistent(request: Job, env: Env) returns (m: Move)
      modifies `persistentJob, `nextTicket
      ensures (View(), m) == Submit(old(View()), request, env)
    {
      if !env.jobAlloc {
        return Rest(Returned(REFUSED));
      }
      var job := request.(ticket := nextTicket, id := lastJobId, requestTime := env.now);
      m := Move(AwaitTaken(job.id), false, Some(job), persistentJob, None);
      persistentJob := Some(job);
      nextTicket := nextTicket + 1;
    }

    /** CreateWorker on behalf of a caller, up to its second wait; when it is
        refused the caller goes on to its own next wait or return. */
    method EnterCreateWorker(why: Purpose, env: Env) returns (m: Move)
      modifies `pendingWorkerThreadStart, `lastJobId, `persistentJob, `nextTicket
      ensures (View(), m) == Create(old(View()), why, env)
    {
      var a := CreateWorker(env.created);
      match a {
        case Busy => m := Rest(AwaitSlot(why));
        case Spawned => m := Move(AwaitBirth(why), true, None, None, None);
        case Refused(code) =>
          match why {
            case ForAdd(result, record, _, _) => m := GiveIdBack(result, record);
            case ForPersistent(request) => m := PostPersistent(request, env);
            case ForMinimum(_) => m := Rest(Failed(code));
          }
      }
    }

    /** AddWorker and the end of ThreadPoolAdd, from the test of the loop on. */
    method AddWorker(result: int, record: int, jobs: int, threads: int, env: Env) returns (m: Move)
      modifies `pendingWorkerThreadStart, `lastJobId, `persistentJob, `nextTicket
      ensures (View(), m) == AddWorkers(old(View()), result, record, jobs, threads, env)
    {
      hide Create;
      if threads == 0 || jobs / threads >= attr.jobsPerThread || totalThreads == busyThreads {
        m := EnterCreateWorker(ForAdd(result, record, jobs, threads), env);
      } else {
        m := GiveIdBack(result, record);
      }
    }

    method AddJob(request: Job, env: Env) returns (m: Move)
      modifies `highJobQ, `medJobQ, `lowJobQ, `nextTicket, `pendingWorkerThreadStart, `lastJobId, `persistentJob
      ensures (View(), m) == Added(old(View()), request, env)
    {
      var totalJobs := |highJobQ| + |lowJobQ| + |medJobQ|;
      if totalJobs >= attr.maxJobsTotal || !env.jobAlloc {
        return Rest(Returned(REFUSED));
      }
      var job := request.(ticket := nextTicket, id := lastJobId, requestTime := env.now);
      var rc := REFUSED;
      if env.nodeAlloc {
        rc := 0;
        nextTicket := nextTicket + 1;
        match job.priority {
          case HighPriority => highJobQ := highJobQ + [job];
          case MedPriority => medJobQ := medJobQ + [job];
          case LowPriority => lowJobQ := lowJobQ + [job];
        }
      }
      m := AddWorker(rc, job.id, |highJobQ| + |lowJobQ| + |medJobQ|, totalThreads - persistentThreads, env);
      m := m.(posted := if env.nodeAlloc then Some(job) else None);
    }

    method AddPersistentJob(request: Job, env: Env) returns (m: Move)
      modifies `nextTicket, `pendingWorkerThreadStart, `lastJobId, `persistentJob
      ensures (View(), m) == AddedPersistent(old(View()), request, env)
    {
      hide Create;
      if totalThreads < attr.maxThreads {
        m := EnterCreateWorker(ForPersistent(request), env);
      } else if totalThreads - persistentThreads - 1 == 0 {
        m := Rest(Returned(REFUSED));
      } else {
        m := PostPersistent(request, env);
      }
    }

    static method ListFind(q: seq<Job>, id: int) returns (i: nat)
      ensures i == FindId(q, id)
    {
      i := 0;
      while i < |q| && q[i].id != id
        invariant i <= |q|
        invariant forall k :: 0 <= k < i ==> q[k].id != id
      {
        i := i + 1;
      }
    }

    method RemoveJob(id: int) returns (out: Option<Job>)
      modifies `highJobQ, `medJobQ, `lowJobQ, `persistentJob
      ensures (View(), out) == Removed(old(View()), id)
    {
      var i := ListFind(highJobQ, id);
      if i < |highJobQ| {
        out := Some(highJobQ[i]);
        highJobQ := highJobQ[..i] + highJobQ[i + 1..];
        return;
      }
      i := ListFind(medJobQ, id);
      if i < |medJobQ| {
        out := Some(medJobQ[i]);
        medJobQ := medJobQ[..i] + medJobQ[i + 1..];
        return;
      }
      i := ListFind(lowJobQ, id);
      if i < |lowJobQ| {
        out := Some(lowJobQ[i]);
        lowJobQ := lowJobQ[..i] + lowJobQ[i + 1..];
        return;
      }
      out := None;
      if persistentJob.Some? && persistentJob.value.id == id {
        out := persistentJob;
        persistentJob := None;
      }
    }

    /** One of the loops of ThreadPoolShutdown; returns the jobs whose free_func
        it called, in order. */
    static method FreeAll(q: seq<Job>) returns (calls: seq<Job>)
      ensures calls == WithFree(q)
    {
      calls := [];
      var left := q;
      while left != []
        invariant WithFree(q) == calls + WithFree(left)
        decreases |left|
      {
        if left[0].hasFree {
          calls := calls + [left[0]];
        }
        left := left[1..];
      }
    }

    method FreeJobs() returns (c: Caller, calls: seq<Job>)
      modifies `highJobQ, `medJobQ, `lowJobQ, `persistentJob, `shutdown
      ensures (View(), c) == ShutDown(old(View()))
      ensures calls == WithFree(Waiting(old(View())))
    {
      ghost var p := View();
      var h := FreeAll(highJobQ);
      var m := FreeAll(medJobQ);
      var l := FreeAll(lowJobQ);
      calls := h + m + l;
      WithFreeConcat(highJobQ, medJobQ);
      WithFreeConcat(highJobQ + medJobQ, lowJobQ);
      if persistentJob.Some? {
        WithFreeConcat(Flat(p.queues), [persistentJob.value]);
        if persistentJob.value.hasFree {
          calls := calls + [persistentJob.value];
        }
      } else {
        assert Waiting(p) == Flat(p.queues);
      }
      highJobQ, medJobQ, lowJobQ, persistentJob := [], [], [], None;
      shutdown := true;
      c := if totalThreads > 0 then AwaitEnd else Returned(0);
    }

    /** The loop that creates the minimum of threads, from its test on. */
    method FillToMinimum(i: int, env: Env) returns (m: Move)
      modifies `pendingWorkerThreadStart, `lastJobId, `persistentJob, `nextTicket
      ensures (View(), m) == FillUp(old(View()), i, env)
    {
      hide Create;
      if i < attr.minThreads {
        m := EnterCreateWorker(ForMinimum(i), env);
      } else {
        m := Rest(Returned(0));
      }
    }

    /** A caller wakes up from ithread_cond_wait and tests its condition again. */
    method ResumeCaller(c: Caller, env: Env) returns (m: Move)
      modifies `pendingWorkerThreadStart, `lastJobId, `persistentJob, `nextTicket
      ensures (View(), m) == Resumed(old(View()), c, env)
    {
      hide Create, AddWorkers, FillUp;
      m := Rest(c);
      match c {
        case Returned(_) =>
        case Failed(_) =>
        case AwaitSlot(why) => m := EnterCreateWorker(why, env);
        case AwaitBirth(why) =>
          if !pendingWorkerThreadStart {
            match why {
              case ForAdd(result, record, jobs, threads) => m := AddWorker(result, record, jobs, threads + 1, env);
              case ForPersistent(request) => m := PostPersistent(request, env);
              case ForMinimum(i) => m := FillToMinimum(i + 1, env);
            }
          }
        case AwaitTaken(record) =>
          if persistentJob.None? {
            m := GiveIdBack(0, record);
          }
        case AwaitEnd =>
          if totalThreads <= 0 {
            m := Rest(Returned(0));
          }
      }
    }

    // ----- the stretches of a worker

    /** The start of WorkerThread ends the handshake: no other thread is starting. */
    method WorkerStart(ghost i: nat)
      requires Valid() && Enabled(State(), WorkerStarts(i))
      modifies this
      ensures Valid() && State() == Next(old(State()), WorkerStarts(i))
      ensures !pendingWorkerThreadStart && Count(workers, IsBorn) == 0 && totalThreads == old(totalThreads) + 1
    {
      hide Sound;
      NextSound(State(), WorkerStarts(i));
      totalThreads := totalThreads + 1;
      pendingWorkerThreadStart := false;
      workers := workers[i := Started];
      Handshake(State());
    }

    /** From the top of the worker's loop, with the job it has run, to its next wait,
        unlock or exit. */
    method WorkerLoop(ghost i: nat, task: Option<Task>, now: int) returns (d: Decision)
      requires Valid() && Enabled(State(), WorkerLoops(i, now)) && task == CurrentTask(workers[i])
      modifies this
      ensures Valid() && State() == Next(old(State()), WorkerLoops(i, now))
      ensures RightDecision(old(View()), View(), d, false)
    {
      hide RightDecision, Sound, Added, AddedPersistent, Removed, FillUp, ShutDown, Resumed, Checked, Finished,
           WithFree, Flat;
      NextSound(State(), WorkerLoops(i, now));
      LoopedDecides(State(), i, now);
      ghost var v := Looped(State(), i);
      FinishTask(task);
      workers, ledger := v.workers, v.ledger;
      d := CheckForWork(now, false);
      Decide(i, d);
    }

    /** From a wait of the worker to its next one, or to an unlock or exit. */
    method WorkerWake(ghost i: nat, now: int, timedOut: bool) returns (d: Decision)
      requires Valid() && Enabled(State(), WorkerWakes(i, now, timedOut))
      modifies this
      ensures Valid() && State() == Next(old(State()), WorkerWakes(i, now, timedOut))
      ensures RightDecision(old(View()), View(), d, timedOut)
    {
      hide RightDecision, Sound, Added, AddedPersistent, Removed, FillUp, ShutDown, Resumed, Checked, Finished,
           WithFree, Flat;
      NextSound(State(), WorkerWakes(i, now, timedOut));
      DecidesRight(View(), now, timedOut);
      d := CheckForWork(now, timedOut);
      Decide(i, d);
    }

    ghost method Decide(i: nat, d: Decision)
      requires i < |workers|
      modifies `workers, `ledger
      ensures State() == Decided(old(State()), i, View(), d)
    {
      var w := Decided(State(), i, View(), d);
      workers, ledger := w.workers, w.ledger;
    }

    // ----- the stretches of a caller

    /** ThreadPoolInit by the first of n + 1 threads, up to its first wait. */
    constructor (attr: Attr, ghost n: nat, env: Env)
      ensures Valid() && State() == Initial(attr, n, env)
      ensures this.attr == attr && highJobQ == medJobQ == lowJobQ == [] && persistentJob == None
      ensures lastJobId == totalThreads == 0 && !shutdown
      ensures pendingWorkerThreadStart <==>
                attr.minThreads > 0 && (attr.maxThreads == -1 || attr.maxThreads > 0) && env.created == 0
    {
      this.attr := attr;
      highJobQ, medJobQ, lowJobQ, persistentJob := [], [], [], None;
      lastJobId, shutdown, nextTicket := 0, false, 0;
      totalThreads, busyThreads, persistentThreads, workerThreads, idleThreads := 0, 0, 0, 0, 0;
      pendingWorkerThreadStart := false;
      workers, callers, ledger := [], seq(n + 1, _ => Returned(0)), NO_JOBS;
      new;
      hide Sound, FillUp;
      InitialSound(attr, n, env);
      FirstWorker(attr, env);
      var m := FillToMinimum(0, env);
      Record(0, m);
    }

    ghost method Record(c: nat, m: Move)
      requires c < |callers|
      modifies `workers, `callers, `ledger
      ensures State() == Moved(old(State()), c, View(), m)
    {
      var w := Moved(State(), c, View(), m);
      workers, callers, ledger := w.workers, w.callers, w.ledger;
    }

    /** ThreadPoolAdd: the job is accepted if and only if there is room and memory, and
        a call that returns at once then returns 0. For one that waits TheAnswerIsKept
        says so. */
    method Add(ghost c: nat, request: Job, env: Env) returns (m: Move)
      requires Valid() && Enabled(State(), CallAdd(c, request, env))
      modifies this
      ensures Valid() && State() == Next(old(State()), CallAdd(c, request, env))
      ensures m.posted.Some? <==>
                && old(|highJobQ| + |medJobQ| + |lowJobQ|) < attr.maxJobsTotal
                && env.jobAlloc && env.nodeAlloc
      ensures AddsWorker(old(View()), env, m)
      ensures m.posted.Some? ==>
                var j := m.posted.value;
                && j in ledger.added && IsRecord(j, request, old(View()), env)
                && (j.priority.HighPriority? ==>
                      highJobQ == old(highJobQ) + [j] && medJobQ == old(medJobQ) && lowJobQ == old(lowJobQ))
                && (j.priority.MedPriority? ==>
                      medJobQ == old(medJobQ) + [j] && highJobQ == old(highJobQ) && lowJobQ == old(lowJobQ))
                && (j.priority.LowPriority? ==>
                      lowJobQ == old(lowJobQ) + [j] && highJobQ == old(highJobQ) && medJobQ == old(medJobQ))
      ensures m.posted.None? ==> View().queues == old(View()).queues
      ensures m.caller.Returned? ==> (m.caller.code == 0 <==> m.posted.Some?)
      ensures m.caller.Returned? && m.posted.Some? ==> m.handed == Some(Handed(m.posted.value.id, m.posted.value.id))
    {
      hide QueuedJobs, AddsWorker, IsRecord, Sound, Added, AddedPersistent, Removed, FillUp, ShutDown, Resumed,
           Checked, Finished, WithFree, Flat;
      ghost var e := CallAdd(c, request, env);
      NextSound(State(), e);
      AddAnswers(View(), request, env);
      AddQueues(View(), request, env);
      AddWorkersRight(View(), request, env);
      assert QueuedJobs(View()) == |highJobQ| + |medJobQ| + |lowJobQ| by { QueuedIs(View()); }
      m := AddJob(request, env);
      Record(c, m);
      ledger := ledger.(added := ledger.added + Listed(m.posted));
    }

    /** ThreadPoolAddPersistent up to its first wait or its return. */
    method AddPersistent(ghost c: nat, request: Job, env: Env) returns (m: Move)
      requires Valid() && Enabled(State(), CallAddPersistent(c, request, env))
      modifies this
      ensures Valid() && State() == Next(old(State()), CallAddPersistent(c, request, env))
      ensures View().queues == old(View()).queues && ledger.added == old(ledger).added
      ensures PersistentAnswer(old(View()), request, env, m)
      ensures m.posted.Some? ==> persistentJob == m.posted && m.lost == old(persistentJob)
      ensures m.posted.None? ==> persistentJob == old(persistentJob)
      ensures m.caller.Returned? ==> m.caller.code == REFUSED && m.posted.None?
    {
      hide Sound, Added, AddedPersistent, Removed, FillUp, ShutDown, Resumed, Checked, Finished, WithFree, Flat;
      NextSound(State(), CallAddPersistent(c, request, env));
      PersistentAnswers(View(), request, env);
      m := AddPersistentJob(request, env);
      Record(c, m);
    }

    /** ThreadPoolRemove: the first job with the id out of all that waits in the pool,
        or none if none has the id. */
    method Remove(ghost c: nat, id: int) returns (out: Option<Job>)
      requires Valid() && Enabled(State(), CallRemove(c, id))
      modifies this
      ensures Valid() && State() == Next(old(State()), CallRemove(c, id))
      ensures var (all, i) := (Waiting(old(View())), FindId(Waiting(old(View())), id));
              if i < |all| then out == Some(all[i]) && Waiting(View()) == Without(all, i)
              else out == None && View() == old(View())
    {
      hide Sound, Added, AddedPersistent, Removed, FillUp, ShutDown, Resumed, Checked, Finished, WithFree, Flat;
      NextSound(State(), CallRemove(c, id));
      RemoveTakesTheFirst(View(), id);
      out := RemoveJob(id);
      callers := callers[c := Returned(if out.Some? then 0 else REFUSED)];
      ledger := ledger.(removed := ledger.removed + Listed(out));
    }

    /** ThreadPoolSetAttr up to its first wait or its return. */
    method SetAttr(ghost c: nat, attr: Attr, env: Env) returns (m: Move)
      requires Valid() && Enabled(State(), CallSetAttr(c, attr, env))
      modifies this
      ensures Valid() && State() == Next(old(State()), CallSetAttr(c, attr, env))
      ensures this.attr == attr && View().queues == old(View()).queues && persistentJob == old(persistentJob)
      ensures m.caller == Returned(0) <==> old(totalThreads) >= attr.minThreads
      ensures m.spawned <==> old(totalThreads) < attr.minThreads && MayStart(old(View()).(attr := attr), env)
    {
      hide Sound, Added, AddedPersistent, Removed, FillUp, ShutDown, Resumed, Checked, Finished, WithFree, Flat;
      NextSound(State(), CallSetAttr(c, attr, env));
      SetAttrAnswers(View(), attr, env);
      this.attr := attr;
      m := FillToMinimum(totalThreads, env);
      Record(c, m);
    }

    /** ThreadPoolShutdown up to its wait: nothing waits any more, and free_func has
        been called for each waiting job that has one, in order. */
    method Shutdown(ghost c: nat) returns (k: Caller, calls: seq<Job>)
      requires Valid() && Enabled(State(), CallShutdown(c))
      modifies this
      ensures Valid() && State() == Next(old(State()), CallShutdown(c))
      ensures shutdown && Waiting(View()) == [] && calls == WithFree(Waiting(old(View())))
      ensures k.Returned? <==> totalThreads == 0
    {
      hide Sound, Added, AddedPersistent, Removed, FillUp, Resumed, Checked, Finished, WithFree;
      NextSound(State(), CallShutdown(c));
      NeverNegative(State());
      ghost var w := State();
      k, calls := FreeJobs();
      callers := callers[c := k];
      ledger := ledger.(discarded := ledger.discarded + Waiting(w.pool), freed := ledger.freed + calls);
    }

    /** A caller wakes up in one of its waits and goes on to the next, or returns:
        ThreadPoolShutdown only when no thread that registered is left. */
    method Wake(ghost c: nat, k: Caller, env: Env) returns (m: Move)
      requires Valid() && Enabled(State(), CallerWakes(c, env)) && k == callers[c]
      modifies this
      ensures Valid() && State() == Next(old(State()), CallerWakes(c, env))
      ensures View().queues == old(View()).queues && WokenRight(old(View()), k, env, m)
      ensures k.AwaitEnd? ==> (m.caller.Returned? <==> totalThreads == 0)
      ensures k.AwaitTaken? ==> (m.caller.Returned? <==> old(persistentJob).None?)
      ensures RecordOf(k).Some? && m.caller.Returned? ==>
                m.handed == Some(Handed(RecordOf(k).value, |old(ledger).handed|))
    {
      hide Sound, Added, AddedPersistent, Removed, FillUp, ShutDown, Resumed, Checked, Finished, WithFree, Flat;
      NextSound(State(), CallerWakes(c, env));
      WakeAnswers(State(), c, env);
      WakesRight(View(), k, env);
      m := ResumeCaller(k, env);
      Record(c, m);
    }
  }
}
