/** Every interleaving of workers and callers over one thread pool: each stretch
    of code that holds the mutex is one step. */
module PoolProtocol {
  import opened PoolSteps
  import opened Wrappers

  // ----- the threads and the history

  /** A thread that runs WorkerThread. */
  datatype Worker =
    | Born                // created; has not taken the mutex yet
    | Started             // registered; has not reached the loop yet
    | Blocked             // in ithread_cond_timedwait
    | Working(task: Task) // runs a job without the mutex
    | Gone

  /** What has become of the jobs that were accepted; `added` are those accepted by
      ThreadPoolAdd, `freed` lists the calls of free_func that ThreadPoolShutdown
      made, and `handed` the ids that were given back. */
  datatype Ledger = Ledger(
    accepted: seq<Job>, added: seq<Job>, started: seq<Job>, finished: seq<Job>, removed: seq<Job>,
    overwritten: seq<Job>, discarded: seq<Job>, freed: seq<Job>, handed: seq<Handed>)

  const NO_JOBS := Ledger([], [], [], [], [], [], [], [], [])

  datatype World = World(pool: Pool, workers: seq<Worker>, callers: seq<Caller>, ledger: Ledger)

  datatype Event =
    | WorkerStarts(w: nat)
    | WorkerLoops(w: nat, now: int)
    | WorkerWakes(w: nat, now: int, timedOut: bool)
    | CallAdd(c: nat, request: Job, env: Env)
    | CallAddPersistent(c: nat, request: Job, env: Env)
    | CallRemove(c: nat, id: int)
    | CallSetAttr(c: nat, attr: Attr, env: Env)
    | CallShutdown(c: nat)
    | CallerWakes(c: nat, env: Env)

  function Listed<T>(o: Option<T>): seq<T> {
    if o.Some? then [o.value] else []
  }

  /** ThreadPoolInit by the first of n threads, up to its first wait. */
  function Initial(attr: Attr, n: nat, env: Env): World {
    var callers := seq(n + 1, _ => Returned(0));
    var (p, m) := FillUp(Fresh(attr), 0, env);
    Moved(World(Fresh(attr), [], callers, NO_JOBS), 0, p, m)
  }

  /** The caller c has gone through a stretch that changed the pool to p. */
  function Moved(w: World, c: nat, p: Pool, m: Move): World
    requires c < |w.callers|
  {
    World(p, if m.spawned then w.workers + [Born] else w.workers, w.callers[c := m.caller],
          w.ledger.(accepted := w.ledger.accepted + Listed(m.posted),
                    overwritten := w.ledger.overwritten + Listed(m.lost),
                    handed := w.ledger.handed + Listed(m.handed)))
  }

  /** The worker i has gone through a stretch that changed the pool to p. */
  function Decided(w: World, i: nat, p: Pool, d: Decision): World
    requires i < |w.workers|
  {
    match d
    case Block => w.(pool := p, workers := w.workers[i := Blocked])
    case Quit => w.(pool := p, workers := w.workers[i := Gone])
    case Serve(task) =>
      w.(pool := p, workers := w.workers[i := Working(task)],
         ledger := w.ledger.(started := w.ledger.started + [task.job]))
  }

  function CurrentTask(v: Worker): Option<Task> {
    if v.Working? then Some(v.task) else None
  }

  function JobOf(v: Worker): seq<Job> {
    if v.Working? then [v.task.job] else []
  }

  /** The worker i comes back to the top of its loop. */
  function Looped(w: World, i: nat): World
    requires i < |w.workers|
  {
    w.(pool := Finished(w.pool, CurrentTask(w.workers[i])), workers := w.workers[i := Blocked],
       ledger := w.ledger.(finished := w.ledger.finished + JobOf(w.workers[i])))
  }

  /** The calls of one event that may happen now. */
  predicate Enabled(w: World, e: Event) {
    match e
    case WorkerStarts(i) => i < |w.workers| && w.workers[i].Born?
    case WorkerLoops(i, _) => i < |w.workers| && (w.workers[i].Started? || w.workers[i].Working?)
    case WorkerWakes(i, _, _) => i < |w.workers| && w.workers[i].Blocked?
    case CallAdd(c, _, _) => MayCall(w, c)
    case CallAddPersistent(c, _, _) => MayCall(w, c)
    case CallRemove(c, _) => MayCall(w, c)
    case CallSetAttr(c, _, _) => MayCall(w, c)
    case CallShutdown(c) => MayCall(w, c) || (c < |w.callers| && w.callers[c].Failed? && !w.pool.shutdown)
    case CallerWakes(c, _) => c < |w.callers| && !w.callers[c].Returned? && !w.callers[c].Failed?
  }

  /** No call may be made once the pool is being shut down. */
  predicate MayCall(w: World, c: nat) {
    c < |w.callers| && w.callers[c].Returned? && !w.pool.shutdown
  }

  function Next(w: World, e: Event): World
    requires Enabled(w, e)
  {
    match e
    case WorkerStarts(i) => w.(pool := Registered(w.pool), workers := w.workers[i := Started])
    case WorkerLoops(i, now) =>
      var v := Looped(w, i);
      var (p, d) := Checked(v.pool, now, false);
      Decided(v, i, p, d)
    case WorkerWakes(i, now, timedOut) =>
      var (p, d) := Checked(w.pool, now, timedOut);
      Decided(w, i, p, d)
    case CallAdd(c, request, env) =>
      var (p, m) := Added(w.pool, request, env);
      var v := Moved(w, c, p, m);
      v.(ledger := v.ledger.(added := v.ledger.added + Listed(m.posted)))
    case CallAddPersistent(c, request, env) =>
      var (p, m) := AddedPersistent(w.pool, request, env);
      Moved(w, c, p, m)
    case CallRemove(c, id) =>
      var (p, out) := Removed(w.pool, id);
      World(p, w.workers, w.callers[c := Returned(if out.Some? then 0 else REFUSED)],
            w.ledger.(removed := w.ledger.removed + Listed(out)))
    case CallSetAttr(c, attr, env) =>
      var (p, m) := FillUp(w.pool.(attr := attr), w.pool.totalThreads, env);
      Moved(w, c, p, m)
    case CallShutdown(c) =>
      var (p, k) := ShutDown(w.pool);
      World(p, w.workers, w.callers[c := k],
            w.ledger.(discarded := w.ledger.discarded + Waiting(w.pool),
                      freed := w.ledger.freed + WithFree(Waiting(w.pool))))
    case CallerWakes(c, env) =>
      var (p, m) := Resumed(w.pool, w.callers[c], env);
      Moved(w, c, p, m)
  }

  /** A run; an event that cannot happen is passed over. */
  function Run(w: World, es: seq<Event>): World
    decreases |es|
  {
    if es == [] then w
    else Run(if Enabled(w, es[0]) then Next(w, es[0]) else w, es[1..])
  }

  // ----- counting workers

  datatype Kind = IsBorn | IsStarted | IsBlocked | IsRegular | IsPersistent | IsGone

  function KindOf(v: Worker): Kind {
    match v
    case Born => IsBorn
    case Started => IsStarted
    case Blocked => IsBlocked
    case Working(t) => if t.persistent then IsPersistent else IsRegular
    case Gone => IsGone
  }

  function Count(ws: seq<Worker>, k: Kind): nat {
    if ws == [] then 0 else Count(ws[..|ws| - 1], k) + (if KindOf(ws[|ws| - 1]) == k then 1 else 0)
  }

  lemma {:induction false} CountUpdate(ws: seq<Worker>, i: nat, v: Worker, k: Kind)
    requires i < |ws|
    ensures Count(ws[i := v], k) + (if KindOf(ws[i]) == k then 1 else 0)
            == Count(ws, k) + (if KindOf(v) == k then 1 else 0)
  {
    var n := |ws| - 1;
    if i == n {
      assert ws[i := v][..n] == ws[..n];
    } else {
      assert ws[i := v][..n] == ws[..n][i := v];
      CountUpdate(ws[..n], i, v, k);
    }
  }

  lemma CountsUpdate(ws: seq<Worker>, i: nat, v: Worker)
    requires i < |ws|
    ensures forall k :: Count(ws[i := v], k) + (if KindOf(ws[i]) == k then 1 else 0)
                        == Count(ws, k) + (if KindOf(v) == k then 1 else 0)
  {
    forall k {
      CountUpdate(ws, i, v, k);
    }
  }

  lemma CountAppend(ws: seq<Worker>, v: Worker)
    ensures forall k :: Count(ws + [v], k) == Count(ws, k) + (if KindOf(v) == k then 1 else 0)
  {
    assert (ws + [v])[..|ws|] == ws;
  }

  // ----- the invariant of the counters

  /** The shared counters agree with where the threads are. */
  ghost predicate Counted(p: Pool, ws: seq<Worker>) {
    && Count(ws, IsBorn) == (if p.starting then 1 else 0)
    && p.workerThreads == Count(ws, IsRegular)
    && p.persistentThreads == Count(ws, IsPersistent)
    && p.busyThreads == p.workerThreads + p.persistentThreads
    && p.idleThreads == Count(ws, IsBlocked)
    && p.totalThreads == p.busyThreads + p.idleThreads + Count(ws, IsStarted)
  }

  lemma LoopedCounted(w: World, i: nat)
    requires Counted(w.pool, w.workers) && i < |w.workers| && (w.workers[i].Started? || w.workers[i].Working?)
    ensures Counted(Looped(w, i).pool, Looped(w, i).workers)
  {
    CountsUpdate(w.workers, i, Blocked);
  }

  lemma DecidedCounted(w: World, i: nat, now: int, timedOut: bool)
    requires Counted(w.pool, w.workers) && i < |w.workers| && w.workers[i].Blocked?
    ensures var (p, d) := Checked(w.pool, now, timedOut);
            Counted(Decided(w, i, p, d).pool, Decided(w, i, p, d).workers)
  {
    hide Bump;
    var (p, d) := Checked(w.pool, now, timedOut);
    match d
    case Block =>
      CountsUpdate(w.workers, i, Blocked);
    case Quit =>
      CountsUpdate(w.workers, i, Gone);
    case Serve(task) =>
      CountsUpdate(w.workers, i, Working(task));
  }

  /** What a caller's stretch does to the counters: at most one thread is created,
      never while another one is starting, and nothing else is counted. */
  ghost predicate CallerStep(p: Pool, q: Pool, m: Move) {
    && q.workerThreads == p.workerThreads && q.persistentThreads == p.persistentThreads
    && q.busyThreads == p.busyThreads && q.idleThreads == p.idleThreads && q.totalThreads == p.totalThreads
    && (if m.spawned then !p.starting && q.starting else q.starting == p.starting)
  }

  lemma MovedCounted(w: World, c: nat, p: Pool, m: Move)
    requires Counted(w.pool, w.workers) && c < |w.callers| && CallerStep(w.pool, p, m)
    ensures Counted(Moved(w, c, p, m).pool, Moved(w, c, p, m).workers)
  {
    CountAppend(w.workers, Born);
  }

  lemma CreateStep(p: Pool, why: Purpose, env: Env)
    ensures var (q, m) := Create(p, why, env); CallerStep(p, q, m)
  {
  }

  lemma ResumedStep(p: Pool, c: Caller, env: Env)
    ensures var (q, m) := Resumed(p, c, env); CallerStep(p, q, m)
  {
    hide Create;
    match c
    case AwaitSlot(why) =>
      CreateStep(p, why, env);
    case AwaitBirth(ForAdd(result, record, jobs, threads)) =>
      CreateStep(p, ForAdd(result, record, jobs, threads + 1), env);
    case AwaitBirth(ForMinimum(i)) =>
      CreateStep(p, ForMinimum(i + 1), env);
    case _ =>
  }

  lemma AddedStep(p: Pool, request: Job, env: Env)
    ensures var (q, m) := Added(p, request, env); CallerStep(p, q, m)
  {
    hide Create;
    var job := NewJob(p, request, env.now);
    var q := if env.nodeAlloc then p.(queues := Enqueued(p.queues, job), nextTicket := p.nextTicket + 1) else p;
    CreateStep(q, AddPurpose(p, q, env), env);
  }

  lemma NextCounted(w: World, e: Event)
    requires Counted(w.pool, w.workers) && Enabled(w, e)
    ensures Counted(Next(w, e).pool, Next(w, e).workers)
  {
    hide Checked, Create, Added, Resumed, Removed, Counted;
    match e
    case WorkerStarts(i) =>
      StartedCounted(w, i);
    case WorkerLoops(i, now) =>
      LoopedCounted(w, i);
      DecidedCounted(Looped(w, i), i, now, false);
    case WorkerWakes(i, now, timedOut) =>
      DecidedCounted(w, i, now, timedOut);
    case CallAdd(c, request, env) =>
      AddedStep(w.pool, request, env);
      MovedCounted(w, c, Added(w.pool, request, env).0, Added(w.pool, request, env).1);
    case CallAddPersistent(c, request, env) =>
      CreateStep(w.pool, ForPersistent(request), env);
      var (p, m) := AddedPersistent(w.pool, request, env);
      MovedCounted(w, c, p, m);
    case CallRemove(c, id) =>
      RemovedCounted(w.pool, w.workers, id);
    case CallSetAttr(c, attr, env) =>
      CreateStep(w.pool.(attr := attr), ForMinimum(w.pool.totalThreads), env);
      var (p, m) := FillUp(w.pool.(attr := attr), w.pool.totalThreads, env);
      MovedCounted(w, c, p, m);
    case CallShutdown(c) =>
      ShutDownCounted(w.pool, w.workers);
    case CallerWakes(c, env) =>
      ResumedStep(w.pool, w.callers[c], env);
      MovedCounted(w, c, Resumed(w.pool, w.callers[c], env).0, Resumed(w.pool, w.callers[c], env).1);
  }

  lemma StartedCounted(w: World, i: nat)
    requires Counted(w.pool, w.workers) && i < |w.workers| && w.workers[i].Born?
    ensures Counted(Registered(w.pool), w.workers[i := Started])
  {
    CountsUpdate(w.workers, i, Started);
  }

  lemma RemovedCounted(p: Pool, ws: seq<Worker>, id: int)
    requires Counted(p, ws)
    ensures Counted(Removed(p, id).0, ws)
  {
  }

  lemma ShutDownCounted(p: Pool, ws: seq<Worker>)
    requires Counted(p, ws)
    ensures Counted(ShutDown(p).0, ws)
  {
  }

  lemma InitialCounted(attr: Attr, n: nat, env: Env)
    ensures Counted(Initial(attr, n, env).pool, Initial(attr, n, env).workers)
  {
    var (p, m) := FillUp(Fresh(attr), 0, env);
    CreateStep(Fresh(attr), ForMinimum(0), env);
    var w := World(Fresh(attr), [], seq(n + 1, _ => Returned(0)), NO_JOBS);
    MovedCounted(w, 0, p, m);
  }

  lemma {:induction false} RunCounted(w: World, es: seq<Event>)
    requires Counted(w.pool, w.workers)
    ensures Counted(Run(w, es).pool, Run(w, es).workers)
    decreases |es|
  {
    hide Counted, Next, Enabled;
    if es != [] {
      if Enabled(w, es[0]) {
        NextCounted(w, es[0]);
        RunCounted(Next(w, es[0]), es[1..]);
      } else {
        RunCounted(w, es[1..]);
      }
    }
  }

  /** The start-up handshake and the counters, in every reachable state. */
  lemma HandshakeAndCounters(attr: Attr, n: nat, env: Env, es: seq<Event>)
    ensures var w := Run(Initial(attr, n, env), es);
            && Count(w.workers, IsBorn) == (if w.pool.starting then 1 else 0)
            && w.pool.busyThreads == Count(w.workers, IsRegular) + Count(w.workers, IsPersistent)
            && w.pool.busyThreads == w.pool.workerThreads + w.pool.persistentThreads
            && 0 <= w.pool.persistentThreads <= w.pool.busyThreads <= w.pool.totalThreads
  {
    InitialCounted(attr, n, env);
    RunCounted(Initial(attr, n, env), es);
  }

  lemma Present(ws: seq<Worker>, i: nat)
    requires i < |ws|
    ensures Count(ws, KindOf(ws[i])) >= 1
  {
    if i < |ws| - 1 {
      assert ws[..|ws| - 1][i] == ws[i];
      Present(ws[..|ws| - 1], i);
    }
  }

  // ----- how many threads there are

  ghost predicate Capped(p: Pool) {
    p.attr.maxThreads != INFINITE_THREADS ==>
      p.totalThreads + (if p.starting then 1 else 0) <= (if p.attr.maxThreads < 0 then 0 else p.attr.maxThreads)
  }

  lemma CreateCapped(p: Pool, why: Purpose, env: Env)
    requires Capped(p)
    ensures Capped(Create(p, why, env).0)
  {
  }

  lemma ResumedCapped(p: Pool, c: Caller, env: Env)
    requires Capped(p)
    ensures Capped(Resumed(p, c, env).0)
  {
    hide Create;
    match c
    case AwaitSlot(why) =>
      CreateCapped(p, why, env);
    case AwaitBirth(ForAdd(result, record, jobs, threads)) =>
      CreateCapped(p, ForAdd(result, record, jobs, threads + 1), env);
    case AwaitBirth(ForMinimum(i)) =>
      CreateCapped(p, ForMinimum(i + 1), env);
    case _ =>
  }

  lemma AddedCapped(p: Pool, request: Job, env: Env)
    requires Capped(p)
    ensures Capped(Added(p, request, env).0)
  {
    hide Create;
    var job := NewJob(p, request, env.now);
    var q := if env.nodeAlloc then p.(queues := Enqueued(p.queues, job), nextTicket := p.nextTicket + 1) else p;
    CreateCapped(q, AddPurpose(p, q, env),
                 env);
  }

  lemma CheckedCapped(p: Pool, now: int, timedOut: bool)
    requires Capped(p)
    ensures Capped(Checked(p, now, timedOut).0)
  {
    hide Bump;
  }

  lemma NextCapped(w: World, e: Event)
    requires Enabled(w, e) && !e.CallSetAttr? && Counted(w.pool, w.workers) && Capped(w.pool)
    ensures Capped(Next(w, e).pool)
  {
    hide Added, Create, Resumed, Removed, Checked;
    match e
    case WorkerStarts(i) =>
      Present(w.workers, i);
    case WorkerLoops(i, now) =>
      CheckedCapped(Looped(w, i).pool, now, false);
    case WorkerWakes(i, now, timedOut) =>
      CheckedCapped(w.pool, now, timedOut);
    case CallAdd(c, request, env) =>
      AddedCapped(w.pool, request, env);
    case CallAddPersistent(c, request, env) =>
      CreateCapped(w.pool, ForPersistent(request), env);
    case CallRemove(c, id) =>
      RemovedLeaves(w.pool, id);
    case CallerWakes(c, env) =>
      ResumedCapped(w.pool, w.callers[c], env);
    case _ =>
  }

  lemma RemovedLeaves(p: Pool, id: int)
    ensures Removed(p, id).0 == p.(queues := Removed(p, id).0.queues, persistentJob := Removed(p, id).0.persistentJob)
  {
  }

  ghost predicate AttrFixed(es: seq<Event>) {
    forall i :: 0 <= i < |es| ==> !es[i].CallSetAttr?
  }

  lemma {:induction false} RunCapped(w: World, es: seq<Event>)
    requires AttrFixed(es) && Counted(w.pool, w.workers) && Capped(w.pool)
    ensures Capped(Run(w, es).pool)
    decreases |es|
  {
    hide Counted, Capped, Next, Enabled;
    if es != [] {
      if Enabled(w, es[0]) {
        NextCounted(w, es[0]);
        NextCapped(w, es[0]);
        RunCapped(Next(w, es[0]), es[1..]);
      } else {
        RunCapped(w, es[1..]);
      }
    }
  }

  /** With fixed attributes the pool never has more threads than maxThreads,
      counting the one that is starting. */
  lemma NeverTooManyThreads(attr: Attr, n: nat, env: Env, es: seq<Event>)
    requires AttrFixed(es) && 0 <= attr.maxThreads
    ensures var p := Run(Initial(attr, n, env), es).pool;
            p.attr == attr && p.totalThreads + (if p.starting then 1 else 0) <= attr.maxThreads
  {
    InitialCounted(attr, n, env);
    CreateCapped(Fresh(attr), ForMinimum(0), env);
    CreateAttr(Fresh(attr), ForMinimum(0), env);
    RunCapped(Initial(attr, n, env), es);
    RunAttr(Initial(attr, n, env), es);
  }

  lemma CreateAttr(p: Pool, why: Purpose, env: Env)
    ensures Create(p, why, env).0.attr == p.attr && Create(p, why, env).0.shutdown == p.shutdown
  {
  }

  /** Only ThreadPoolSetAttr changes the attributes, and shutdown is for good. */
  lemma NextAttr(w: World, e: Event)
    requires Enabled(w, e) && !e.CallSetAttr?
    ensures Next(w, e).pool.attr == w.pool.attr
    ensures w.pool.shutdown ==> Next(w, e).pool.shutdown
  {
    hide Added, Create, Removed, Resumed, Checked, FillUp;
    match e
    case WorkerLoops(i, now) =>
      CheckedAttr(Looped(w, i).pool, now, false);
    case WorkerWakes(i, now, timedOut) =>
      CheckedAttr(w.pool, now, timedOut);
    case CallAdd(c, request, env) =>
      AddedAttr(w.pool, request, env);
    case CallAddPersistent(c, request, env) =>
      CreateAttr(w.pool, ForPersistent(request), env);
    case CallRemove(c, id) =>
      RemovedLeaves(w.pool, id);
    case CallerWakes(c, env) =>
      ResumedAttr(w.pool, w.callers[c], env);
    case _ =>
  }

  lemma CheckedAttr(p: Pool, now: int, timedOut: bool)
    ensures Checked(p, now, timedOut).0.attr == p.attr && Checked(p, now, timedOut).0.shutdown == p.shutdown
  {
    hide Bump;
  }

  lemma AddedAttr(p: Pool, request: Job, env: Env)
    ensures Added(p, request, env).0.attr == p.attr && Added(p, request, env).0.shutdown == p.shutdown
  {
    hide Create;
    var job := NewJob(p, request, env.now);
    var q := if env.nodeAlloc then p.(queues := Enqueued(p.queues, job), nextTicket := p.nextTicket + 1) else p;
    CreateAttr(q, AddPurpose(p, q, env), env);
  }

  lemma ResumedAttr(p: Pool, c: Caller, env: Env)
    ensures Resumed(p, c, env).0.attr == p.attr && Resumed(p, c, env).0.shutdown == p.shutdown
  {
    hide Create;
    match c
    case AwaitSlot(why) =>
      CreateAttr(p, why, env);
    case AwaitBirth(ForAdd(result, record, jobs, threads)) =>
      CreateAttr(p, ForAdd(result, record, jobs, threads + 1), env);
    case AwaitBirth(ForMinimum(i)) =>
      CreateAttr(p, ForMinimum(i + 1), env);
    case _ =>
  }

  lemma {:induction false} RunAttr(w: World, es: seq<Event>)
    requires AttrFixed(es)
    ensures Run(w, es).pool.attr == w.pool.attr
    ensures w.pool.shutdown ==> Run(w, es).pool.shutdown
    decreases |es|
  {
    hide Next, Enabled;
    if es != [] {
      if Enabled(w, es[0]) {
        NextAttr(w, es[0]);
        RunAttr(Next(w, es[0]), es[1..]);
      } else {
        RunAttr(w, es[1..]);
      }
    }
  }

  /** A worker leaves only when the pool is shut down, or when it found nothing
      to do and there are threads to spare: the branch that "should never" be
      reached never is. */
  lemma WhyWorkersQuit(p: Pool, now: int, timedOut: bool)
    requires Checked(p, now, timedOut).1.Quit?
    ensures p.shutdown
            || (Flat(p.queues) == [] && p.persistentJob.None?
                && ((timedOut && p.totalThreads > p.attr.minThreads)
                    || (p.attr.maxThreads != -1 && p.totalThreads > p.attr.maxThreads)))
  {
    hide Bump;
    BumpKeepsOrder(p.queues, now, p.attr);
  }

  lemma {:induction false} BumpKeepsOrder(q: Queues, now: int, attr: Attr)
    ensures Flat(Bump(q, now, attr)) == Flat(q)
    decreases 2 * |q.low| + |q.med|
  {
    if Starved(q.med, now, attr.starvationTime) {
      BumpKeepsOrder(Queues(q.high + [q.med[0]], q.med[1..], q.low), now, attr);
      assert q.high + [q.med[0]] + q.med[1..] == q.high + q.med;
    } else if Starved(q.low, now, attr.maxIdleTime) {
      BumpKeepsOrder(Queues(q.high, q.med + [q.low[0]], q.low[1..]), now, attr);
      assert q.high + (q.med + [q.low[0]]) + q.low[1..] == q.high + q.med + q.low;
    }
  }

  lemma NextKeepsMinimum(w: World, e: Event)
    requires Enabled(w, e) && !e.CallSetAttr? && Counted(w.pool, w.workers)
    requires w.pool.attr.maxThreads == INFINITE_THREADS || w.pool.attr.minThreads <= w.pool.attr.maxThreads
    requires w.pool.totalThreads >= w.pool.attr.minThreads && !Next(w, e).pool.shutdown
    ensures Next(w, e).pool.totalThreads >= w.pool.attr.minThreads
  {
    hide Added, Create, Resumed, Removed, Bump, Checked;
    NextAttr(w, e);
    match e
    case WorkerLoops(i, now) =>
      CheckedKeepsMinimum(Looped(w, i).pool, now, false);
    case WorkerWakes(i, now, timedOut) =>
      CheckedKeepsMinimum(w.pool, now, timedOut);
    case CallAdd(c, request, env) =>
      AddedStep(w.pool, request, env);
    case CallAddPersistent(c, request, env) =>
      CreateStep(w.pool, ForPersistent(request), env);
    case CallRemove(c, id) =>
      RemovedLeaves(w.pool, id);
    case CallerWakes(c, env) =>
      ResumedStep(w.pool, w.callers[c], env);
    case _ =>
  }

  lemma CheckedKeepsMinimum(p: Pool, now: int, timedOut: bool)
    requires p.attr.maxThreads == INFINITE_THREADS || p.attr.minThreads <= p.attr.maxThreads
    requires p.totalThreads >= p.attr.minThreads && !p.shutdown
    ensures Checked(p, now, timedOut).0.totalThreads >= p.attr.minThreads
  {
    if Checked(p, now, timedOut).1.Quit? {
      WhyWorkersQuit(p, now, timedOut);
    }
  }

  /** Once there are minThreads threads there always are, until the shutdown. */
  lemma {:induction false} KeepsTheMinimum(w: World, es: seq<Event>)
    requires AttrFixed(es) && Counted(w.pool, w.workers)
    requires w.pool.attr.maxThreads == INFINITE_THREADS || w.pool.attr.minThreads <= w.pool.attr.maxThreads
    requires w.pool.totalThreads >= w.pool.attr.minThreads && !Run(w, es).pool.shutdown
    ensures Run(w, es).pool.totalThreads >= w.pool.attr.minThreads
    decreases |es|
  {
    hide Counted, Next, Enabled;
    if es != [] {
      if Enabled(w, es[0]) {
        NextCounted(w, es[0]);
        NextAttr(w, es[0]);
        RunAttr(Next(w, es[0]), es[1..]);
        NextKeepsMinimum(w, es[0]);
        KeepsTheMinimum(Next(w, es[0]), es[1..]);
      } else {
        KeepsTheMinimum(w, es[1..]);
      }
    }
  }

  /** ThreadPoolShutdown returns only when no thread that has registered is left. */
  lemma ShutdownWaitsForWorkers(w: World, e: Event, c: nat)
    requires Counted(w.pool, w.workers) && Enabled(w, e)
    requires e == CallShutdown(c) || (e.CallerWakes? && e.c == c && w.callers[c].AwaitEnd?)
    requires Next(w, e).callers[c].Returned?
    ensures Next(w, e).pool.totalThreads == 0
    ensures forall i :: 0 <= i < |w.workers| ==> w.workers[i].Gone? || w.workers[i].Born?
  {
    forall i | 0 <= i < |w.workers| ensures w.workers[i].Gone? || w.workers[i].Born? {
      Present(w.workers, i);
    }
  }
}
