/** threadutil/src/ThreadPool.c: the pool's shared fields, and what each stretch
    of code that holds the mutex does to them. A stretch ends where the code
    unlocks the mutex or waits on a condition variable. */
module PoolSteps {
  import opened Wrappers

  datatype Priority = LowPriority | MedPriority | HighPriority

  /** A job record. The ticket numbers the accepted jobs in order; it stands for
      the identity of the record and takes no part in any decision. */
  datatype Job = Job(ticket: nat, id: int, priority: Priority, requestTime: int, hasFree: bool)

  datatype Attr = Attr(
    minThreads: int, maxThreads: int, jobsPerThread: int,
    maxIdleTime: int, starvationTime: int, maxJobsTotal: int)

  datatype Queues = Queues(high: seq<Job>, med: seq<Job>, low: seq<Job>)

  datatype Pool = Pool(
    attr: Attr, queues: Queues, persistentJob: Option<Job>, lastJobId: int, shutdown: bool,
    totalThreads: int, busyThreads: int, persistentThreads: int, workerThreads: int, idleThreads: int,
    starting: bool, nextTicket: nat)

  const INFINITE_THREADS := -1
  // EMAXTHREADS, EOUTOFMEM and INVALID_JOB_ID: the same number, -k & 1 << 29.
  const REFUSED := 0x2000_0000

  /** A fresh pool, before ThreadPoolInit creates its first worker. */
  function Fresh(attr: Attr): Pool {
    Pool(attr, Queues([], [], []), None, 0, false, 0, 0, 0, 0, 0, false, 0)
  }

  // ----- the clock

  /** DiffMillis on microseconds: the quotient is truncated toward zero. */
  function DiffMillis(time1: int, time2: int): int {
    var d := time1 - time2;
    if d >= 0 then d / 1000 else -(-d / 1000)
  }

  // ----- the queues

  function Flat(q: Queues): seq<Job> {
    q.high + q.med + q.low
  }

  predicate Starved(q: seq<Job>, now: int, limit: int) {
    q != [] && DiffMillis(now, q[0].requestTime) >= limit
  }

  /** BumpPriority */
  function Bump(q: Queues, now: int, attr: Attr): Queues
    decreases 2 * |q.low| + |q.med|
  {
    if Starved(q.med, now, attr.starvationTime) then
      Bump(Queues(q.high + [q.med[0]], q.med[1..], q.low), now, attr)
    else if Starved(q.low, now, attr.maxIdleTime) then
      Bump(Queues(q.high, q.med + [q.low[0]], q.low[1..]), now, attr)
    else q
  }

  /** ListFind with CmpThreadPoolJob: the first job with the id, or the length. */
  function FindId(q: seq<Job>, id: int): (i: nat)
    ensures i <= |q| && (i < |q| ==> q[i].id == id)
    ensures forall k :: 0 <= k < i ==> q[k].id != id
  {
    if q == [] || q[0].id == id then 0 else 1 + FindId(q[1..], id)
  }

  function Without(q: seq<Job>, i: nat): seq<Job>
    requires i < |q|
  {
    q[..i] + q[i + 1..]
  }

  // ----- a worker

  /** A job in the hands of a worker, and the value of its local `persistent`. */
  datatype Task = Task(job: Job, persistent: bool)

  datatype Decision = Block | Quit | Serve(task: Task)

  /** The first lines of WorkerThread. */
  function Registered(p: Pool): Pool {
    p.(totalThreads := p.totalThreads + 1, starting := false)
  }

  /** The top of the loop; `task` is what the worker has just run, if anything. */
  function Finished(p: Pool, task: Option<Task>): Pool {
    var q := p.(idleThreads := p.idleThreads + 1);
    match task
    case None => q
    case Some(t) =>
      if t.persistent then q.(busyThreads := p.busyThreads - 1, persistentThreads := p.persistentThreads - 1)
      else q.(busyThreads := p.busyThreads - 1, workerThreads := p.workerThreads - 1)
  }

  /** The condition of the wait loop. */
  predicate NothingToDo(p: Pool) {
    p.queues.low == [] && p.queues.med == [] && p.queues.high == [] && p.persistentJob.None? && !p.shutdown
  }

  predicate MayRetire(p: Pool, timedOut: bool) {
    || (timedOut && p.totalThreads > p.attr.minThreads)
    || (p.attr.maxThreads != -1 && p.totalThreads > p.attr.maxThreads)
  }

  /** What a worker does with the pool once it is out of the wait loop. */
  function Picked(p: Pool): (Pool, Decision) {
    var q := p.queues;
    if p.shutdown then (p.(totalThreads := p.totalThreads - 1), Quit)
    else if p.persistentJob.Some? then
      (p.(persistentJob := None, persistentThreads := p.persistentThreads + 1, busyThreads := p.busyThreads + 1),
       Serve(Task(p.persistentJob.value, true)))
    else if q.high != [] then Taken(p, q.high[0], q.(high := q.high[1..]))
    else if q.med != [] then Taken(p, q.med[0], q.(med := q.med[1..]))
    else if q.low != [] then Taken(p, q.low[0], q.(low := q.low[1..]))
    else (p.(totalThreads := p.totalThreads - 1), Quit) // "should never get here"
  }

  function Taken(p: Pool, job: Job, rest: Queues): (Pool, Decision) {
    (p.(queues := rest, workerThreads := p.workerThreads + 1, busyThreads := p.busyThreads + 1),
     Serve(Task(job, false)))
  }

  /** From the test of the wait loop to the next wait, unlock or exit. */
  function Checked(p: Pool, now: int, timedOut: bool): (Pool, Decision) {
    if NothingToDo(p) then
      if MayRetire(p, timedOut) then
        (p.(idleThreads := p.idleThreads - 1, totalThreads := p.totalThreads - 1), Quit)
      else (p, Block)
    else Picked(p.(idleThreads := p.idleThreads - 1, queues := Bump(p.queues, now, p.attr)))
  }

  // ----- a caller

  /** Why a caller is inside CreateWorker, with the locals it still needs. `record`
      is the id in the record of its job; no decision looks at it. */
  datatype Purpose =
    | ForAdd(code: int, record: int, jobs: int, threads: int)
    | ForPersistent(request: Job)
    | ForMinimum(i: int)

  /** Where a thread that calls the pool stands between two stretches. */
  datatype Caller =
    | Returned(code: int)
    | Failed(code: int)             // about to call ThreadPoolShutdown
    | AwaitSlot(why: Purpose)       // first wait of CreateWorker
    | AwaitBirth(why: Purpose)      // second wait of CreateWorker
    | AwaitTaken(record: int)       // ThreadPoolAddPersistent
    | AwaitEnd                      // ThreadPoolShutdown

  /** What a stretch reads from outside: the clock, whether the record and the
      list node could be allocated, and what ithread_create returned. */
  datatype Env = Env(now: int, jobAlloc: bool, nodeAlloc: bool, created: int)

  /** The id that a call gives back to its caller, and the one in the job's record. */
  datatype Handed = Handed(record: int, id: int)

  /** What a stretch leaves behind beside the pool: where the caller stands,
      whether it created a thread, the job it handed over, a job that an overlapping
      ThreadPoolAddPersistent wrote over, and the id given back. */
  datatype Move = Move(
    caller: Caller, spawned: bool, posted: Option<Job>, lost: Option<Job>, handed: Option<Handed>)

  function Rest(c: Caller): Move {
    Move(c, false, None, None, None)
  }

  /** The outcome of CreateWorker up to its second wait. */
  datatype Attempt = Busy | Refused(code: int) | Spawned

  function TryCreate(p: Pool, created: int): (Pool, Attempt) {
    if p.starting then (p, Busy)
    else if p.attr.maxThreads != INFINITE_THREADS && p.totalThreads + 1 > p.attr.maxThreads then (p, Refused(REFUSED))
    else if created != 0 then (p, Refused(created))
    else (p.(starting := true), Spawned)
  }

  /** A call of CreateWorker on behalf of `why`. */
  function Create(p: Pool, why: Purpose, env: Env): (Pool, Move) {
    var (q, a) := TryCreate(p, env.created);
    match a
    case Busy => (q, Rest(AwaitSlot(why)))
    case Spawned => (q, Move(AwaitBirth(why), true, None, None, None))
    case Refused(code) => AfterRefusal(q, why, code, env)
  }

  /** CreateWorker returned a non-zero code. */
  function AfterRefusal(p: Pool, why: Purpose, code: int, env: Env): (Pool, Move) {
    match why
    case ForAdd(result, record, _, _) => AddReturns(p, result, record)
    case ForPersistent(request) => Submit(p, request, env)
    case ForMinimum(_) => (p, Rest(Failed(code)))
  }

  /** CreateWorker returned zero. */
  function AfterBirth(p: Pool, why: Purpose, env: Env): (Pool, Move) {
    match why
    case ForAdd(result, record, jobs, threads) => AddWorkers(p, result, record, jobs, threads + 1, env)
    case ForPersistent(request) => Submit(p, request, env)
    case ForMinimum(i) => FillUp(p, i + 1, env)
  }

  function QueuedJobs(p: Pool): nat {
    |p.queues.high| + |p.queues.low| + |p.queues.med|
  }

  predicate NeedsWorker(p: Pool, jobs: int, threads: int) {
    threads == 0 || jobs / threads >= p.attr.jobsPerThread || p.totalThreads == p.busyThreads
  }

  /** The loop of AddWorker, and the end of ThreadPoolAdd. */
  function AddWorkers(p: Pool, result: int, record: int, jobs: int, threads: int, env: Env): (Pool, Move) {
    if NeedsWorker(p, jobs, threads) then Create(p, ForAdd(result, record, jobs, threads), env)
    else AddReturns(p, result, record)
  }

  function AddReturns(p: Pool, result: int, record: int): (Pool, Move) {
    (p.(lastJobId := p.lastJobId + 1), Rest(Returned(result)).(handed := Some(Handed(record, p.lastJobId))))
  }

  /** CreateThreadPoolJob */
  function NewJob(p: Pool, request: Job, now: int): Job {
    request.(ticket := p.nextTicket, id := p.lastJobId, requestTime := now)
  }

  function Enqueued(q: Queues, job: Job): Queues {
    match job.priority
    case HighPriority => q.(high := q.high + [job])
    case MedPriority => q.(med := q.med + [job])
    case LowPriority => q.(low := q.low + [job])
  }

  /** What ThreadPoolAdd knows when it comes to AddWorker. */
  function AddPurpose(p: Pool, q: Pool, env: Env): Purpose {
    ForAdd(if env.nodeAlloc then 0 else REFUSED, p.lastJobId, QueuedJobs(q), q.totalThreads - q.persistentThreads)
  }

  /** ThreadPoolAdd */
  function Added(p: Pool, request: Job, env: Env): (Pool, Move) {
    if QueuedJobs(p) >= p.attr.maxJobsTotal || !env.jobAlloc then (p, Rest(Returned(REFUSED)))
    else
      var job := NewJob(p, request, env.now);
      var q := if env.nodeAlloc then p.(queues := Enqueued(p.queues, job), nextTicket := p.nextTicket + 1) else p;
      var why := AddPurpose(p, q, env);
      var (r, m) := AddWorkers(q, why.code, why.record, why.jobs, why.threads, env);
      (r, m.(posted := if env.nodeAlloc then Some(job) else None))
  }

  /** ThreadPoolAddPersistent */
  function AddedPersistent(p: Pool, request: Job, env: Env): (Pool, Move) {
    if p.totalThreads < p.attr.maxThreads then Create(p, ForPersistent(request), env)
    else if p.totalThreads - p.persistentThreads - 1 == 0 then (p, Rest(Returned(REFUSED)))
    else Submit(p, request, env)
  }

  /** ThreadPoolAddPersistent after CreateWorker, up to its own wait. */
  function Submit(p: Pool, request: Job, env: Env): (Pool, Move) {
    if !env.jobAlloc then (p, Rest(Returned(REFUSED)))
    else
      var job := NewJob(p, request, env.now);
      (p.(persistentJob := Some(job), nextTicket := p.nextTicket + 1),
       Move(AwaitTaken(job.id), false, Some(job), p.persistentJob, None))
  }

  /** The loops that create the minimum of threads, in ThreadPoolInit and
      ThreadPoolSetAttr. */
  function FillUp(p: Pool, i: int, env: Env): (Pool, Move) {
    if i < p.attr.minThreads then Create(p, ForMinimum(i), env) else (p, Rest(Returned(0)))
  }

  /** A caller wakes up and goes on to its next wait or return. */
  function Resumed(p: Pool, c: Caller, env: Env): (Pool, Move) {
    match c
    case Returned(_) => (p, Rest(c))
    case Failed(_) => (p, Rest(c))
    case AwaitSlot(why) => Create(p, why, env)
    case AwaitBirth(why) => if p.starting then (p, Rest(c)) else AfterBirth(p, why, env)
    case AwaitTaken(record) =>
      if p.persistentJob.Some? then (p, Rest(c)) else AddReturns(p, 0, record)
    case AwaitEnd => if p.totalThreads > 0 then (p, Rest(c)) else (p, Rest(Returned(0)))
  }

  /** ThreadPoolRemove: the job taken out, if there is one. */
  function Removed(p: Pool, id: int): (Pool, Option<Job>) {
    var q := p.queues;
    var (h, m, l) := (FindId(q.high, id), FindId(q.med, id), FindId(q.low, id));
    if h < |q.high| then (p.(queues := q.(high := Without(q.high, h))), Some(q.high[h]))
    else if m < |q.med| then (p.(queues := q.(med := Without(q.med, m))), Some(q.med[m]))
    else if l < |q.low| then (p.(queues := q.(low := Without(q.low, l))), Some(q.low[l]))
    else if p.persistentJob.Some? && p.persistentJob.value.id == id then (p.(persistentJob := None), p.persistentJob)
    else (p, None)
  }

  function Waiting(p: Pool): seq<Job> {
    Flat(p.queues) + if p.persistentJob.Some? then [p.persistentJob.value] else []
  }

  /** The jobs whose free_func is not null. */
  function WithFree(jobs: seq<Job>): seq<Job> {
    if jobs == [] then []
    else if jobs[0].hasFree then [jobs[0]] + WithFree(jobs[1..])
    else WithFree(jobs[1..])
  }

  /** ThreadPoolShutdown up to its wait. */
  function ShutDown(p: Pool): (Pool, Caller) {
    var q := p.(queues := Queues([], [], []), persistentJob := None, shutdown := true);
    (q, if q.totalThreads > 0 then AwaitEnd else Returned(0))
  }

  lemma WithFreeConcat(a: seq<Job>, b: seq<Job>)
    ensures WithFree(a + b) == WithFree(a) + WithFree(b)
  {
    if a == [] {
      assert a + b == b;
    } else {
      assert (a + b)[1..] == a[1..] + b;
      WithFreeConcat(a[1..], b);
    }
  }
}
