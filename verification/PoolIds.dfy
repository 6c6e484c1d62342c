/** The ids of jobs: those in the records, which ThreadPoolRemove looks at, and those
    that ThreadPoolAdd and ThreadPoolAddPersistent give back to their callers. */
module PoolIds {
  import opened PoolSteps
  import opened PoolProtocol
  import opened Wrappers

  /** The id in the record of a job whose call has not returned yet. */
  function RecordOf(c: Caller): Option<int> {
    match c
    case AwaitSlot(ForAdd(_, record, _, _)) => Some(record)
    case AwaitBirth(ForAdd(_, record, _, _)) => Some(record)
    case AwaitTaken(record) => Some(record)
    case _ => None
  }

  /** What a stretch of a caller that stood at c does to the ids. */
  ghost predicate IdStep(p: Pool, record: Option<int>, q: Pool, m: Move) {
    && q.lastJobId == p.lastJobId + |Listed(m.handed)|
    && (m.handed.Some? ==> record.Some? && m.handed.value == Handed(record.value, p.lastJobId) && m.caller.Returned?)
    && (m.posted.Some? ==> m.posted.value.id == p.lastJobId)
    && (RecordOf(m.caller).Some? ==> RecordOf(m.caller) == record || RecordOf(m.caller).value == p.lastJobId)
  }

  function RecordFor(why: Purpose): Option<int> {
    if why.ForAdd? then Some(why.record) else None
  }

  lemma CreateIds(p: Pool, why: Purpose, env: Env)
    ensures var (q, m) := Create(p, why, env);
            && IdStep(p, RecordFor(why), q, m)
            && (m.posted.Some? ==> why.ForPersistent? && RecordOf(m.caller).Some?)
            && (why.ForAdd? ==> m.caller.Returned? == m.handed.Some? && (m.handed.None? ==> RecordOf(m.caller).Some?))
            && (why.ForMinimum? ==> m.posted.None? && m.handed.None? && !InAdd(m.caller))
            && (InAdd(m.caller) || m.caller.Returned? || why.ForMinimum?)
  {
  }

  /** The caller is inside ThreadPoolAdd or ThreadPoolAddPersistent. */
  predicate InAdd(c: Caller) {
    match c
    case AwaitSlot(why) => !why.ForMinimum?
    case AwaitBirth(why) => !why.ForMinimum?
    case AwaitTaken(_) => true
    case _ => false
  }

  lemma ResumedIds(p: Pool, c: Caller, env: Env)
    ensures var (q, m) := Resumed(p, c, env);
            && IdStep(p, RecordOf(c), q, m)
            && (m.posted.Some? ==> InAdd(c) && RecordOf(c).None? && RecordOf(m.caller).Some?)
            && (InAdd(m.caller) ==> InAdd(c))
            && (RecordOf(c).Some? && m.handed.None? ==> RecordOf(m.caller).Some?)
  {
    hide Create;
    match c
    case AwaitSlot(why) =>
      CreateIds(p, why, env);
    case AwaitBirth(ForAdd(result, record, jobs, threads)) =>
      CreateIds(p, ForAdd(result, record, jobs, threads + 1), env);
    case AwaitBirth(ForMinimum(i)) =>
      CreateIds(p, ForMinimum(i + 1), env);
    case _ =>
  }

  lemma AddedIds(p: Pool, request: Job, env: Env)
    ensures var (q, m) := Added(p, request, env);
            && IdStep(p, Some(p.lastJobId), q, m)
            && (m.posted.Some? ==> m.handed.Some? || RecordOf(m.caller).Some?)
  {
    hide Create, Enqueued;
    var job := NewJob(p, request, env.now);
    var q := if env.nodeAlloc then p.(queues := Enqueued(p.queues, job), nextTicket := p.nextTicket + 1) else p;
    CreateIds(q, AddPurpose(p, q, env), env);
  }

  lemma PersistentIds(p: Pool, request: Job, env: Env)
    ensures var (q, m) := AddedPersistent(p, request, env);
            IdStep(p, None, q, m) && (m.posted.Some? ==> RecordOf(m.caller).Some?)
  {
    hide Create;
    CreateIds(p, ForPersistent(request), env);
  }

  lemma SetAttrIds(p: Pool, attr: Attr, env: Env)
    ensures var (q, m) := FillUp(p.(attr := attr), p.totalThreads, env);
            q.lastJobId == p.lastJobId && m.handed.None? && m.posted.None? && !InAdd(m.caller)
  {
    hide Create;
    CreateIds(p.(attr := attr), ForMinimum(p.totalThreads), env);
  }

  // ----- over a run

  /** The ids given back are 0, 1, 2 and so on, so they are distinct; the ids in the
      records ascend, but need not strictly, and none is beyond the next id. */
  ghost predicate IdsRight(w: World) {
    && |w.ledger.handed| == w.pool.lastJobId
    && (forall i :: 0 <= i < |w.ledger.handed| ==> w.ledger.handed[i].id == i && w.ledger.handed[i].record <= i)
    && (forall c :: 0 <= c < |w.callers| && RecordOf(w.callers[c]).Some? ==>
          RecordOf(w.callers[c]).value <= w.pool.lastJobId)
    && (forall i :: 0 <= i < |w.ledger.accepted| ==> w.ledger.accepted[i].id <= w.pool.lastJobId)
  }

  /** What one step does to the ids. */
  ghost predicate IdsMove(w: World, v: World) {
    && |w.callers| == |v.callers| && w.ledger.accepted <= v.ledger.accepted && w.ledger.handed <= v.ledger.handed
    && |v.ledger.accepted| <= |w.ledger.accepted| + 1
    && (forall i :: |w.ledger.accepted| <= i < |v.ledger.accepted| ==> v.ledger.accepted[i].id == w.pool.lastJobId)
    && v.pool.lastJobId - w.pool.lastJobId == |v.ledger.handed| - |w.ledger.handed| <= 1
  }

  lemma MovedIds(w: World, c: nat, p: Pool, m: Move, record: Option<int>)
    requires IdsRight(w) && c < |w.callers| && IdStep(w.pool, record, p, m)
    requires record.Some? ==> record.value <= w.pool.lastJobId
    ensures IdsRight(Moved(w, c, p, m)) && IdsMove(w, Moved(w, c, p, m))
  {
  }

  lemma OtherIds(w: World, v: World)
    requires IdsRight(w) && v.pool.lastJobId == w.pool.lastJobId && |v.callers| == |w.callers|
    requires v.ledger.handed == w.ledger.handed && v.ledger.accepted == w.ledger.accepted
    requires forall c :: 0 <= c < |w.callers| && RecordOf(v.callers[c]).Some? ==> v.callers[c] == w.callers[c]
    ensures IdsRight(v) && IdsMove(w, v)
  {
  }

  lemma CheckedId(p: Pool, now: int, timedOut: bool)
    ensures Checked(p, now, timedOut).0.lastJobId == p.lastJobId
  {
    hide Bump;
  }

  lemma RemovedId(p: Pool, id: int)
    ensures Removed(p, id).0.lastJobId == p.lastJobId
  {
  }

  lemma NextIds(w: World, e: Event)
    requires IdsRight(w) && Enabled(w, e)
    ensures IdsRight(Next(w, e)) && IdsMove(w, Next(w, e))
  {
    hide Checked, Added, AddedPersistent, FillUp, Resumed, Removed, WithFree, Waiting, IdsRight, IdsMove, IdStep;
    match e
    case WorkerStarts(i) =>
      OtherIds(w, Next(w, e));
    case WorkerLoops(i, now) =>
      CheckedId(Looped(w, i).pool, now, false);
      OtherIds(w, Next(w, e));
    case WorkerWakes(i, now, timedOut) =>
      CheckedId(w.pool, now, timedOut);
      OtherIds(w, Next(w, e));
    case CallAdd(c, request, env) =>
      AddIds(w, c, request, env);
    case CallAddPersistent(c, request, env) =>
      PersistentIds(w.pool, request, env);
      MovedIds(w, c, AddedPersistent(w.pool, request, env).0, AddedPersistent(w.pool, request, env).1, None);
    case CallRemove(c, id) =>
      RemovedId(w.pool, id);
      OtherIds(w, Next(w, e));
    case CallSetAttr(c, attr, env) =>
      SetAttrIds(w.pool, attr, env);
      SetAttrMoves(w, c, attr, env);
    case CallShutdown(c) =>
      OtherIds(w, Next(w, e));
    case CallerWakes(c, env) =>
      ResumedIds(w.pool, w.callers[c], env);
      WakeIds(w, c);
      MovedIds(w, c, Resumed(w.pool, w.callers[c], env).0, Resumed(w.pool, w.callers[c], env).1,
               RecordOf(w.callers[c]));
  }

  lemma AddIds(w: World, c: nat, request: Job, env: Env)
    requires IdsRight(w) && Enabled(w, CallAdd(c, request, env))
    ensures IdsRight(Next(w, CallAdd(c, request, env))) && IdsMove(w, Next(w, CallAdd(c, request, env)))
  {
    hide Added;
    AddedIds(w.pool, request, env);
    MovedIds(w, c, Added(w.pool, request, env).0, Added(w.pool, request, env).1, Some(w.pool.lastJobId));
  }

  lemma SetAttrMoves(w: World, c: nat, attr: Attr, env: Env)
    requires IdsRight(w) && Enabled(w, CallSetAttr(c, attr, env))
    ensures IdsRight(Next(w, CallSetAttr(c, attr, env))) && IdsMove(w, Next(w, CallSetAttr(c, attr, env)))
  {
    hide FillUp;
    SetAttrIds(w.pool, attr, env);
    NotInAdd(FillUp(w.pool.(attr := attr), w.pool.totalThreads, env).1.caller);
    OtherIds(w, Next(w, CallSetAttr(c, attr, env)));
  }

  lemma NotInAdd(c: Caller)
    ensures RecordOf(c).Some? ==> InAdd(c)
  {
  }

  lemma WakeIds(w: World, c: nat)
    requires IdsRight(w) && c < |w.callers|
    ensures RecordOf(w.callers[c]).Some? ==> RecordOf(w.callers[c]).value <= w.pool.lastJobId
  {
  }

  lemma InitialIds(attr: Attr, n: nat, env: Env)
    ensures IdsRight(Initial(attr, n, env)) && Initial(attr, n, env).ledger.accepted == []
    ensures forall c :: 0 <= c < |Initial(attr, n, env).callers| ==> !InAdd(Initial(attr, n, env).callers[c])
  {
    hide Create;
    CreateIds(Fresh(attr), ForMinimum(0), env);
    NotInAdd(FillUp(Fresh(attr), 0, env).1.caller);
  }

  lemma {:induction false} RunIds(w: World, es: seq<Event>)
    requires IdsRight(w)
    ensures IdsRight(Run(w, es)) && w.ledger.accepted <= Run(w, es).ledger.accepted
    ensures w.ledger.handed <= Run(w, es).ledger.handed
    decreases |es|
  {
    hide IdsRight, Next, Enabled;
    if es != [] {
      if Enabled(w, es[0]) {
        NextIds(w, es[0]);
        RunIds(Next(w, es[0]), es[1..]);
      } else {
        RunIds(w, es[1..]);
      }
    }
  }

  /** In every reachable state the ids that were given back are pairwise distinct,
      and the i-th of them is not less than the id in the record of its job. */
  lemma IdsGivenBackAreDistinct(attr: Attr, n: nat, env: Env, es: seq<Event>)
    ensures var ids := Run(Initial(attr, n, env), es).ledger.handed;
            && (forall i, j :: 0 <= i < j < |ids| ==> ids[i].id != ids[j].id)
            && (forall i :: 0 <= i < |ids| ==> ids[i].record <= ids[i].id)
  {
    InitialIds(attr, n, env);
    RunIds(Initial(attr, n, env), es);
  }

  // ----- from the record to the return

  /** The code that a call will return once it has a record. */
  function CodeOf(c: Caller): Option<int> {
    match c
    case AwaitSlot(ForAdd(code, _, _, _)) => Some(code)
    case AwaitBirth(ForAdd(code, _, _, _)) => Some(code)
    case AwaitTaken(_) => Some(0)
    case _ => None
  }

  /** The step makes the record for the call that c is in. */
  ghost predicate MakesRecord(w: World, e: Event, c: nat)
    requires Enabled(w, e)
  {
    var v := Next(w, e);
    c < |w.callers| && c < |v.callers| && RecordOf(w.callers[c]).None? && RecordOf(v.callers[c]).Some?
  }

  /** Over the run c does not come out of the call for which it has a record. */
  ghost predicate StaysIn(w: World, es: seq<Event>, c: nat)
    decreases |es|
  {
    && c < |w.callers| && RecordOf(w.callers[c]).Some?
    && (es != [] ==> StaysIn(if Enabled(w, es[0]) then Next(w, es[0]) else w, es[1..], c))
  }

  /** A new record has the next id, and nothing is given back while it is made. */
  lemma NewRecord(w: World, e: Event, c: nat)
    requires Enabled(w, e) && MakesRecord(w, e, c)
    ensures RecordOf(Next(w, e).callers[c]).value == w.pool.lastJobId
    ensures Next(w, e).ledger.handed == w.ledger.handed
  {
    hide Checked, Added, AddedPersistent, FillUp, Resumed, Removed, WithFree, Waiting;
    match e
    case CallAdd(_, request, env) =>
      AddedIds(w.pool, request, env);
    case CallAddPersistent(_, request, env) =>
      PersistentIds(w.pool, request, env);
    case CallSetAttr(_, attr, env) =>
      SetAttrIds(w.pool, attr, env);
      NotInAdd(FillUp(w.pool.(attr := attr), w.pool.totalThreads, env).1.caller);
    case CallerWakes(d, env) =>
      ResumedIds(w.pool, w.callers[d], env);
    case _ =>
  }

  /** A call that has a record keeps it, and the code it will return. */
  lemma ResumedKeeps(p: Pool, c: Caller, env: Env)
    requires RecordOf(c).Some?
    ensures var (q, m) := Resumed(p, c, env);
            || (RecordOf(m.caller) == RecordOf(c) && CodeOf(m.caller) == CodeOf(c) && m.handed.None?)
            || (m.caller == Returned(CodeOf(c).value)
                && q.lastJobId == p.lastJobId + 1 && m.handed == Some(Handed(RecordOf(c).value, p.lastJobId)))
  {
  }

  lemma StepKeeps(w: World, e: Event, c: nat)
    requires Enabled(w, e) && c < |w.callers| && RecordOf(w.callers[c]).Some?
    requires c < |Next(w, e).callers| && RecordOf(Next(w, e).callers[c]).Some?
    ensures RecordOf(Next(w, e).callers[c]) == RecordOf(w.callers[c])
    ensures CodeOf(Next(w, e).callers[c]) == CodeOf(w.callers[c])
  {
    hide Checked, Added, AddedPersistent, FillUp, Resumed, Removed, WithFree, Waiting;
    if e.CallerWakes? {
      var k := w.callers[e.c];
      if e.c == c {
        ResumedKeeps(w.pool, k, e.env);
      }
    }
  }

  lemma {:induction false} RunKeeps(w: World, es: seq<Event>, c: nat)
    requires StaysIn(w, es, c)
    ensures StaysIn(Run(w, es), [], c)
    ensures RecordOf(Run(w, es).callers[c]) == RecordOf(w.callers[c])
    ensures CodeOf(Run(w, es).callers[c]) == CodeOf(w.callers[c])
    decreases |es|
  {
    hide Next, Enabled, RecordOf, CodeOf;
    if es != [] {
      var v := if Enabled(w, es[0]) then Next(w, es[0]) else w;
      assert StaysIn(v, [], c);
      if Enabled(w, es[0]) {
        StepKeeps(w, es[0], c);
      }
      RunKeeps(v, es[1..], c);
    }
  }

  /** The step e makes the record for a call of c, and c comes back from that call
      when it wakes up after the further steps fs. */
  ghost predicate ComesBack(v: World, e: Event, fs: seq<Event>, c: nat, env: Env) {
    && Enabled(v, e) && MakesRecord(v, e, c) && StaysIn(Next(v, e), fs, c)
    && Enabled(Run(Next(v, e), fs), CallerWakes(c, env))
    && Next(Run(Next(v, e), fs), CallerWakes(c, env)).callers[c].Returned?
  }

  /** The state in which it has come back. */
  ghost function Back(v: World, e: Event, fs: seq<Event>, c: nat, env: Env): (r: World)
    requires ComesBack(v, e, fs, c, env)
    ensures c < |r.callers| && r.callers[c].Returned?
  {
    Next(Run(Next(v, e), fs), CallerWakes(c, env))
  }

  /** A call that waits gives back an id that is beyond the one in the record of its
      job by as many as other calls have given back since the record was made. So the
      two are the same if and only if none has. */
  lemma WhenTheIdIsTheRecords(v: World, e: Event, fs: seq<Event>, c: nat, env: Env)
    requires Reachable(v) && ComesBack(v, e, fs, c, env)
    ensures var w := Next(v, e);
            var u := Run(w, fs);
            var ids := Back(v, e, fs, c, env).ledger.handed;
            |ids| == |u.ledger.handed| + 1 &&
            var h := ids[|u.ledger.handed|];
            && ids == u.ledger.handed + [h]
            && h.record == RecordOf(w.callers[c]).value
            && h.id == h.record + (|u.ledger.handed| - |w.ledger.handed|)
            && (h.id == h.record <==> u.ledger.handed == w.ledger.handed)
  {
    hide Next, Enabled, StaysIn, IdsRight, Run, RecordOf, MakesRecord;
    ReachableIds(v);
    var w := Next(v, e);
    NewRecord(v, e, c);
    NextIds(v, e);
    NextId(v);
    RunIds(w, fs);
    RunKeeps(w, fs, c);
    GivesBackRecord(Run(w, fs), c, env);
  }

  /** Some run of some pool leads to the state. */
  ghost predicate Reachable(w: World) {
    exists attr, n: nat, env, es: seq<Event> :: w == Run(Initial(attr, n, env), es)
  }

  lemma ReachableIds(w: World)
    requires Reachable(w)
    ensures IdsRight(w)
  {
    hide IdsRight, Initial, Run;
    var attr, n: nat, env, es: seq<Event> :| w == Run(Initial(attr, n, env), es);
    InitialIds(attr, n, env);
    RunIds(Initial(attr, n, env), es);
  }

  lemma NextId(w: World)
    requires IdsRight(w)
    ensures |w.ledger.handed| == w.pool.lastJobId
  {
  }

  /** The last step: the call gives back the next id. */
  lemma GivesBackRecord(u: World, c: nat, env: Env)
    requires IdsRight(u) && StaysIn(u, [], c) && Enabled(u, CallerWakes(c, env))
    ensures var v := Next(u, CallerWakes(c, env));
            v.callers[c].Returned? ==>
              v.ledger.handed == u.ledger.handed + [Handed(RecordOf(u.callers[c]).value, |u.ledger.handed|)]
  {
    hide Resumed;
    ResumedKeeps(u.pool, u.callers[c], env);
  }

  /** And it returns its code. */
  lemma ReturnsItsCode(u: World, c: nat, env: Env)
    requires StaysIn(u, [], c) && Enabled(u, CallerWakes(c, env))
    ensures var v := Next(u, CallerWakes(c, env));
            v.callers[c].Returned? ==> CodeOf(u.callers[c]) == Some(v.callers[c].code)
  {
    hide Resumed;
    ResumedKeeps(u.pool, u.callers[c], env);
  }

  /** The code is settled with the record. */
  lemma NewCode(w: World, e: Event, c: nat)
    requires Enabled(w, e) && MakesRecord(w, e, c)
    ensures CodeOf(Next(w, e).callers[c]).Some?
    ensures CodeOf(Next(w, e).callers[c]).value == if Accepts(w, e) then 0 else REFUSED
  {
    hide Checked, Removed, WithFree, Waiting, Enqueued, NeedsWorker;
  }

  /** Whatever comes in between, a call that waits with its record made returns 0 if
      the job was accepted when it was made, and otherwise fails. */
  lemma TheAnswerIsKept(w: World, e: Event, fs: seq<Event>, c: nat, env: Env)
    requires ComesBack(w, e, fs, c, env)
    ensures Back(w, e, fs, c, env).callers[c].code == if Accepts(w, e) then 0 else REFUSED
  {
    hide Next, Enabled, StaysIn, Run, RecordOf, MakesRecord, CodeOf, Accepts;
    NewCode(w, e, c);
    RunKeeps(Next(w, e), fs, c);
    ReturnsItsCode(Run(Next(w, e), fs), c, env);
  }

  // ----- when the ids in the records are distinct

  ghost predicate DistinctIds(jobs: seq<Job>) {
    forall i, j :: 0 <= i < j < |jobs| ==> jobs[i].id != jobs[j].id
  }

  ghost predicate Ascending(jobs: seq<Job>) {
    forall i, j :: 0 <= i < j < |jobs| ==> jobs[i].id < jobs[j].id
  }

  /** The step accepts a job. */
  ghost predicate Accepts(w: World, e: Event)
    requires Enabled(w, e)
  {
    |Next(w, e).ledger.accepted| > |w.ledger.accepted|
  }

  /** The step gives an id back. */
  ghost predicate GivesBack(w: World, e: Event)
    requires Enabled(w, e)
  {
    |Next(w, e).ledger.handed| > |w.ledger.handed|
  }

  /** Between any two steps that accept a job, some call has given an id back; `open`
      says that none has since the last job was accepted. */
  ghost predicate Separated(w: World, es: seq<Event>, open: bool)
    decreases |es|
  {
    if es == [] then true
    else if !Enabled(w, es[0]) then Separated(w, es[1..], open)
    else
      && !(open && Accepts(w, es[0]))
      && Separated(Next(w, es[0]), es[1..], !GivesBack(w, es[0]) && (open || Accepts(w, es[0])))
  }

  ghost predicate IsOpen(w: World) {
    var jobs := w.ledger.accepted;
    jobs != [] && jobs[|jobs| - 1].id == w.pool.lastJobId
  }

  lemma StepOpens(w: World, e: Event)
    requires IdsRight(w) && Enabled(w, e) && Ascending(w.ledger.accepted)
    ensures IsOpen(Next(w, e)) == (!GivesBack(w, e) && (IsOpen(w) || Accepts(w, e)))
    ensures !(IsOpen(w) && Accepts(w, e)) ==> Ascending(Next(w, e).ledger.accepted)
    ensures IsOpen(w) && Accepts(w, e) ==> !DistinctIds(Next(w, e).ledger.accepted)
  {
    NextIds(w, e);
    hide Next;
    LastIsGreatest(w);
    var (a, b) := (w.ledger.accepted, Next(w, e).ledger.accepted);
    if IsOpen(w) && Accepts(w, e) {
      assert b[|a| - 1] == a[|a| - 1] && b[|a|].id == w.pool.lastJobId;
    }
  }

  lemma LastIsGreatest(w: World)
    requires IdsRight(w) && Ascending(w.ledger.accepted)
    ensures var a := w.ledger.accepted;
            !IsOpen(w) ==> forall i :: 0 <= i < |a| ==> a[i].id < w.pool.lastJobId
  {
    var a := w.ledger.accepted;
    if a != [] {
      assert a[|a| - 1].id <= w.pool.lastJobId;
    }
  }

  lemma {:induction false} RunDistinct(w: World, es: seq<Event>)
    requires IdsRight(w) && Ascending(w.ledger.accepted)
    ensures DistinctIds(Run(w, es).ledger.accepted) <==> Separated(w, es, IsOpen(w))
    decreases |es|
  {
    hide IdsRight, Next, Enabled, IsOpen, Accepts, GivesBack, Ascending;
    if es == [] {
      AscendingIsDistinct(w.ledger.accepted);
    } else if !Enabled(w, es[0]) {
      RunDistinct(w, es[1..]);
    } else {
      NextIds(w, es[0]);
      StepOpens(w, es[0]);
      var v := Next(w, es[0]);
      RunIds(v, es[1..]);
      if IsOpen(w) && Accepts(w, es[0]) {
        PrefixNotDistinct(v.ledger.accepted, Run(v, es[1..]).ledger.accepted);
      } else {
        RunDistinct(v, es[1..]);
      }
    }
  }

  lemma AscendingIsDistinct(jobs: seq<Job>)
    requires Ascending(jobs)
    ensures DistinctIds(jobs)
  {
  }

  lemma PrefixNotDistinct(a: seq<Job>, b: seq<Job>)
    requires a <= b && !DistinctIds(a)
    ensures !DistinctIds(b)
  {
    var i, j :| 0 <= i < j < |a| && a[i].id == a[j].id;
    assert b[i] == a[i] && b[j] == a[j];
  }

  /** The ids in the records of all accepted jobs are pairwise distinct if and only if
      between any two acceptances some call gave its id back. */
  lemma WhenRecordIdsAreDistinct(attr: Attr, n: nat, env: Env, es: seq<Event>)
    ensures DistinctIds(Run(Initial(attr, n, env), es).ledger.accepted) <==>
            Separated(Initial(attr, n, env), es, false)
  {
    InitialIds(attr, n, env);
    RunDistinct(Initial(attr, n, env), es);
  }

  // ----- calls that do not overlap

  /** No call of ThreadPoolAdd or ThreadPoolAddPersistent begins inside another. */
  ghost predicate Serial(w: World, es: seq<Event>)
    decreases |es|
  {
    if es == [] then true
    else if !Enabled(w, es[0]) then Serial(w, es[1..])
    else
      && (es[0].CallAdd? || es[0].CallAddPersistent? ==> NobodyInAdd(w))
      && Serial(Next(w, es[0]), es[1..])
  }

  ghost predicate NobodyInAdd(w: World) {
    forall c :: 0 <= c < |w.callers| ==> !InAdd(w.callers[c])
  }

  /** At most one caller is inside; while the last id is still to be given back, one
      is, and its job has its record. */
  ghost predicate OneInAdd(w: World) {
    && (forall c, d :: 0 <= c < d < |w.callers| && InAdd(w.callers[c]) ==> !InAdd(w.callers[d]))
    && (IsOpen(w) ==> exists c :: 0 <= c < |w.callers| && RecordOf(w.callers[c]).Some?)
  }

  /** Only these steps accept a job or give an id back. */
  lemma OthersDoNeither(w: World, e: Event)
    requires IdsRight(w) && Enabled(w, e) && !e.CallAdd? && !e.CallAddPersistent? && !e.CallerWakes?
    ensures !Accepts(w, e) && !GivesBack(w, e)
    ensures forall c :: 0 <= c < |w.callers| ==>
              |Next(w, e).callers| == |w.callers|
              && (Next(w, e).callers[c] == w.callers[c] || (!InAdd(Next(w, e).callers[c]) && !InAdd(w.callers[c])))
  {
    hide Checked, FillUp, Removed, WithFree, Waiting, IdsRight;
    if e.CallSetAttr? {
      SetAttrIds(w.pool, e.attr, e.env);
    }
  }

  lemma SerialStepOther(w: World, e: Event)
    requires IdsRight(w) && Ascending(w.ledger.accepted) && OneInAdd(w) && Enabled(w, e)
    requires !e.CallAdd? && !e.CallAddPersistent? && !e.CallerWakes?
    ensures !(IsOpen(w) && Accepts(w, e)) && OneInAdd(Next(w, e))
  {
    OthersDoNeither(w, e);
    StepOpens(w, e);
    var v := Next(w, e);
    hide Next, IdsRight, Ascending, IsOpen, Accepts, GivesBack, Enabled;
    if IsOpen(v) {
      var c :| 0 <= c < |w.callers| && RecordOf(w.callers[c]).Some?;
      NotInAdd(w.callers[c]);
      assert RecordOf(v.callers[c]).Some?;
    }
  }

  /** A call that begins while nobody is inside. */
  lemma SerialStepCall(w: World, e: Event)
    requires IdsRight(w) && Ascending(w.ledger.accepted) && OneInAdd(w) && Enabled(w, e) && NobodyInAdd(w)
    requires e.CallAdd? || e.CallAddPersistent?
    ensures !(IsOpen(w) && Accepts(w, e)) && OneInAdd(Next(w, e))
  {
    hide Added, AddedPersistent, IdsRight;
    forall c | 0 <= c < |w.callers| ensures RecordOf(w.callers[c]).None? {
      NotInAdd(w.callers[c]);
    }
    StepOpens(w, e);
    var m := if e.CallAdd? then Added(w.pool, e.request, e.env).1 else AddedPersistent(w.pool, e.request, e.env).1;
    if e.CallAdd? {
      AddedIds(w.pool, e.request, e.env);
    } else {
      PersistentIds(w.pool, e.request, e.env);
    }
    var v := Next(w, e);
    assert v.callers[e.c] == m.caller;
    assert IsOpen(v) ==> m.posted.Some? && m.handed.None?;
  }

  lemma SerialStepWake(w: World, e: Event)
    requires IdsRight(w) && Ascending(w.ledger.accepted) && OneInAdd(w) && Enabled(w, e) && e.CallerWakes?
    ensures !(IsOpen(w) && Accepts(w, e)) && OneInAdd(Next(w, e))
  {
    hide Resumed, IdsRight;
    var c := w.callers[e.c];
    ResumedIds(w.pool, c, e.env);
    StepOpens(w, e);
    var (v, m) := (Next(w, e), Resumed(w.pool, c, e.env).1);
    assert v.callers == w.callers[e.c := m.caller];
    if IsOpen(w) {
      var d :| 0 <= d < |w.callers| && RecordOf(w.callers[d]).Some?;
      NotInAdd(w.callers[d]);
      if d != e.c {
        assert v.callers[d] == w.callers[d];
        assert !InAdd(c);
      } else if m.handed.None? {
        assert RecordOf(v.callers[d]).Some?;
      }
    } else if IsOpen(v) {
      assert m.posted.Some?;
      assert RecordOf(v.callers[e.c]).Some?;
    }
  }

  lemma {:induction false} SerialIsSeparated(w: World, es: seq<Event>)
    requires IdsRight(w) && Ascending(w.ledger.accepted) && OneInAdd(w) && Serial(w, es)
    ensures Separated(w, es, IsOpen(w))
    decreases |es|
  {
    hide IdsRight, Next, Enabled, IsOpen, Accepts, GivesBack, Ascending, OneInAdd, NobodyInAdd;
    if es != [] {
      if !Enabled(w, es[0]) {
        SerialIsSeparated(w, es[1..]);
      } else {
        var e := es[0];
        if e.CallAdd? || e.CallAddPersistent? {
          SerialStepCall(w, e);
        } else if e.CallerWakes? {
          SerialStepWake(w, e);
        } else {
          SerialStepOther(w, e);
        }
        NextIds(w, e);
        StepOpens(w, e);
        SerialIsSeparated(Next(w, e), es[1..]);
      }
    }
  }

  /** Calls that do not overlap give every job an id of its own. */
  lemma SerialCallsGetDistinctIds(attr: Attr, n: nat, env: Env, es: seq<Event>)
    requires Serial(Initial(attr, n, env), es)
    ensures DistinctIds(Run(Initial(attr, n, env), es).ledger.accepted)
  {
    InitialIds(attr, n, env);
    SerialIsSeparated(Initial(attr, n, env), es);
    WhenRecordIdsAreDistinct(attr, n, env, es);
  }

  // ----- calls that do

  /** Whether ThreadPoolAdd returns without a wait, seen before the call: no worker is
      needed, or it is refused one at once. */
  predicate ReturnsAtOnce(p: Pool, env: Env) {
    || !NeedsWorker(p, QueuedJobs(p) + 1, p.totalThreads - p.persistentThreads)
    || (!p.starting
        && ((p.attr.maxThreads != INFINITE_THREADS && p.totalThreads + 1 > p.attr.maxThreads) || env.created != 0))
  }

  /** The job that is accepted next gets another id if and only if ThreadPoolAdd
      returns at once, and then the id given back is that of the record. */
  lemma WhenTheNextIdDiffers(p: Pool, request: Job, env: Env, next: Job, now: int)
    requires Added(p, request, env).1.posted.Some?
    ensures var (q, m) := Added(p, request, env);
            && (NewJob(q, next, now).id != m.posted.value.id <==> ReturnsAtOnce(p, env))
            && (m.handed == if ReturnsAtOnce(p, env) then Some(Handed(m.posted.value.id, m.posted.value.id)) else None)
  {
  }

  /** A run in which two overlapping calls of ThreadPoolAdd have their jobs accepted
      under one id. */
  lemma TwoJobsWithOneId(r: Job)
    ensures var (attr, env) := (Attr(0, 2, 1, 10, 10, 100), Env(0, true, true, 0));
            var w := Run(Initial(attr, 2, env), [CallAdd(1, r, env), CallAdd(2, r, env)]);
            |w.ledger.added| == 2
            && w.ledger.added[0] != w.ledger.added[1] && w.ledger.added[0].id == w.ledger.added[1].id
  {
    var (attr, env) := (Attr(0, 2, 1, 10, 10, 100), Env(0, true, true, 0));
    var (a, b) := (CallAdd(1, r, env), CallAdd(2, r, env));
    var w0 := Initial(attr, 2, env);
    assert w0.callers[1] == w0.callers[2] == Returned(0);
    var w1 := Next(w0, a);
    assert w1.callers[1].AwaitBirth? && w1.callers[2] == Returned(0);
    var w2 := Next(w1, b);
    assert [a, b][1..] == [b] && [b][1..] == [];
    assert Run(w0, [a, b]) == Run(w1, [b]) == Run(w2, []);
  }

  /** The steps after which both calls have returned. */
  function Overlap(r: Job): seq<Event> {
    var (env, none) := (Env(0, true, true, 0), Env(0, true, true, 1));
    [CallAdd(1, r, env), CallAdd(2, r, env), WorkerStarts(0), CallerWakes(1, none), CallerWakes(2, none)]
  }

  /** Both jobs wait under the id 0, and nothing else does. */
  ghost predicate BothWait(w: World) {
    var p := w.pool;
    && |Waiting(p)| == 2 && (forall i :: 0 <= i < 2 ==> Waiting(p)[i].id == 0)
    && p.persistentJob.None? && !p.shutdown && p.attr == Attr(0, 2, 1, 10, 10, 100) && |w.callers| == 3
  }

  lemma NobodyYet()
    ensures Initial(Attr(0, 2, 1, 10, 10, 100), 2, Env(0, true, true, 0)) ==
            World(Fresh(Attr(0, 2, 1, 10, 10, 100)), [], [Returned(0), Returned(0), Returned(0)], NO_JOBS)
  {
    var callers: seq<Caller> := seq(3, _ => Returned(0));
    assert callers[0 := Returned(0)] == [Returned(0), Returned(0), Returned(0)];
  }

  /** A job of the id 0 joins a queue. */
  lemma JoinsQueue(q: Queues, job: Job)
    requires job.id == 0 && forall i :: 0 <= i < |Flat(q)| ==> Flat(q)[i].id == 0
    ensures var f := Flat(Enqueued(q, job)); |f| == |Flat(q)| + 1 && forall i :: 0 <= i < |f| ==> f[i].id == 0
  {
    assert forall i :: 0 <= i < |q.high| ==> Flat(q)[i] == q.high[i];
    assert forall i :: 0 <= i < |q.med| ==> Flat(q)[|q.high| + i] == q.med[i];
    assert forall i :: 0 <= i < |q.low| ==> Flat(q)[|q.high| + |q.med| + i] == q.low[i];
  }

  lemma FirstCall(w: World, r: Job)
    requires w == World(Fresh(Attr(0, 2, 1, 10, 10, 100)), [], [Returned(0), Returned(0), Returned(0)], NO_JOBS)
    ensures Enabled(w, Overlap(r)[0]) && OneWaits(Next(w, Overlap(r)[0]))
  {
    hide Enqueued;
    JoinsQueue(w.pool.queues, NewJob(w.pool, r, 0));
    assert |Flat(w.pool.queues)| == QueuedJobs(w.pool);
  }

  /** The first job waits, and its call for the worker that it has created. */
  ghost predicate OneWaits(w: World) {
    var p := w.pool;
    && |Waiting(p)| == 1 && Waiting(p)[0].id == 0
    && p.persistentJob.None? && !p.shutdown && p.attr == Attr(0, 2, 1, 10, 10, 100) && p.lastJobId == 0
    && p.totalThreads == p.persistentThreads == 0 && p.starting && w.workers == [Born] && w.ledger.handed == []
    && w.callers == [Returned(0), AwaitBirth(ForAdd(0, 0, 1, 0)), Returned(0)]
  }

  /** Both jobs wait, and so do both calls. */
  ghost predicate TwoWait(w: World) {
    && BothWait(w) && w.workers == [Born] && w.ledger.handed == [] && w.pool.lastJobId == 0
    && w.pool.totalThreads == 0 && w.pool.starting
    && w.callers == [Returned(0), AwaitBirth(ForAdd(0, 0, 1, 0)), AwaitSlot(ForAdd(0, 0, 2, 0))]
  }

  lemma SecondCall(w: World, r: Job)
    requires OneWaits(w)
    ensures Enabled(w, Overlap(r)[1]) && TwoWait(Next(w, Overlap(r)[1]))
  {
    hide Enqueued;
    JoinsQueue(w.pool.queues, NewJob(w.pool, r, 0));
    assert |Flat(w.pool.queues)| == QueuedJobs(w.pool);
  }

  /** The worker starts, and the first call returns. */
  lemma FirstReturns(w: World, r: Job)
    requires TwoWait(w)
    ensures var es := Overlap(r);
            && Enabled(w, es[2]) && Enabled(Next(w, es[2]), es[3])
            && Next(w, es[2]).callers == w.callers
            && var v := Next(Next(w, es[2]), es[3]);
            && BothWait(v) && v.pool.lastJobId == 1 && v.pool.totalThreads == 1 && !v.pool.starting
            && v.ledger.handed == [Handed(0, 0)] && v.callers == [Returned(0), Returned(0), w.callers[2]]
  {
  }

  lemma SecondReturns(w: World, r: Job)
    requires BothWait(w) && w.pool.lastJobId == 1 && w.pool.totalThreads == 1 && !w.pool.starting
    requires w.ledger.handed == [Handed(0, 0)]
    requires w.callers == [Returned(0), Returned(0), AwaitSlot(ForAdd(0, 0, 2, 0))]
    ensures Enabled(w, Overlap(r)[4])
    ensures var v := Next(w, Overlap(r)[4]);
            && BothWait(v) && v.ledger.handed == [Handed(0, 0), Handed(0, 1)]
            && v.callers == [Returned(0), Returned(0), Returned(0)]
  {
  }

  lemma OverlapEnds(w: World, r: Job)
    requires TwoWait(w)
    ensures var v := Run(w, Overlap(r)[2..]);
            && BothWait(v) && v.ledger.handed == [Handed(0, 0), Handed(0, 1)]
            && v.callers == [Returned(0), Returned(0), Returned(0)]
  {
    hide Next, BothWait, Enabled;
    var es := Overlap(r);
    FirstReturns(w, r);
    var v := Next(Next(w, es[2]), es[3]);
    SecondReturns(v, r);
    assert es[2..][1..] == es[3..] && es[3..][1..] == es[4..] && es[4..][1..] == [];
    assert Run(v, es[4..]) == Run(Next(v, es[4]), []);
    assert Run(Next(w, es[2]), es[3..]) == Run(v, es[4..]);
  }

  /** The second call is one that comes back in the sense of ComesBack, after steps in
      which another id was given back. */
  lemma OverlapComesBack(w: World, r: Job)
    requires OneWaits(w)
    ensures ComesBack(w, Overlap(r)[1], Overlap(r)[2..4], 2, Env(0, true, true, 1))
  {
    hide Next, BothWait, Enabled;
    var es := Overlap(r);
    SecondCall(w, r);
    var u := Next(w, es[1]);
    FirstReturns(u, r);
    var v := Next(Next(u, es[2]), es[3]);
    SecondReturns(v, r);
    assert es[2..4][0] == es[2] && es[2..4][1..] == [es[3]] && [es[3]][1..] == [];
    assert StaysIn(v, [], 2);
    assert StaysIn(Next(u, es[2]), [es[3]], 2);
    assert StaysIn(u, es[2..4], 2);
    assert Run(Next(u, es[2]), [es[3]]) == Run(v, []);
    assert Run(u, es[2..4]) == v;
    assert es[4] == CallerWakes(2, Env(0, true, true, 1));
  }

  lemma RemoveMisses(w: World)
    requires BothWait(w) && w.callers[2] == Returned(0)
    ensures Enabled(w, CallRemove(2, 1))
    ensures var v := Next(w, CallRemove(2, 1)); v.callers[2] == Returned(REFUSED) && v.pool == w.pool
  {
    var q := w.pool.queues;
    assert forall i :: 0 <= i < |q.high| ==> q.high[i] == Waiting(w.pool)[i];
    assert forall i :: 0 <= i < |q.med| ==> q.med[i] == Waiting(w.pool)[|q.high| + i];
    assert forall i :: 0 <= i < |q.low| ==> q.low[i] == Waiting(w.pool)[|q.high| + |q.med| + i];
  }

  /** When they have returned, the second call has been given an id that no job has:
      ThreadPoolRemove with it fails, although both jobs wait in the pool. */
  lemma TheIdMissesTheJob(r: Job)
    ensures var w := Run(Initial(Attr(0, 2, 1, 10, 10, 100), 2, Env(0, true, true, 0)), Overlap(r));
            && BothWait(w) && w.ledger.handed == [Handed(0, 0), Handed(0, 1)]
            && w.callers == [Returned(0), Returned(0), Returned(0)] && Enabled(w, CallRemove(2, 1))
            && var v := Next(w, CallRemove(2, 1));
            v.callers[2] == Returned(REFUSED) && v.pool == w.pool
  {
    hide BothWait, OneWaits, TwoWait, Next, Enabled, Initial;
    var (w0, es) := (Initial(Attr(0, 2, 1, 10, 10, 100), 2, Env(0, true, true, 0)), Overlap(r));
    NobodyYet();
    FirstCall(w0, r);
    SecondCall(Next(w0, es[0]), r);
    var w := Next(Next(w0, es[0]), es[1]);
    OverlapEnds(w, r);
    assert es[1..][1..] == es[2..];
    assert Run(w0, es) == Run(w, es[2..]);
    RemoveMisses(Run(w0, es));
  }
}
