/** The handlers and the dispatcher iteration as code over the Store, run without interruption. Each
    leaves the tables that the corresponding run of the interleaving machine leaves: see
    DispatchOrder.RoundIsARun, CancelIsARun, StartIsARun and CreateIsARun. */
module Handlers {
  import opened Models
  import opened Tables
  import opened Database
  import opened Orchestrator
  import opened DispatchOrder
  import opened WorkflowLease

  // ---------- RunOnce ----------

  datatype DispatchOutcome = NothingQueued | NoDispatchableNode | Done(job: JobId)

  /** RunOnce. `node` is the node chosen with its credentials, if any; `ok` says that the payload parsed
      and the worker answered with status completed. */
  method RunOnce(store: Store, node: Option<NodeId>, ok: bool) returns (r: DispatchOutcome)
    modifies store
    ensures r.NothingQueued? ==> store.View() == old(store.View())
                                 && forall k :: 0 <= k < |store.jobs| ==> store.jobs[k].status != JobQueued
    ensures r.NoDispatchableNode? ==> node.None? && store.View() == old(store.View())
    // otherwise the oldest queued job is finished on the node, and its task follows unless it was terminal
    ensures r.Done? ==> node.Some? && store.View() == Dispatched(old(store.View()), r.job, node.value, ok)
    ensures r.Done? ==>
              && r.job < |old(store.jobs)| && old(store.jobs)[r.job].status == JobQueued
              && (forall k :: 0 <= k < r.job ==> old(store.jobs)[k].status != JobQueued)
              && store.jobs == old(store.jobs)[r.job := Job(old(store.jobs)[r.job].task, node, if ok then JobCompleted else JobFailed)]
              && var t := old(store.jobs)[r.job].task;
                 if t < |old(store.tasks)| && old(store.tasks)[t].status !in {Completed, Failed, Canceled, Superseded}
                 then store.tasks == old(store.tasks)[t := old(store.tasks)[t].(status := if ok then Completed else Failed, closed := true)]
                 else store.tasks == old(store.tasks)
  {
    var next := store.GetNextQueuedJob();
    if next.None? {
      return NothingQueued;
    }
    if node.None? {
      return NoDispatchableNode;
    }
    var j := next.value;
    store.AssignJobToNode(j, node.value);
    store.UpdateJobStatus(j, JobRunning);
    store.UpdateTaskStatus(store.jobs[j].task, Running);
    store.UpdateJobStatus(j, JobResult(ok));
    store.UpdateTaskStatus(store.jobs[j].task, TaskResult(ok));
    DispatchedMeans(old(store.View()), j, node.value, ok);
    return Done(j);
  }

  // ---------- CancelTask ----------

  /** The tables after the listed jobs were canceled one by one. */
  function CancelJobs(db: Db, todo: seq<JobId>): Db
    decreases |todo|
  {
    if todo == [] then db else CancelJobs(UpdateJobStatus(db, todo[0], JobCanceled), todo[1..])
  }

  /** The tables after an uninterrupted cancel. */
  function AfterCancel(db: Db, t: TaskId): Db {
    var listed := UpdateTaskStatus(db, t, Canceled);
    CancelJobs(listed, JobsToCancel(listed.jobs, t, |listed.jobs|))
  }

  lemma {:induction false} CancelJobsMeans(db: Db, todo: seq<JobId>)
    ensures var db' := CancelJobs(db, todo);
            && db'.(jobs := db.jobs) == db && |db'.jobs| == |db.jobs|
            && forall j :: 0 <= j < |db.jobs| ==>
                 db'.jobs[j] == if j in todo then db.jobs[j].(status := JobCanceled) else db.jobs[j]
    decreases |todo|
  {
    if todo != [] {
      CancelJobsMeans(UpdateJobStatus(db, todo[0], JobCanceled), todo[1..]);
      assert forall j :: j in todo <==> j == todo[0] || j in todo[1..];
    }
  }

  /** What an uninterrupted cancel does: the task is canceled unless it was terminal, exactly its jobs that
      were not completed, failed or canceled are canceled, and nothing else changes. */
  lemma AfterCancelMeans(db: Db, t: TaskId)
    ensures var db' := AfterCancel(db, t);
            && db'.tasks == (if t < |db.tasks| && db.tasks[t].status !in {Completed, Failed, Canceled, Superseded}
                             then db.tasks[t := db.tasks[t].(status := Canceled, closed := true)] else db.tasks)
            && |db'.jobs| == |db.jobs|
            && (forall j :: 0 <= j < |db.jobs| ==>
                  db'.jobs[j] == if db.jobs[j].task == t && db.jobs[j].status !in {JobCompleted, JobFailed, JobCanceled}
                                 then db.jobs[j].(status := JobCanceled) else db.jobs[j])
            && db'.leases == db.leases && db'.plans == db.plans && db'.deps == db.deps
  {
    var listed := UpdateTaskStatus(db, t, Canceled);
    CancelJobsMeans(listed, JobsToCancel(listed.jobs, t, |listed.jobs|));
  }

  /** CancelTask after the task was resolved: write the task, list its jobs, cancel the live ones. */
  method CancelTask(store: Store, t: TaskId)
    modifies store
    ensures store.View() == AfterCancel(old(store.View()), t)
    // the task is canceled unless it was terminal
    ensures store.tasks == if t < |old(store.tasks)| && old(store.tasks)[t].status !in {Completed, Failed, Canceled, Superseded}
                           then old(store.tasks)[t := old(store.tasks)[t].(status := Canceled, closed := true)]
                           else old(store.tasks)
    // exactly its jobs that were not completed, failed or canceled are canceled
    ensures |store.jobs| == |old(store.jobs)|
    ensures forall j :: 0 <= j < |store.jobs| ==>
              store.jobs[j] == if old(store.jobs)[j].task == t && old(store.jobs)[j].status !in {JobCompleted, JobFailed, JobCanceled}
                               then old(store.jobs)[j].(status := JobCanceled) else old(store.jobs)[j]
    ensures store.leases == old(store.leases) && store.plans == old(store.plans) && store.deps == old(store.deps)
  {
    store.UpdateTaskStatus(t, Canceled);
    var todo := store.ListJobsToCancel(t);
    ghost var listed := store.View();
    var i := 0;
    while i < |todo|
      invariant i <= |todo|
      invariant CancelJobs(store.View(), todo[i..]) == CancelJobs(listed, todo)
    {
      assert todo[i..][1..] == todo[i + 1..];
      store.UpdateJobStatus(todo[i], JobCanceled);
      i := i + 1;
    }
    AfterCancelMeans(old(store.View()), t);
  }

  /** An uninterrupted CancelTask of the owner is a run of the machine ending in the same tables. */
  lemma CancelIsARun(s: State, th: ThreadId, t: TaskId, owner: UserId) returns (states: seq<State>, acts: seq<Action>)
    requires th !in s.threads && t < |s.db.tasks| && s.db.tasks[t].createdBy == Some(owner)
    ensures IsRun(states, acts) && states[0] == s
    ensures states[|acts|] == s.(db := AfterCancel(s.db, t),
                                 hist := s.hist.(canceled := s.hist.canceled + {t},
                                                 swept := s.hist.swept + if BeingCreated(s, t) then {} else {t}))
  {
    var listed := UpdateTaskStatus(s.db, t, Canceled);
    var todo := JobsToCancel(listed.jobs, t, |listed.jobs|);
    var settled := !BeingCreated(s, t);
    var s0 := s.(db := listed, hist := s.hist.(canceled := s.hist.canceled + {t}));
    var s1 := Go(s, th, Canceling(t));
    var s2 := Go(s0, th, Listing(t));
    var s3 := Go(s0, th, Sweeping(t, todo, settled));
    CancelRowSteps(s, s0, th, t, owner);
    ListsFrom(s, s0, th, t);
    var rest, more := SweepsAll(s0, th, t, todo, settled);
    states, acts := [s, s1, s2, s3], [ResolveTask(th, t, owner), CancelTaskRow(th), ListJobs(th)];
    JoinRuns(states, acts, rest, more);
    states, acts := states + rest[1..], acts + more;
  }

  lemma CancelRowSteps(s: State, s0: State, th: ThreadId, t: TaskId, owner: UserId)
    requires th !in s.threads && t < |s.db.tasks| && s.db.tasks[t].createdBy == Some(owner)
    requires s0 == s.(db := UpdateTaskStatus(s.db, t, Canceled), hist := s.hist.(canceled := s.hist.canceled + {t}))
    ensures Step(s, ResolveTask(th, t, owner), Go(s, th, Canceling(t)))
    ensures Step(Go(s, th, Canceling(t)), CancelTaskRow(th), Go(s0, th, Listing(t)))
  {
    GoAgain(s, th, Canceling(t), Listing(t));
  }

  lemma ListsFrom(s: State, s0: State, th: ThreadId, t: TaskId)
    requires th !in s.threads && s0.threads == s.threads
    ensures var todo := JobsToCancel(s0.db.jobs, t, |s0.db.jobs|);
            Step(Go(s0, th, Listing(t)), ListJobs(th), Go(s0, th, Sweeping(t, todo, !BeingCreated(s, t))))
  {
    var s2 := Go(s0, th, Listing(t));
    assert BeingCreated(s2, t) <==> BeingCreated(s, t) by {
      if BeingCreated(s, t) {
        var x :| x in s.threads && s.threads[x] == Creating(t);
        assert s2.threads[x] == Creating(t);
      }
    }
    var p := Sweeping(t, JobsToCancel(s0.db.jobs, t, |s0.db.jobs|), !BeingCreated(s, t));
    assert s2.threads[th := p] == s0.threads[th := p];
  }

  lemma {:induction false} SweepsAll(s: State, th: ThreadId, t: TaskId, todo: seq<JobId>, settled: bool)
    returns (states: seq<State>, acts: seq<Action>)
    requires th !in s.threads
    ensures IsRun(states, acts) && states[0] == Go(s, th, Sweeping(t, todo, settled))
    ensures states[|acts|] == s.(db := CancelJobs(s.db, todo),
                                 hist := s.hist.(swept := s.hist.swept + if settled then {t} else {}))
    decreases |todo|
  {
    var now := Go(s, th, Sweeping(t, todo, settled));
    if todo == [] {
      assert now.threads - {th} == s.threads;
      states, acts := [now, Apply(now, AnswerCancel(th))], [AnswerCancel(th)];
    } else {
      var next := s.(db := UpdateJobStatus(s.db, todo[0], JobCanceled));
      var p := Sweeping(t, todo[1..], settled);
      assert now.threads[th := p] == s.threads[th := p];
      assert Step(now, CancelJob(th), Go(next, th, p));
      var rest, more := SweepsAll(next, th, t, todo[1..], settled);
      PrependStep(now, CancelJob(th), rest, more);
      states, acts := [now] + rest, [CancelJob(th)] + more;
      assert states[|acts|] == rest[|more|];
    }
  }

  // ---------- workflow Start ----------

  datatype StartAnswer =
    | TaskNotFound
    | GateDenied(reason: Gate)
    | AlreadyRunning(lease: LeaseId)
    | Started(lease: LeaseId)
    | HeldByAnother

  /** The gate, evaluated without interruption: a task without a plan passes; otherwise the plan exists, is
      not archived, and is active or asked for by the project manager agent, and all dependencies are completed. */
  predicate GateAllows(db: Db, t: TaskId, byPMA: bool)
    requires t < |db.tasks|
  {
    var plan := db.tasks[t].plan;
    plan.Some? ==>
      && plan.value in db.plans && !db.plans[plan.value].archived && (db.plans[plan.value].active || byPMA)
      && (t in db.deps ==> forall d :: d in db.deps[t] ==> d < |db.tasks| && db.tasks[d].status == Completed)
  }

  predicate PassesGate(db: Db, req: StartRequest) {
    req.task < |db.tasks| && GateAllows(db, req.task, req.byPMA)
  }

  predicate RunsAlready(db: Db, req: StartRequest, lease: LeaseId, now: Time) {
    var row := RowOf(db, req.task);
    Matches(row, req.holder, lease) && row.value.expiresAt.value > now
  }

  /** Another runner, or the same one under another lease id, has the lease. */
  predicate HeldAgainst(db: Db, req: StartRequest, lease: LeaseId, now: Time) {
    && req.task in db.leases && !IsFree(db.leases[req.task], now)
    && (db.leases[req.task].holder != Some(req.holder) || db.leases[req.task].id != lease)
  }

  /** The tables after an uninterrupted Start. */
  function AfterStart(db: Db, req: StartRequest, lease: LeaseId, now1: Time, now2: Time, now3: Time): Db {
    if PassesGate(db, req) && !RunsAlready(db, req, lease, now2)
    then AcquireLease(db, req.task, lease, req.holder, now1 + LeaseTTL(req), now3).0
    else db
  }

  /** Start for a decoded request; `newLease` is the generated lease id, used when the request has no
      idempotency key, and the three times are the clock at its three readings. */
  method StartWorkflow(store: Store, req: StartRequest, newLease: LeaseId, now1: Time, now2: Time, now3: Time)
    returns (r: StartAnswer)
    requires now1 <= now2 <= now3
    requires forall t :: t in store.leases ==> (store.leases[t].holder.Some? <==> store.leases[t].expiresAt.Some?)
    modifies store`leases
    ensures var id := if req.key.Some? then req.key.value else newLease;
            store.View() == AfterStart(old(store.View()), req, id, now1, now2, now3)
    // which answer is given, for a request that passes the gate: by the key and the row
    ensures r.TaskNotFound? <==> req.task >= |store.tasks|
    ensures r.GateDenied? <==> req.task < |store.tasks| && !GateAllows(store.View(), req.task, req.byPMA)
    ensures r.AlreadyRunning? <==>
              && req.task < |store.tasks| && GateAllows(store.View(), req.task, req.byPMA)
              && req.task in old(store.leases)
              && var row := old(store.leases)[req.task];
                 && row.holder == Some(req.holder) && row.id == (if req.key.Some? then req.key.value else newLease)
                 && row.expiresAt.Some? && row.expiresAt.value > now2
    ensures r.HeldByAnother? <==>
              && req.task < |store.tasks| && GateAllows(store.View(), req.task, req.byPMA)
              && req.task in old(store.leases)
              && var row := old(store.leases)[req.task];
                 && row.holder.Some? && (row.expiresAt.Some? ==> row.expiresAt.value >= now3)
                 && (row.holder != Some(req.holder) || row.id != if req.key.Some? then req.key.value else newLease)
    // a success is for the holder and the key, or a new lease without a key, which are then in the row
    ensures r.Started? || r.AlreadyRunning? ==>
              && r.lease == (if req.key.Some? then req.key.value else newLease)
              && req.task in store.leases
              && store.leases[req.task].id == r.lease && store.leases[req.task].holder == Some(req.holder)
    // a free lease is granted for the requested time, or an hour; a held one is never changed
    ensures r.Started? ==>
              if req.task !in old(store.leases) || old(store.leases)[req.task].holder.None?
                 || (old(store.leases)[req.task].expiresAt.Some? && old(store.leases)[req.task].expiresAt.value < now3)
              then store.leases[req.task].expiresAt ==
                   Some(now1 + if req.expiresInSec.Some? && req.expiresInSec.value > 0 then req.expiresInSec.value else 60 * 60)
              else store.leases == old(store.leases)
    ensures !r.Started? ==> store.leases == old(store.leases)
    ensures forall t :: t != req.task ==>
              (t in store.leases <==> t in old(store.leases)) && (t in store.leases ==> store.leases[t] == old(store.leases)[t])
  {
    if req.task >= |store.tasks| {
      return TaskNotFound;
    }
    var gate := store.EvaluateWorkflowStartGate(req.task, store.tasks[req.task].plan, req.byPMA);
    if gate != Allowed {
      return GateDenied(gate);
    }
    r := AcquireAndRespond(store, req, newLease, now1, now2, now3);
  }

  /** startAcquireAndRespond: the part of Start after the gate. */
  method AcquireAndRespond(store: Store, req: StartRequest, newLease: LeaseId, now1: Time, now2: Time, now3: Time)
    returns (r: StartAnswer)
    requires now1 <= now2 <= now3
    requires forall t :: t in store.leases ==> (store.leases[t].holder.Some? <==> store.leases[t].expiresAt.Some?)
    modifies store`leases
    ensures r.AlreadyRunning? || r.Started? || r.HeldByAnother?
    ensures var id := if req.key.Some? then req.key.value else newLease;
            && (r.AlreadyRunning? <==> RunsAlready(old(store.View()), req, id, now2))
            && (r.HeldByAnother? <==> HeldAgainst(old(store.View()), req, id, now3))
            && (r.Started? || r.AlreadyRunning? ==> r.lease == id)
            && store.View() == if r.AlreadyRunning? then old(store.View())
                               else AcquireLease(old(store.View()), req.task, id, req.holder, now1 + LeaseTTL(req), now3).0
  {
    var expiresAt := now1 + LeaseTTL(req);
    var lease := if req.key.Some? then req.key.value else newLease;
    if req.task in store.leases {
      var row := store.leases[req.task];
      if row.holder == Some(req.holder) && row.id == lease && row.expiresAt.Some? && row.expiresAt.value > now2 {
        return StartAnswer.AlreadyRunning(lease);
      }
    }
    var got := store.AcquireTaskWorkflowLease(req.task, lease, req.holder, expiresAt, now3);
    if got.LeaseHeld? {
      return HeldByAnother;
    }
    return StartAnswer.Started(got.lease.id);
  }

  /** While a lease is held, a further Start of its holder succeeds if and only if it carries the lease id;
      under any other id, as without an idempotency key, the holder itself is refused. */
  lemma SameHolderNeedsItsLease(db: Db, req: StartRequest, lease: LeaseId, stored: LeaseId, until: Time,
                                now1: Time, now2: Time, now3: Time)
    requires RowHeld(db, req.task, req.holder, stored, until) && now2 <= now3 <= until
    ensures HeldAgainst(db, req, lease, now3) <==> lease != stored
    ensures AfterStart(db, req, lease, now1, now2, now3) == db
    ensures RunsAlready(db, req, lease, now2) <==> lease == stored && now2 < until
  {
  }

  /** The success that the machine records, if any. */
  function StartEvents(db: Db, req: StartRequest, lease: LeaseId, now1: Time, now2: Time, now3: Time, n: nat): seq<Event> {
    if !PassesGate(db, req) || HeldAgainst(db, req, lease, now3) then []
    else if RunsAlready(db, req, lease, now2) then
      [Event.AlreadyRunning(req.task, req.holder, lease, now2, RowOf(db, req.task).value.expiresAt.value, n)]
    else
      var row := AcquireLease(db, req.task, lease, req.holder, now1 + LeaseTTL(req), now3).0.leases[req.task];
      [Event.Started(req.task, req.holder, lease, now3, if row.expiresAt.Some? then row.expiresAt.value else 0, n)]
  }

  /** An uninterrupted Start is a run of the machine ending in the same tables, with the success recorded;
      the clock advances by `d1` before the comparison and by `d2` before Acquire. */
  lemma StartIsARun(s: State, th: ThreadId, req: StartRequest, newLease: LeaseId, d1: nat, d2: nat)
    returns (states: seq<State>, acts: seq<Action>)
    requires th !in s.threads && req.task < |s.db.tasks| && req.holder != "" && RowsPaired(s.db)
    ensures IsRun(states, acts) && states[0] == s && acts != [] && acts[0] == GetTask(th, req)
    ensures var lease := if req.key.Some? then req.key.value else newLease;
            var f := states[|acts|]; var now2 := s.clock + d1; var now3 := s.clock + d1 + d2;
            && f.threads == s.threads && f.dispatch == s.dispatch
            && f.db == AfterStart(s.db, req, lease, s.clock, now2, now3)
            && f.hist == s.hist.(log := s.hist.log + StartEvents(s.db, req, lease, s.clock, now2, now3, |s.hist.log|))
  {
    var lease := if req.key.Some? then req.key.value else newLease;
    states, acts := GateIsARun(s, th, req);
    if GateAllows(s.db, req.task, req.byPMA) {
      var rest, more := LeaseIsARun(s, th, req, lease, d1, d2);
      JoinRuns(states, acts, rest, more);
      states, acts := states + rest[1..], acts + more;
    } else {
      assert s.hist.log + [] == s.hist.log;
    }
  }

  /** In particular a run in which the holder of a lease starts again without an idempotency key, gets a new
      lease id, and is refused: nothing is written and no success is recorded. */
  lemma HolderWithoutKeyIsRefused(s: State, th: ThreadId, req: StartRequest, another: LeaseId, stored: LeaseId, until: Time)
    returns (states: seq<State>, acts: seq<Action>)
    requires th !in s.threads && req.task < |s.db.tasks| && req.holder != "" && RowsPaired(s.db)
    requires req.key.None? && another != stored && s.clock <= until && RowHeld(s.db, req.task, req.holder, stored, until)
    ensures IsRun(states, acts) && states[0] == s && GetTask(th, req) in acts
    ensures var f := states[|acts|]; th !in f.threads && f.db == s.db && f.hist == s.hist
  {
    states, acts := StartIsARun(s, th, req, another, 0, 0);
    SameHolderNeedsItsLease(s.db, req, another, stored, until, s.clock, s.clock, s.clock);
    assert s.hist.log + [] == s.hist.log;
  }

  /** The gate part: it ends before the choice of the lease id, or with a refusal. */
  lemma GateIsARun(s: State, th: ThreadId, req: StartRequest) returns (states: seq<State>, acts: seq<Action>)
    requires th !in s.threads && req.task < |s.db.tasks| && req.holder != ""
    ensures IsRun(states, acts) && states[0] == s && acts != [] && acts[0] == GetTask(th, req)
    ensures states[|acts|] == if GateAllows(s.db, req.task, req.byPMA) then Go(s, th, Choosing(req)) else s
  {
    var plan := s.db.tasks[req.task].plan;
    GetTaskStep(s, th, req);
    states, acts := [s, Apply(s, GetTask(th, req))], [GetTask(th, req)];
    if plan.Some? {
      var rest, more := PlanIsARun(s, th, req, plan.value);
      JoinRuns(states, acts, rest, more);
      states, acts := states + rest[1..], acts + more;
    }
  }

  lemma ReadPlanStep(s: State, th: ThreadId, req: StartRequest, plan: PlanId)
    requires CheckPlan(s.db, plan, req.byPMA) == Allowed
    ensures Step(Go(s, th, ReadingPlan(req, plan)), ReadPlan(th), Go(s, th, ListingDeps(req)))
  {
    GoAgain(s, th, ReadingPlan(req, plan), ListingDeps(req));
  }

  lemma ListDepsStep(s: State, th: ThreadId, req: StartRequest)
    ensures Step(Go(s, th, ListingDeps(req)), ListDeps(th), Go(s, th, ReadingDeps(req, DependenciesOf(s.db, req.task))))
  {
    GoAgain(s, th, ListingDeps(req), ReadingDeps(req, DependenciesOf(s.db, req.task)));
  }

  lemma PlanIsARun(s: State, th: ThreadId, req: StartRequest, plan: PlanId) returns (states: seq<State>, acts: seq<Action>)
    requires th !in s.threads
    ensures IsRun(states, acts) && states[0] == Go(s, th, ReadingPlan(req, plan))
    ensures states[|acts|] == if CheckPlan(s.db, plan, req.byPMA) == Allowed && DependenciesMet(s.db, req.task)
                              then Go(s, th, Choosing(req)) else s
  {
    var s1 := Go(s, th, ReadingPlan(req, plan));
    if CheckPlan(s.db, plan, req.byPMA) != Allowed {
      GoAgain(s, th, ReadingPlan(req, plan), Choosing(req));
      states, acts := [s1, s], [ReadPlan(th)];
    } else {
      var deps := DependenciesOf(s.db, req.task);
      var s2, s3 := Go(s, th, ListingDeps(req)), Go(s, th, ReadingDeps(req, deps));
      ReadPlanStep(s, th, req, plan);
      ListDepsStep(s, th, req);
      states, acts := [s1, s2, s3], [ReadPlan(th), ListDeps(th)];
      var rest, more := DepsAreARun(s, th, req, deps);
      JoinRuns(states, acts, rest, more);
      states, acts := states + rest[1..], acts + more;
    }
  }

  lemma {:induction false} DepsAreARun(s: State, th: ThreadId, req: StartRequest, unread: seq<TaskId>)
    returns (states: seq<State>, acts: seq<Action>)
    requires th !in s.threads
    ensures IsRun(states, acts) && states[0] == Go(s, th, ReadingDeps(req, unread))
    ensures states[|acts|] == if forall d :: d in unread ==> IsCompleted(s.db, d) then Go(s, th, Choosing(req)) else s
    decreases |unread|
  {
    var now := Go(s, th, ReadingDeps(req, unread));
    if unread == [] {
      assert now.threads[th := Choosing(req)] == s.threads[th := Choosing(req)];
      states, acts := [now, Go(s, th, Choosing(req))], [ReadDep(th)];
    } else if CheckDependency(s.db, unread[0]) == Allowed {
      var next := Go(s, th, ReadingDeps(req, unread[1..]));
      assert now.threads[th := next.threads[th]] == next.threads;
      assert Step(now, ReadDep(th), next);
      var rest, more := DepsAreARun(s, th, req, unread[1..]);
      PrependStep(now, ReadDep(th), rest, more);
      states, acts := [now] + rest, [ReadDep(th)] + more;
      assert states[|acts|] == rest[|more|];
      assert forall d :: d in unread <==> d == unread[0] || d in unread[1..];
    } else {
      assert now.threads - {th} == s.threads;
      assert !IsCompleted(s.db, unread[0]);
      states, acts := [now, s], [ReadDep(th)];
    }
  }

  /** The lease part, once the gate has allowed the Start. */
  lemma LeaseIsARun(s: State, th: ThreadId, req: StartRequest, lease: LeaseId, d1: nat, d2: nat)
    returns (states: seq<State>, acts: seq<Action>)
    requires th !in s.threads && RowsPaired(s.db) && PassesGate(s.db, req)
    requires req.key.Some? ==> lease == req.key.value
    ensures IsRun(states, acts) && states[0] == Go(s, th, Choosing(req))
    ensures var f := states[|acts|]; var now2 := s.clock + d1; var now3 := s.clock + d1 + d2;
            && f.threads == s.threads && f.dispatch == s.dispatch
            && f.db == AfterStart(s.db, req, lease, s.clock, now2, now3)
            && f.hist == s.hist.(log := s.hist.log + StartEvents(s.db, req, lease, s.clock, now2, now3, |s.hist.log|))
  {
    var e := s.clock + LeaseTTL(req);
    var later := s.(clock := s.clock + d1);
    var p := Comparing(req, lease, e, RowOf(s.db, req.task), |s.hist.log|);
    var s0, s1 := Go(s, th, Choosing(req)), Go(s, th, Looking(req, lease, e));
    var s2, s3 := Go(s, th, p), Go(later, th, p);
    ChooseStep(s, th, req, lease);
    LookStep(s, th, req, lease, e);
    assert Step(s2, Tick(d1), s3);
    states, acts := [s0, s1, s2, s3], [Choose(th, lease), Look(th), Tick(d1)];
    var rest, more := AnswerIsARun(later, th, req, lease, e, d2);
    JoinRuns(states, acts, rest, more);
    states, acts := states + rest[1..], acts + more;
  }

  lemma AnswerIsARun(s: State, th: ThreadId, req: StartRequest, lease: LeaseId, e: Time, d2: nat)
    returns (states: seq<State>, acts: seq<Action>)
    requires th !in s.threads && RowsPaired(s.db) && PassesGate(s.db, req)
    ensures IsRun(states, acts)
    ensures states[0] == Go(s, th, Comparing(req, lease, e, RowOf(s.db, req.task), |s.hist.log|))
    ensures var f := states[|acts|]; var now1 := e - LeaseTTL(req); var now3 := s.clock + d2;
            && f.threads == s.threads && f.dispatch == s.dispatch
            && f.db == AfterStart(s.db, req, lease, now1, s.clock, now3)
            && f.hist == s.hist.(log := s.hist.log + StartEvents(s.db, req, lease, now1, s.clock, now3, |s.hist.log|))
  {
    var p := Comparing(req, lease, e, RowOf(s.db, req.task), |s.hist.log|);
    var s0 := Go(s, th, p);
    GoAgain(s, th, p, Acquiring(req, lease, e));
    if RunsAlready(s.db, req, lease, s.clock) {
      states, acts := [s0, Apply(s0, Compare(th))], [Compare(th)];
    } else {
      var s1, s2 := Go(s, th, Acquiring(req, lease, e)), Go(s.(clock := s.clock + d2), th, Acquiring(req, lease, e));
      assert Step(s0, Compare(th), s1);
      assert Step(s1, Tick(d2), s2);
      var s3 := AcquireStep(s.(clock := s.clock + d2), th, req, lease, e);
      states, acts := [s0, s1, s2, s3], [Compare(th), Tick(d2), Acquire(th)];
      assert s.hist.log + [] == s.hist.log;
    }
  }

  lemma AcquireStep(s: State, th: ThreadId, req: StartRequest, lease: LeaseId, e: Time) returns (s': State)
    requires th !in s.threads && RowsPaired(s.db)
    ensures Step(Go(s, th, Acquiring(req, lease, e)), Acquire(th), s')
    ensures var db' := AcquireLease(s.db, req.task, lease, req.holder, e, s.clock).0;
            if HeldAgainst(s.db, req, lease, s.clock) then s' == s.(db := db')
            else && req.task in db'.leases && db'.leases[req.task].expiresAt.Some?
                 && s' == Log(s.(db := db'), Event.Started(req.task, req.holder, lease, s.clock,
                                                           db'.leases[req.task].expiresAt.value, |s.hist.log|))
  {
    GoAgain(s, th, Acquiring(req, lease, e), Acquiring(req, lease, e));
    assert req.task in s.db.leases ==> RowOk(s.db.leases[req.task]);
    s' := Apply(Go(s, th, Acquiring(req, lease, e)), Acquire(th));
  }

  // ---------- CreateTask ----------

  /** The tables after an uninterrupted CreateTask. */
  function AfterCreate(db: Db, user: Option<UserId>, name: Option<string>, done: bool): Db {
    var t := |db.tasks|;
    var inserted := Tables.CreateTask(db, user, name);
    if done then UpdateTaskStatus(CreateJob(inserted, t, JobCompleted), t, Completed)
    else CreateJob(inserted, t, JobQueued)
  }

  /** CreateTask for a decoded request, when it is answered with 201. `viaSBA`: an SBA job was asked for
      and its payload could be built; `inferred`: otherwise, the orchestrator's own inference answered. */
  method CreateTask(store: Store, user: Option<UserId>, name: Option<string>, viaSBA: bool, inferred: bool)
    returns (t: TaskId, j: JobId)
    modifies store
    ensures store.View() == AfterCreate(old(store.View()), user, name, !viaSBA && inferred)
    ensures t == |old(store.tasks)| && |store.tasks| == t + 1 && store.tasks[..t] == old(store.tasks)
    ensures j == |old(store.jobs)| && |store.jobs| == j + 1 && store.jobs[..j] == old(store.jobs)
    ensures store.tasks[t].createdBy == user && store.tasks[t].summary == SummaryFor(old(store.tasks), user, name)
    ensures store.jobs[j].task == t
    ensures if !viaSBA && inferred
            then store.tasks[t].status == Completed && store.tasks[t].closed && store.jobs[j].status == JobCompleted
            else store.tasks[t].status == Pending && !store.tasks[t].closed && store.jobs[j].status == JobQueued
    ensures store.leases == old(store.leases)
  {
    var tries;
    t, tries := store.CreateTask(user, name);
    if viaSBA {
      j := store.CreateJob(t, JobQueued);
      return;
    }
    if inferred {
      j := store.CreateJob(t, JobCompleted);
      store.UpdateTaskStatus(t, Completed);
      return;
    }
    j := store.CreateJob(t, JobQueued);
  }

  /** An uninterrupted CreateTask is a run of the machine ending in the same tables, with the job recorded
      as that of the answered task. */
  lemma CreateIsARun(s: State, th: ThreadId, user: Option<UserId>, name: Option<string>, done: bool)
    returns (states: seq<State>, acts: seq<Action>)
    requires th !in s.threads
    ensures IsRun(states, acts) && states[0] == s
    ensures states[|acts|] == s.(db := AfterCreate(s.db, user, name, done),
                                 hist := s.hist.(answered := s.hist.answered[|s.db.tasks| := |s.db.jobs|]))
  {
    var t := |s.db.tasks|;
    var inserted := s.(db := Tables.CreateTask(s.db, user, name));
    var s1 := Go(inserted, th, Creating(t));
    assert Step(s, InsertTask(th, user, name), s1);
    if done {
      var s2, s3 := DoneJobSteps(inserted, th, t);
      states, acts := [s, s1, s2, s3], [InsertTask(th, user, name), InsertDoneJob(th), CompleteTask(th)];
    } else {
      var s2 := QueueJobStep(inserted, th, t);
      states, acts := [s, s1, s2], [InsertTask(th, user, name), QueueJob(th)];
    }
  }

  lemma QueueJobStep(s: State, th: ThreadId, t: TaskId) returns (s': State)
    requires th !in s.threads
    ensures Step(Go(s, th, Creating(t)), QueueJob(th), s')
    ensures s' == s.(db := CreateJob(s.db, t, JobQueued), hist := s.hist.(answered := s.hist.answered[t := |s.db.jobs|]))
  {
    GoAgain(s, th, Creating(t), Creating(t));
    s' := Apply(Go(s, th, Creating(t)), QueueJob(th));
  }

  lemma DoneJobSteps(s: State, th: ThreadId, t: TaskId) returns (s1: State, s2: State)
    requires th !in s.threads
    ensures Step(Go(s, th, Creating(t)), InsertDoneJob(th), s1) && Step(s1, CompleteTask(th), s2)
    ensures s2 == s.(db := UpdateTaskStatus(CreateJob(s.db, t, JobCompleted), t, Completed),
                     hist := s.hist.(answered := s.hist.answered[t := |s.db.jobs|]))
  {
    var p := Inferred(t, |s.db.jobs|);
    GoAgain(s, th, Creating(t), p);
    GoAgain(s, th, p, p);
    s1 := Go(s.(db := CreateJob(s.db, t, JobCompleted)), th, p);
    s2 := Apply(s1, CompleteTask(th));
  }
}
