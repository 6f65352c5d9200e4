/** The orchestrator as an interleaving machine: one dispatcher loop and any number of request
    handlers, each a sequence of atomic Store calls. A state holds the tables, the clock, where the
    dispatcher is, where each running handler is, and a history of what has been answered. */
module Orchestrator {
  import opened Models
  import opened Tables

  type ThreadId = nat

  /** Where RunOnce is: the Store call it has just made. */
  datatype Dispatch =
    | Idle
    | Picked(job: JobId)
    | Placed(job: JobId, node: NodeId)
    | Assigned(job: JobId)
    | Marked(job: JobId)
    | Awaiting(job: JobId)
    | Reported(job: JobId, ok: bool)

  datatype StartRequest = StartRequest(
    task: TaskId,
    holder: string,
    key: Option<LeaseId>,
    expiresInSec: Option<int>,
    byPMA: bool)

  const DEFAULT_LEASE_TTL: int := 3600

  function LeaseTTL(req: StartRequest): int {
    if req.expiresInSec.Some? && req.expiresInSec.value > 0 then req.expiresInSec.value else DEFAULT_LEASE_TTL
  }

  /** Where a request handler is: the Store call it makes next. */
  datatype Thread =
    // CreateTask and Chat
    | Creating(task: TaskId)
    | Inferred(task: TaskId, job: JobId)
    // CancelTask; `settled`: no handler was still creating the task when its jobs were listed
    | Canceling(task: TaskId)
    | Listing(task: TaskId)
    | Sweeping(task: TaskId, todo: seq<JobId>, settled: bool)
    // workflow Start; `since`: how many events had been recorded when the lease row was read
    | ReadingPlan(req: StartRequest, plan: PlanId)
    | ListingDeps(req: StartRequest)
    | ReadingDeps(req: StartRequest, unread: seq<TaskId>)
    | Choosing(req: StartRequest)
    | Looking(req: StartRequest, lease: LeaseId, expiresAt: Time)
    | Comparing(req: StartRequest, lease: LeaseId, expiresAt: Time, row: Option<Lease>, since: nat)
    | Acquiring(req: StartRequest, lease: LeaseId, expiresAt: Time)

  /** Start was answered with success at time `at`, either "started" by its Acquire or "already_running"
      because the row it had read said so; or a Release was carried out. For both successes `expiresAt` is
      the expiry in the row, and from event `since` on the row was known to be that of the runner. */
  datatype Event =
    | Started(task: TaskId, holder: string, lease: LeaseId, at: Time, expiresAt: Time, since: nat)
    | AlreadyRunning(task: TaskId, holder: string, lease: LeaseId, at: Time, expiresAt: Time, since: nat)
    | Released(task: TaskId, lease: LeaseId)

  /** answered: tasks answered with success, with their job; canceled: tasks a cancel has written;
      swept: tasks whose cancel finished settled; dispatched: jobs in the order they were assigned. */
  datatype History = History(
    answered: map<TaskId, JobId>,
    canceled: set<TaskId>,
    swept: set<TaskId>,
    dispatched: seq<JobId>,
    log: seq<Event>)

  datatype State = State(
    db: Db,
    clock: Time,
    dispatch: Dispatch,
    threads: map<ThreadId, Thread>,
    hist: History)

  datatype Action =
    // the environment
    | Tick(elapsed: nat)
    | EditPlan(plan: PlanId, row: Plan)
    // RunOnce
    | Pick(job: JobId)
    | NoNode
    | Place(node: NodeId)
    | Assign
    | MarkJob
    | MarkTask
    | Report(ok: bool)
    | CloseTask
    // CreateTask and Chat
    | InsertTask(th: ThreadId, user: Option<UserId>, name: Option<string>)
    | AbandonCreate(th: ThreadId)
    | QueueJob(th: ThreadId)
    | InsertDoneJob(th: ThreadId)
    | CompleteTask(th: ThreadId)
    // CancelTask
    | ResolveTask(th: ThreadId, task: TaskId, owner: UserId)
    | CancelTaskRow(th: ThreadId)
    | ListJobs(th: ThreadId)
    | CancelJob(th: ThreadId)
    | AnswerCancel(th: ThreadId)
    // workflow Start and Release
    | GetTask(th: ThreadId, req: StartRequest)
    | ReadPlan(th: ThreadId)
    | ListDeps(th: ThreadId)
    | ReadDep(th: ThreadId)
    | Choose(th: ThreadId, lease: LeaseId)
    | Look(th: ThreadId)
    | Compare(th: ThreadId)
    | Acquire(th: ThreadId)
    | Release(task: TaskId, lease: LeaseId)

  predicate Enabled(s: State, a: Action) {
    match a
    case Tick(_) => true
    case EditPlan(_, _) => true
    case Pick(j) => s.dispatch.Idle? && IsNextQueued(s.db, j)
    case NoNode => s.dispatch.Picked?
    case Place(_) => s.dispatch.Picked?
    case Assign => s.dispatch.Placed?
    case MarkJob => s.dispatch.Assigned?
    case MarkTask => s.dispatch.Marked?
    case Report(_) => s.dispatch.Awaiting?
    case CloseTask => s.dispatch.Reported?
    case InsertTask(th, _, _) => th !in s.threads
    case AbandonCreate(th) => th in s.threads && s.threads[th].Creating?
    case QueueJob(th) => th in s.threads && s.threads[th].Creating?
    case InsertDoneJob(th) => th in s.threads && s.threads[th].Creating?
    case CompleteTask(th) => th in s.threads && s.threads[th].Inferred?
    case ResolveTask(th, t, u) => th !in s.threads && t < |s.db.tasks| && s.db.tasks[t].createdBy == Some(u)
    case CancelTaskRow(th) => th in s.threads && s.threads[th].Canceling?
    case ListJobs(th) => th in s.threads && s.threads[th].Listing?
    case CancelJob(th) => th in s.threads && s.threads[th].Sweeping? && s.threads[th].todo != []
    case AnswerCancel(th) => th in s.threads && s.threads[th].Sweeping? && s.threads[th].todo == []
    case GetTask(th, req) => th !in s.threads && req.task < |s.db.tasks| && req.holder != ""
    case ReadPlan(th) => th in s.threads && s.threads[th].ReadingPlan?
    case ListDeps(th) => th in s.threads && s.threads[th].ListingDeps?
    case ReadDep(th) => th in s.threads && s.threads[th].ReadingDeps?
    case Choose(th, l) =>
      && th in s.threads && s.threads[th].Choosing?
      && (s.threads[th].req.key.Some? ==> l == s.threads[th].req.key.value)
    case Look(th) => th in s.threads && s.threads[th].Looking?
    case Compare(th) => th in s.threads && s.threads[th].Comparing?
    case Acquire(th) => th in s.threads && s.threads[th].Acquiring?
    case Release(_, _) => true
  }

  function Go(s: State, th: ThreadId, next: Thread): State {
    s.(threads := s.threads[th := next])
  }

  function End(s: State, th: ThreadId): State {
    s.(threads := s.threads - {th})
  }

  function Log(s: State, e: Event): State {
    s.(hist := s.hist.(log := s.hist.log + [e]))
  }

  predicate BeingCreated(s: State, t: TaskId) {
    exists th :: th in s.threads && s.threads[th] == Creating(t)
  }

  function JobResult(ok: bool): JobStatus {
    if ok then JobCompleted else JobFailed
  }

  function TaskResult(ok: bool): TaskStatus {
    if ok then Completed else Failed
  }

  function UpdateTaskOfJob(db: Db, j: JobId, status: TaskStatus): Db {
    if j < |db.jobs| then UpdateTaskStatus(db, db.jobs[j].task, status) else db
  }

  function RowOf(db: Db, t: TaskId): Option<Lease> {
    if t in db.leases then Some(db.leases[t]) else None
  }

  predicate Matches(row: Option<Lease>, holder: string, lease: LeaseId) {
    row.Some? && row.value.holder == Some(holder) && row.value.id == lease && row.value.expiresAt.Some?
  }

  predicate IsDispatch(a: Action) {
    a.Pick? || a.NoNode? || a.Place? || a.Assign? || a.MarkJob? || a.MarkTask? || a.Report? || a.CloseTask?
  }

  predicate IsTaskHandler(a: Action) {
    || a.InsertTask? || a.AbandonCreate? || a.QueueJob? || a.InsertDoneJob? || a.CompleteTask?
    || a.ResolveTask? || a.CancelTaskRow? || a.ListJobs? || a.CancelJob? || a.AnswerCancel?
  }

  predicate IsWorkflow(a: Action) {
    || a.GetTask? || a.ReadPlan? || a.ListDeps? || a.ReadDep? || a.Choose?
    || a.Look? || a.Compare? || a.Acquire? || a.Release?
  }

  function ApplyDispatch(s: State, a: Action): State
    requires Enabled(s, a)
    requires IsDispatch(a)
  {
    match a
    case Pick(j) => s.(dispatch := Picked(j))
    case NoNode => s.(dispatch := Idle)
    case Place(n) => s.(dispatch := Placed(s.dispatch.job, n))
    case Assign =>
      s.(db := AssignJobToNode(s.db, s.dispatch.job, s.dispatch.node),
         dispatch := Assigned(s.dispatch.job),
         hist := s.hist.(dispatched := s.hist.dispatched + [s.dispatch.job]))
    case MarkJob =>
      s.(db := UpdateJobStatus(s.db, s.dispatch.job, JobRunning), dispatch := Marked(s.dispatch.job))
    case MarkTask =>
      s.(db := UpdateTaskOfJob(s.db, s.dispatch.job, Running), dispatch := Awaiting(s.dispatch.job))
    case Report(ok) =>
      s.(db := UpdateJobStatus(s.db, s.dispatch.job, JobResult(ok)), dispatch := Reported(s.dispatch.job, ok))
    case CloseTask =>
      s.(db := UpdateTaskOfJob(s.db, s.dispatch.job, TaskResult(s.dispatch.ok)), dispatch := Idle)
  }

  function ApplyTask(s: State, a: Action): State
    requires Enabled(s, a)
    requires IsTaskHandler(a)
  {
    match a
    case InsertTask(th, user, name) =>
      Go(s.(db := CreateTask(s.db, user, name)), th, Creating(|s.db.tasks|))
    case AbandonCreate(th) => End(s, th)
    case QueueJob(th) =>
      var t := s.threads[th].task;
      End(s.(db := CreateJob(s.db, t, JobQueued),
             hist := s.hist.(answered := s.hist.answered[t := |s.db.jobs|])), th)
    case InsertDoneJob(th) =>
      var t := s.threads[th].task;
      Go(s.(db := CreateJob(s.db, t, JobCompleted)), th, Inferred(t, |s.db.jobs|))
    case CompleteTask(th) =>
      var t := s.threads[th].task;
      End(s.(db := UpdateTaskStatus(s.db, t, Completed),
             hist := s.hist.(answered := s.hist.answered[t := s.threads[th].job])), th)
    case ResolveTask(th, t, _) => Go(s, th, Canceling(t))
    case CancelTaskRow(th) =>
      var t := s.threads[th].task;
      Go(s.(db := UpdateTaskStatus(s.db, t, Canceled),
            hist := s.hist.(canceled := s.hist.canceled + {t})), th, Listing(t))
    case ListJobs(th) =>
      var t := s.threads[th].task;
      Go(s, th, Sweeping(t, JobsToCancel(s.db.jobs, t, |s.db.jobs|), !BeingCreated(s, t)))
    case CancelJob(th) =>
      var p := s.threads[th];
      Go(s.(db := UpdateJobStatus(s.db, p.todo[0], JobCanceled)), th, p.(todo := p.todo[1..]))
    case AnswerCancel(th) =>
      var p := s.threads[th];
      End(s.(hist := s.hist.(swept := s.hist.swept + if p.settled then {p.task} else {})), th)
  }

  function ApplyWorkflow(s: State, a: Action): State
    requires Enabled(s, a)
    requires IsWorkflow(a)
  {
    match a
    case GetTask(th, req) =>
      var plan := s.db.tasks[req.task].plan;
      Go(s, th, if plan.Some? then ReadingPlan(req, plan.value) else Choosing(req))
    case ReadPlan(th) =>
      var p := s.threads[th];
      if CheckPlan(s.db, p.plan, p.req.byPMA) == Allowed then Go(s, th, ListingDeps(p.req)) else End(s, th)
    case ListDeps(th) =>
      var p := s.threads[th];
      Go(s, th, ReadingDeps(p.req, DependenciesOf(s.db, p.req.task)))
    case ReadDep(th) =>
      var p := s.threads[th];
      if p.unread == [] then Go(s, th, Choosing(p.req))
      else if CheckDependency(s.db, p.unread[0]) == Allowed then Go(s, th, p.(unread := p.unread[1..]))
      else End(s, th)
    case Choose(th, l) =>
      var p := s.threads[th];
      Go(s, th, Looking(p.req, l, s.clock + LeaseTTL(p.req)))
    case Look(th) =>
      var p := s.threads[th];
      Go(s, th, Comparing(p.req, p.lease, p.expiresAt, RowOf(s.db, p.req.task), |s.hist.log|))
    case Compare(th) =>
      var p := s.threads[th];
      if Matches(p.row, p.req.holder, p.lease) && p.row.value.expiresAt.value > s.clock
      then Log(End(s, th),
               AlreadyRunning(p.req.task, p.req.holder, p.lease, s.clock, p.row.value.expiresAt.value, p.since))
      else Go(s, th, Acquiring(p.req, p.lease, p.expiresAt))
    case Acquire(th) =>
      var p := s.threads[th];
      var (db', r) := AcquireLease(s.db, p.req.task, p.lease, p.req.holder, p.expiresAt, s.clock);
      var s' := End(s.(db := db'), th);
      if r.Acquired? && r.lease.expiresAt.Some?
      then Log(s', Started(p.req.task, p.req.holder, p.lease, s.clock, r.lease.expiresAt.value, |s.hist.log|))
      else s'
    case Release(t, l) =>
      Log(s.(db := ReleaseLease(s.db, t, l)), Released(t, l))
  }

  function Apply(s: State, a: Action): State
    requires Enabled(s, a)
  {
    if a.Tick? then s.(clock := s.clock + a.elapsed)
    else if a.EditPlan? then s.(db := s.db.(plans := s.db.plans[a.plan := a.row]))
    else if IsDispatch(a) then ApplyDispatch(s, a)
    else if IsTaskHandler(a) then ApplyTask(s, a)
    else ApplyWorkflow(s, a)
  }

  /** Taking `a` in `s` leads to `s'`. */
  predicate Step(s: State, a: Action, s': State) {
    Enabled(s, a) && s' == Apply(s, a)
  }

  /** Nothing is running and nothing has been answered yet; the tables may already hold rows. */
  predicate Init(s: State) {
    s.dispatch == Idle && s.threads == map[] && s.hist == History(map[], {}, {}, [], [])
  }

  /** The states passed through when the actions are taken one after the other. */
  predicate IsRun(states: seq<State>, acts: seq<Action>) {
    && |states| == |acts| + 1
    && forall i {:trigger acts[i]} :: 0 <= i < |acts| ==> Step(states[i], acts[i], states[i + 1])
  }

  lemma Extend(states: seq<State>, acts: seq<Action>, a: Action) returns (states': seq<State>, acts': seq<Action>)
    requires IsRun(states, acts) && Enabled(states[|acts|], a)
    ensures states' == states + [Apply(states[|acts|], a)] && acts' == acts + [a]
    ensures IsRun(states', acts')
  {
    states', acts' := states + [Apply(states[|acts|], a)], acts + [a];
  }

  lemma PrependStep(s: State, a: Action, states: seq<State>, acts: seq<Action>)
    requires Enabled(s, a) && IsRun(states, acts) && states[0] == Apply(s, a)
    ensures IsRun([s] + states, [a] + acts)
  {
  }

  lemma JoinRuns(states: seq<State>, acts: seq<Action>, states': seq<State>, acts': seq<Action>)
    requires IsRun(states, acts) && IsRun(states', acts') && states'[0] == states[|acts|]
    ensures IsRun(states + states'[1..], acts + acts')
    ensures (states + states'[1..])[0] == states[0]
    ensures (states + states'[1..])[|acts + acts'|] == states'[|acts'|]
  {
    var ss, aa := states + states'[1..], acts + acts';
    forall i {:trigger aa[i]} | 0 <= i < |aa|
      ensures Step(ss[i], aa[i], ss[i + 1])
    {
      if i < |acts| {
        assert aa[i] == acts[i] && ss[i] == states[i] && ss[i + 1] == states[i + 1];
      } else {
        var k := i - |acts|;
        assert aa[i] == acts'[k] && ss[i] == states'[k] && ss[i + 1] == states'[k + 1];
      }
    }
  }

  /** Only the last position of a handler counts, and ending a handler forgets it. */
  lemma GoAgain(s: State, th: ThreadId, p: Thread, q: Thread)
    ensures Go(Go(s, th, p), th, q) == Go(s, th, q)
    ensures th !in s.threads ==> End(Go(s, th, p), th) == s
  {
    assert s.threads[th := p][th := q] == s.threads[th := q];
    assert th !in s.threads ==> s.threads[th := p] - {th} == s.threads;
  }

  // ---------- what every step keeps of the rows ----------

  /** `later` extends `earlier`: no task leaves a terminal status or changes its identity, and no job
      changes its task or goes back to the queue. */
  predicate RowsEvolve(earlier: Db, later: Db) {
    && |earlier.tasks| <= |later.tasks|
    && |earlier.jobs| <= |later.jobs|
    && later.deps == earlier.deps
    && (forall t :: 0 <= t < |earlier.tasks| ==>
          && later.tasks[t].createdBy == earlier.tasks[t].createdBy
          && later.tasks[t].summary == earlier.tasks[t].summary
          && later.tasks[t].plan == earlier.tasks[t].plan
          && (earlier.tasks[t].status in {Completed, Failed, Canceled, Superseded} ==> later.tasks[t] == earlier.tasks[t]))
    && (forall j :: 0 <= j < |earlier.jobs| ==>
          && later.jobs[j].task == earlier.jobs[j].task
          && (later.jobs[j].status == JobQueued ==> earlier.jobs[j].status == JobQueued))
  }

  lemma DispatchEvolves(s: State, a: Action)
    requires Enabled(s, a) && IsDispatch(a)
    ensures RowsEvolve(s.db, ApplyDispatch(s, a).db)
  {
  }

  lemma HandlerEvolves(s: State, a: Action)
    requires Enabled(s, a) && IsTaskHandler(a)
    ensures RowsEvolve(s.db, ApplyTask(s, a).db)
  {
  }

  lemma WorkflowKeepsTasks(s: State, a: Action)
    requires Enabled(s, a) && IsWorkflow(a)
    ensures var s' := ApplyWorkflow(s, a);
            s'.db.tasks == s.db.tasks && s'.db.jobs == s.db.jobs && s'.db.deps == s.db.deps && s'.dispatch == s.dispatch
  {
  }

  lemma StepEvolves(s: State, a: Action)
    requires Enabled(s, a)
    ensures RowsEvolve(s.db, Apply(s, a).db)
  {
    if IsDispatch(a) {
      DispatchEvolves(s, a);
    } else if IsTaskHandler(a) {
      HandlerEvolves(s, a);
    } else if IsWorkflow(a) {
      WorkflowKeepsTasks(s, a);
    }
  }

  lemma EvolveTransitive(a: Db, b: Db, c: Db)
    requires RowsEvolve(a, b) && RowsEvolve(b, c)
    ensures RowsEvolve(a, c)
  {
  }

  /** Over a whole run: a task that is terminal stays exactly as it is, and nothing is requeued. */
  lemma {:induction false} RunEvolves(states: seq<State>, acts: seq<Action>, i: nat, k: nat)
    requires IsRun(states, acts)
    requires i <= k < |states|
    ensures RowsEvolve(states[i].db, states[k].db)
    decreases k
  {
    if i < k {
      RunEvolves(states, acts, i, k - 1);
      StepEvolves(states[k - 1], acts[k - 1]);
      EvolveTransitive(states[i].db, states[k - 1].db, states[k].db);
    }
  }
}
