/** Tasks and jobs under interleaving: who may run a job, when task and job agree, and what a
    finished cancel leaves behind. */
module Lifecycle {
  import opened Models
  import opened Tables
  import opened Orchestrator

  /** RunOnce has assigned `j` and has not yet reported its result. */
  predicate InFlight(d: Dispatch, j: JobId) {
    (d.Assigned? || d.Marked? || d.Awaiting?) && d.job == j
  }

  predicate Holds(d: Dispatch, j: JobId) {
    !d.Idle? && d.job == j
  }

  /** How a task and its only job stand to each other, given where the dispatcher is. */
  predicate Agree(task: TaskStatus, job: JobStatus, d: Dispatch, j: JobId) {
    if !Holds(d, j) then
      || (task == Pending && job == JobQueued)
      || (task == Completed && job == JobCompleted)
      || (task == Failed && job == JobFailed)
    else match d
      case Picked(_) => task == Pending && job == JobQueued
      case Placed(_, _) => task == Pending && job == JobQueued
      case Assigned(_) => task == Pending && job == JobRunning
      case Marked(_) => task == Pending && job == JobRunning
      case Awaiting(_) => task == Running && job == JobRunning
      case Reported(_, ok) => task == Running && job == JobResult(ok)
      case Idle => false
  }

  predicate OnlyJob(db: Db, t: TaskId, j: JobId) {
    && j < |db.jobs| && db.jobs[j].task == t
    && forall k :: 0 <= k < |db.jobs| && db.jobs[k].task == t ==> k == j
  }

  predicate NoJob(db: Db, t: TaskId) {
    forall k :: 0 <= k < |db.jobs| ==> db.jobs[k].task != t
  }

  predicate Terminal(db: Db, t: TaskId) {
    t < |db.tasks| && db.tasks[t].status in {Completed, Failed, Canceled, Superseded}
  }

  /** Every queued job of `t` is in `todo`. */
  predicate QueuedWithin(db: Db, t: TaskId, todo: seq<JobId>) {
    forall k :: 0 <= k < |db.jobs| && db.jobs[k].task == t && db.jobs[k].status == JobQueued ==> k in todo
  }

  // ---------- the invariant ----------

  predicate RowsOk(db: Db) {
    && (forall t :: 0 <= t < |db.tasks| ==> db.tasks[t].closed == IsTerminal(db.tasks[t].status))
    && (forall j :: 0 <= j < |db.jobs| ==> db.jobs[j].task < |db.tasks|)
  }

  predicate DispatchOk(db: Db, d: Dispatch) {
    && (forall j :: 0 <= j < |db.jobs| && db.jobs[j].status == JobRunning ==> InFlight(d, j))
    && (!d.Idle? ==> d.job < |db.jobs|)
    && (d.Assigned? || d.Marked? || d.Awaiting? || d.Reported? ==> db.jobs[d.job].status != JobQueued)
  }

  predicate CreatorOk(s: State, t: TaskId) {
    && t < |s.db.tasks| && t !in s.hist.answered
    && (t !in s.hist.canceled ==> s.db.tasks[t].status == Pending)
  }

  predicate ThreadOk(s: State, p: Thread) {
    match p
    case Creating(t) => CreatorOk(s, t) && NoJob(s.db, t) && t !in s.hist.swept
    case Inferred(t, j) =>
      && CreatorOk(s, t) && OnlyJob(s.db, t, j) && !Holds(s.dispatch, j)
      && s.db.jobs[j].status != JobQueued
      && (t !in s.hist.canceled ==> s.db.jobs[j].status == JobCompleted)
    case Canceling(t) => t < |s.db.tasks|
    case Listing(t) => Terminal(s.db, t) && t in s.hist.canceled
    case Sweeping(t, todo, settled) =>
      && Terminal(s.db, t) && t in s.hist.canceled
      && (forall j :: j in todo ==> j < |s.db.jobs| && s.db.jobs[j].task == t)
      && (settled ==> QueuedWithin(s.db, t, todo) && !BeingCreated(s, t))
    case _ => true
  }

  predicate IsCreator(p: Thread) {
    p.Creating? || p.Inferred?
  }

  predicate OneCreator(threads: map<ThreadId, Thread>) {
    forall x, y :: x in threads && y in threads && x != y && IsCreator(threads[x]) && IsCreator(threads[y])
      ==> threads[x].task != threads[y].task
  }

  predicate AnsweredTaskOk(s: State, t: TaskId)
    requires t in s.hist.answered
  {
    var j := s.hist.answered[t];
    && t < |s.db.tasks|
    && OnlyJob(s.db, t, j)
    && (t !in s.hist.canceled ==> Agree(s.db.tasks[t].status, s.db.jobs[j].status, s.dispatch, j))
  }

  predicate AnsweredOk(s: State) {
    forall t :: t in s.hist.answered ==> AnsweredTaskOk(s, t)
  }

  predicate SweptTaskOk(s: State, t: TaskId) {
    Terminal(s.db, t) && QueuedWithin(s.db, t, [])
  }

  predicate SweptOk(s: State) {
    forall t :: t in s.hist.swept ==> SweptTaskOk(s, t)
  }

  /** The part of the invariant that speaks of rows and the dispatcher only. */
  predicate CoreOk(s: State) {
    RowsOk(s.db) && DispatchOk(s.db, s.dispatch)
  }

  predicate Inv(s: State) {
    && CoreOk(s)
    && (forall th :: th in s.threads ==> ThreadOk(s, s.threads[th]))
    && OneCreator(s.threads)
    && AnsweredOk(s)
    && SweptOk(s)
  }

  // ---------- every step keeps it ----------

  lemma DispatchKeepsRows(s: State, a: Action)
    requires CoreOk(s) && Enabled(s, a) && IsDispatch(a)
    ensures CoreOk(ApplyDispatch(s, a))
  {
  }

  lemma DispatchKeepsThread(s: State, a: Action, p: Thread)
    requires CoreOk(s) && Enabled(s, a) && IsDispatch(a)
    requires ThreadOk(s, p)
    ensures ThreadOk(ApplyDispatch(s, a), p)
  {
  }

  lemma DispatchKeepsAnswered(s: State, a: Action, t: TaskId)
    requires CoreOk(s) && Enabled(s, a) && IsDispatch(a)
    requires t in s.hist.answered && AnsweredTaskOk(s, t)
    ensures AnsweredTaskOk(ApplyDispatch(s, a), t)
  {
  }

  lemma DispatchKeepsSwept(s: State, a: Action, t: TaskId)
    requires CoreOk(s) && Enabled(s, a) && IsDispatch(a)
    requires SweptTaskOk(s, t)
    ensures SweptTaskOk(ApplyDispatch(s, a), t)
  {
  }

  lemma NewRowKeepsRows(s: State, a: Action)
    requires Inv(s) && Enabled(s, a) && (a.InsertTask? || a.QueueJob? || a.InsertDoneJob?)
    ensures CoreOk(ApplyTask(s, a))
  {
    if a.th in s.threads {
      assert ThreadOk(s, s.threads[a.th]);
    }
  }

  lemma HandlerKeepsRows(s: State, a: Action)
    requires Inv(s) && Enabled(s, a) && IsTaskHandler(a)
    ensures CoreOk(ApplyTask(s, a))
  {
    if a.InsertTask? || a.QueueJob? || a.InsertDoneJob? {
      NewRowKeepsRows(s, a);
    } else if a.th in s.threads {
      assert ThreadOk(s, s.threads[a.th]);
    }
  }

  lemma CreateKeepsThread(s: State, a: Action, x: ThreadId)
    requires Inv(s) && Enabled(s, a)
    requires a.InsertTask? || a.AbandonCreate? || a.CompleteTask?
    requires x in s.threads && x != a.th
    ensures ThreadOk(ApplyTask(s, a), s.threads[x])
  {
    assert ThreadOk(s, s.threads[x]);
  }

  lemma NewJobKeepsThread(s: State, a: Action, x: ThreadId)
    requires Inv(s) && Enabled(s, a)
    requires a.QueueJob? || a.InsertDoneJob?
    requires x in s.threads && x != a.th
    ensures ThreadOk(ApplyTask(s, a), s.threads[x])
  {
    assert ThreadOk(s, s.threads[x]);
  }

  lemma CancelRowKeepsThread(s: State, a: Action, x: ThreadId)
    requires Inv(s) && Enabled(s, a) && a.CancelTaskRow?
    requires x in s.threads && x != a.th
    ensures ThreadOk(ApplyTask(s, a), s.threads[x])
  {
    assert ThreadOk(s, s.threads[x]);
  }

  lemma CancelJobKeepsThread(s: State, a: Action, x: ThreadId)
    requires Inv(s) && Enabled(s, a) && a.CancelJob?
    requires x in s.threads && x != a.th
    ensures ThreadOk(ApplyTask(s, a), s.threads[x])
  {
    assert ThreadOk(s, s.threads[x]);
    assert ThreadOk(s, s.threads[a.th]);
  }

  lemma CancelMovesKeepThread(s: State, a: Action, x: ThreadId)
    requires Inv(s) && Enabled(s, a)
    requires a.ResolveTask? || a.ListJobs? || a.AnswerCancel?
    requires x in s.threads && x != a.th
    ensures ThreadOk(ApplyTask(s, a), s.threads[x])
  {
    assert ThreadOk(s, s.threads[x]);
    if a.AnswerCancel? {
      assert ThreadOk(s, s.threads[a.th]);
    }
  }

  lemma HandlerMoves(s: State, a: Action)
    requires Inv(s) && Enabled(s, a) && IsTaskHandler(a)
    requires a.th in ApplyTask(s, a).threads
    ensures ThreadOk(ApplyTask(s, a), ApplyTask(s, a).threads[a.th])
  {
    if a.CancelJob? {
      var todo := s.threads[a.th].todo;
      assert forall j :: j in todo <==> j == todo[0] || j in todo[1..];
    }
  }

  lemma HandlerKeepsOneCreator(s: State, a: Action)
    requires Inv(s) && Enabled(s, a) && IsTaskHandler(a)
    ensures OneCreator(ApplyTask(s, a).threads)
  {
  }

  lemma CreatorKeepsAnswered(s: State, a: Action, t: TaskId)
    requires Inv(s) && Enabled(s, a)
    requires a.InsertTask? || a.AbandonCreate? || a.QueueJob? || a.InsertDoneJob? || a.CompleteTask?
    requires t in s.hist.answered
    ensures t in ApplyTask(s, a).hist.answered && AnsweredTaskOk(ApplyTask(s, a), t)
  {
    assert AnsweredTaskOk(s, t);
    if a.th in s.threads {
      assert ThreadOk(s, s.threads[a.th]);
    }
  }

  lemma CancelKeepsAnswered(s: State, a: Action, t: TaskId)
    requires Inv(s) && Enabled(s, a)
    requires a.ResolveTask? || a.CancelTaskRow? || a.ListJobs? || a.CancelJob? || a.AnswerCancel?
    requires t in s.hist.answered
    ensures t in ApplyTask(s, a).hist.answered && AnsweredTaskOk(ApplyTask(s, a), t)
  {
    assert AnsweredTaskOk(s, t);
    if a.th in s.threads {
      assert ThreadOk(s, s.threads[a.th]);
    }
  }

  lemma HandlerKeepsAnswered(s: State, a: Action, t: TaskId)
    requires Inv(s) && Enabled(s, a) && IsTaskHandler(a)
    requires t in s.hist.answered
    ensures t in ApplyTask(s, a).hist.answered && AnsweredTaskOk(ApplyTask(s, a), t)
  {
    if a.ResolveTask? || a.CancelTaskRow? || a.ListJobs? || a.CancelJob? || a.AnswerCancel? {
      CancelKeepsAnswered(s, a, t);
    } else {
      CreatorKeepsAnswered(s, a, t);
    }
  }

  lemma HandlerAnswers(s: State, a: Action, t: TaskId)
    requires Inv(s) && Enabled(s, a) && IsTaskHandler(a)
    requires t in ApplyTask(s, a).hist.answered && t !in s.hist.answered
    ensures AnsweredTaskOk(ApplyTask(s, a), t)
  {
    assert ThreadOk(s, s.threads[a.th]);
  }

  lemma HandlerKeepsSwept(s: State, a: Action, t: TaskId)
    requires Inv(s) && Enabled(s, a) && IsTaskHandler(a)
    requires t in ApplyTask(s, a).hist.swept
    ensures SweptTaskOk(ApplyTask(s, a), t)
  {
    if a.th in s.threads {
      assert ThreadOk(s, s.threads[a.th]);
    }
  }

  predicate IsOther(a: Action) {
    a.Tick? || a.EditPlan? || IsWorkflow(a)
  }

  /** A step that touches only workflow handlers, leases, plans, the clock or the log. */
  predicate SameForTasks(s: State, s': State) {
    && s'.db.tasks == s.db.tasks && s'.db.jobs == s.db.jobs && s'.dispatch == s.dispatch
    && s'.hist.answered == s.hist.answered && s'.hist.canceled == s.hist.canceled && s'.hist.swept == s.hist.swept
    && (forall x :: x in s'.threads && IsTaskThread(s'.threads[x]) ==> x in s.threads && s'.threads[x] == s.threads[x])
  }

  predicate IsTaskThread(p: Thread) {
    IsCreator(p) || p.Canceling? || p.Listing? || p.Sweeping?
  }

  lemma FrameKeepsThread(s: State, s': State, p: Thread)
    requires SameForTasks(s, s')
    requires ThreadOk(s, p)
    ensures ThreadOk(s', p)
  {
  }

  lemma FrameKeepsInv(s: State, s': State)
    requires Inv(s) && SameForTasks(s, s')
    ensures Inv(s')
  {
    forall x | x in s'.threads
      ensures ThreadOk(s', s'.threads[x])
    {
      if IsTaskThread(s'.threads[x]) {
        FrameKeepsThread(s, s', s'.threads[x]);
      }
    }
  }

  lemma OtherKeepsInv(s: State, a: Action)
    requires Inv(s) && Enabled(s, a) && IsOther(a)
    ensures Inv(Apply(s, a))
  {
    OtherIsFramed(s, a);
    FrameKeepsInv(s, Apply(s, a));
  }

  lemma OtherIsFramed(s: State, a: Action)
    requires Enabled(s, a) && IsOther(a)
    ensures SameForTasks(s, Apply(s, a))
  {
    if IsWorkflow(a) {
      WorkflowIsFramed(s, a);
    }
  }

  lemma WorkflowIsFramed(s: State, a: Action)
    requires Enabled(s, a) && IsWorkflow(a)
    ensures SameForTasks(s, ApplyWorkflow(s, a))
  {
    WorkflowKeepsTasks(s, a);
    WorkflowMovesItself(s, a);
  }

  lemma WorkflowMovesItself(s: State, a: Action)
    requires Enabled(s, a) && IsWorkflow(a)
    ensures var s' := ApplyWorkflow(s, a);
            && (forall x :: x in s'.threads && IsTaskThread(s'.threads[x]) ==> x in s.threads && s'.threads[x] == s.threads[x])
            && s'.hist.(log := s.hist.log) == s.hist
  {
  }

  lemma StepKeepsInv(s: State, a: Action)
    requires Inv(s) && Enabled(s, a)
    ensures Inv(Apply(s, a))
  {
    if IsOther(a) {
      OtherKeepsInv(s, a);
    } else if IsDispatch(a) {
      DispatchKeepsInv(s, a);
    } else {
      HandlerKeepsInv(s, a);
    }
  }

  lemma DispatchKeepsInv(s: State, a: Action)
    requires Inv(s) && Enabled(s, a) && IsDispatch(a)
    ensures Inv(Apply(s, a))
  {
    var s' := ApplyDispatch(s, a);
    assert Apply(s, a) == s' && s'.threads == s.threads;
    DispatchKeepsRows(s, a);
    forall t | t in s'.hist.answered
      ensures AnsweredTaskOk(s', t)
    {
      DispatchKeepsAnswered(s, a, t);
    }
    forall t | t in s'.hist.swept
      ensures SweptTaskOk(s', t)
    {
      DispatchKeepsSwept(s, a, t);
    }
    forall x | x in s.threads
      ensures ThreadOk(s', s.threads[x])
    {
      DispatchKeepsThread(s, a, s.threads[x]);
    }
  }

  lemma HandlerKeepsThreads(s: State, a: Action, x: ThreadId)
    requires Inv(s) && Enabled(s, a) && IsTaskHandler(a)
    requires x in ApplyTask(s, a).threads
    ensures ThreadOk(ApplyTask(s, a), ApplyTask(s, a).threads[x])
  {
    if x == a.th {
      HandlerMoves(s, a);
    } else if a.InsertTask? || a.AbandonCreate? || a.CompleteTask? {
      CreateKeepsThread(s, a, x);
    } else if a.QueueJob? || a.InsertDoneJob? {
      NewJobKeepsThread(s, a, x);
    } else if a.CancelTaskRow? {
      CancelRowKeepsThread(s, a, x);
    } else if a.CancelJob? {
      CancelJobKeepsThread(s, a, x);
    } else {
      CancelMovesKeepThread(s, a, x);
    }
  }

  lemma HandlerKeepsInv(s: State, a: Action)
    requires Inv(s) && Enabled(s, a) && IsTaskHandler(a)
    ensures Inv(Apply(s, a))
  {
    var s' := ApplyTask(s, a);
    assert Apply(s, a) == s';
    HandlerKeepsRows(s, a);
    HandlerKeepsOneCreator(s, a);
    forall t | t in s'.hist.answered
      ensures AnsweredTaskOk(s', t)
    {
      if t in s.hist.answered {
        HandlerKeepsAnswered(s, a, t);
      } else {
        HandlerAnswers(s, a, t);
      }
    }
    forall t | t in s'.hist.swept
      ensures SweptTaskOk(s', t)
    {
      HandlerKeepsSwept(s, a, t);
    }
    forall x | x in s'.threads
      ensures ThreadOk(s', s'.threads[x])
    {
      HandlerKeepsThreads(s, a, x);
    }
  }

  // ---------- over whole runs ----------

  /** Tables a run may start from: closed mirrors terminal, and no job is left running. */
  predicate CleanStart(s: State) {
    Init(s) && RowsOk(s.db) && forall j :: 0 <= j < |s.db.jobs| ==> s.db.jobs[j].status != JobRunning
  }

  lemma {:induction false} RunKeepsInv(states: seq<State>, acts: seq<Action>, i: nat)
    requires IsRun(states, acts) && Inv(states[0])
    requires i < |states|
    ensures Inv(states[i])
  {
    if i > 0 {
      RunKeepsInv(states, acts, i - 1);
      StepKeepsInv(states[i - 1], acts[i - 1]);
    }
  }

  /** A job is running only while an in-flight RunOnce owns it. */
  lemma RunningIsOwned(states: seq<State>, acts: seq<Action>, i: nat, j: JobId)
    requires IsRun(states, acts) && CleanStart(states[0])
    requires i < |states| && j < |states[i].db.jobs|
    requires states[i].db.jobs[j].status == JobRunning
    ensures InFlight(states[i].dispatch, j)
  {
    RunKeepsInv(states, acts, i);
  }

  /** Task and job agree at rest: when the dispatcher is idle, a task answered with success and never
      canceled has exactly one job, and the two are queued, completed or failed together. */
  lemma TaskAndJobAgreeAtRest(states: seq<State>, acts: seq<Action>, i: nat, t: TaskId)
    requires IsRun(states, acts) && CleanStart(states[0])
    requires i < |states|
    requires t in states[i].hist.answered && t !in states[i].hist.canceled
    requires states[i].dispatch == Idle
    ensures var db := states[i].db; var j := states[i].hist.answered[t];
            && t < |db.tasks| && OnlyJob(db, t, j)
            && (|| (db.tasks[t].status == Pending && db.jobs[j].status == JobQueued)
                || (db.tasks[t].status == Completed && db.jobs[j].status == JobCompleted)
                || (db.tasks[t].status == Failed && db.jobs[j].status == JobFailed))
  {
    RunKeepsInv(states, acts, i);
  }

  /** Some job of `t` is queued or running. */
  predicate LiveWork(db: Db, t: TaskId) {
    exists j :: 0 <= j < |db.jobs| && db.jobs[j].task == t && db.jobs[j].status in {JobQueued, JobRunning}
  }

  /** While the worker is at work on the job of a task answered with success and not canceled, both are
      running. */
  lemma AwaitingMeansRunning(states: seq<State>, acts: seq<Action>, i: nat, t: TaskId)
    requires IsRun(states, acts) && CleanStart(states[0])
    requires i < |states|
    requires t in states[i].hist.answered && t !in states[i].hist.canceled
    requires states[i].dispatch == Awaiting(states[i].hist.answered[t])
    ensures t < |states[i].db.tasks| && states[i].db.tasks[t].status == Running
    ensures var j := states[i].hist.answered[t]; j < |states[i].db.jobs| && states[i].db.jobs[j].status == JobRunning
  {
    RunKeepsInv(states, acts, i);
  }

  /** What a cancel lists: exactly the jobs of its task that are not completed, failed or canceled. */
  lemma CancelListsExactly(s: State, th: ThreadId, t: TaskId, j: JobId)
    requires th in s.threads && s.threads[th] == Listing(t)
    ensures var p := Apply(s, ListJobs(th)).threads[th];
            && p.Sweeping? && p.task == t
            && (j in p.todo <==>
                  j < |s.db.jobs| && s.db.jobs[j].task == t && s.db.jobs[j].status !in {JobCompleted, JobFailed, JobCanceled})
  {
  }

  /** A task whose cancel finished settled is terminal, and whenever the dispatcher is idle none of its
      jobs is queued or running. */
  lemma SweptHasNoLiveWork(s: State, t: TaskId)
    requires Inv(s) && t in s.hist.swept && s.dispatch == Idle
    ensures Terminal(s.db, t) && !LiveWork(s.db, t)
  {
    assert SweptTaskOk(s, t);
  }

  /** Once no handler is creating an existing task, none ever is again. */
  lemma {:induction false} CreationEnds(states: seq<State>, acts: seq<Action>, i: nat, k: nat, t: TaskId)
    requires IsRun(states, acts)
    requires i <= k < |states|
    requires t < |states[i].db.tasks| && !BeingCreated(states[i], t)
    ensures !BeingCreated(states[k], t)
    decreases k
  {
    if i < k {
      CreationEnds(states, acts, i, k - 1, t);
      RunEvolves(states, acts, i, k - 1);
      StepCreatesNewTasksOnly(states[k - 1], acts[k - 1], t);
    }
  }

  lemma StepCreatesNewTasksOnly(s: State, a: Action, t: TaskId)
    requires Enabled(s, a)
    requires t < |s.db.tasks| && !BeingCreated(s, t)
    ensures !BeingCreated(Apply(s, a), t)
  {
    var s' := Apply(s, a);
    forall x | x in s'.threads
      ensures s'.threads[x] != Creating(t)
    {
      assert x in s.threads ==> s.threads[x] != Creating(t);
    }
  }

  /** A task whose creation was answered is not being created at that time or later. */
  lemma AnsweredIsNotBeingCreated(states: seq<State>, acts: seq<Action>, i: nat, k: nat, t: TaskId)
    requires IsRun(states, acts) && CleanStart(states[0])
    requires i <= k < |states| && t in states[i].hist.answered
    ensures !BeingCreated(states[k], t)
  {
    RunKeepsInv(states, acts, i);
    assert AnsweredTaskOk(states[i], t);
    assert !BeingCreated(states[i], t);
    CreationEnds(states, acts, i, k, t);
  }

  /** The cancel in `th` has not been answered yet and will miss no job. */
  predicate Settling(s: State, th: ThreadId, t: TaskId) {
    && t < |s.db.tasks| && th in s.threads
    && if s.threads[th].Sweeping? then s.threads[th].task == t && s.threads[th].settled
       else s.threads[th] == Listing(t) && !BeingCreated(s, t)
  }

  lemma ListingKeepsSettling(s: State, a: Action, th: ThreadId, t: TaskId)
    requires Enabled(s, a) && Settling(s, th, t) && s.threads[th].Listing?
    ensures Settling(Apply(s, a), th, t)
  {
    StepEvolves(s, a);
    StepCreatesNewTasksOnly(s, a, t);
    ListingMoves(s, a, th);
  }

  lemma ListingMoves(s: State, a: Action, th: ThreadId)
    requires Enabled(s, a) && th in s.threads && s.threads[th].Listing?
    ensures th in Apply(s, a).threads
    ensures a != ListJobs(th) ==> Apply(s, a).threads[th] == s.threads[th]
    ensures a == ListJobs(th) ==>
              Apply(s, a).threads[th] == Sweeping(s.threads[th].task, JobsToCancel(s.db.jobs, s.threads[th].task, |s.db.jobs|), !BeingCreated(s, s.threads[th].task))
  {
  }

  lemma SweepingKeepsSettling(s: State, a: Action, th: ThreadId, t: TaskId)
    requires Enabled(s, a) && Settling(s, th, t) && s.threads[th].Sweeping?
    ensures a != AnswerCancel(th) ==> Settling(Apply(s, a), th, t)
    ensures a == AnswerCancel(th) ==> t in Apply(s, a).hist.swept
  {
    StepEvolves(s, a);
    if a != AnswerCancel(th) {
      SweepingMoves(s, a, th);
    }
  }

  lemma SweepingMoves(s: State, a: Action, th: ThreadId)
    requires Enabled(s, a) && th in s.threads && s.threads[th].Sweeping? && a != AnswerCancel(th)
    ensures th in Apply(s, a).threads && Apply(s, a).threads[th].Sweeping?
    ensures Apply(s, a).threads[th].task == s.threads[th].task && Apply(s, a).threads[th].settled == s.threads[th].settled
  {
  }

  lemma StepKeepsSwept(s: State, a: Action)
    requires Enabled(s, a)
    ensures s.hist.swept <= Apply(s, a).hist.swept
  {
  }

  /** Such a cancel is not answered without its task being recorded as swept. */
  lemma {:induction false} SettlingIsSwept(states: seq<State>, acts: seq<Action>, k: nat, n: nat, th: ThreadId, t: TaskId)
    requires IsRun(states, acts) && k <= n < |states| && Settling(states[k], th, t)
    ensures t in states[n].hist.swept || (AnswerCancel(th) !in acts[k..n] && Settling(states[n], th, t))
    decreases n
  {
    if k < n {
      var s, a := states[n - 1], acts[n - 1];
      assert acts[k..n] == acts[k..n - 1] + [a];
      SettlingIsSwept(states, acts, k, n - 1, th, t);
      StepKeepsSwept(s, a);
      if t !in s.hist.swept {
        if s.threads[th].Sweeping? {
          SweepingKeepsSettling(s, a, th, t);
        } else {
          ListingKeepsSettling(s, a, th, t);
        }
      }
    }
  }

  /** Canceling leaves no live work. Let a task's creation be answered by state `i`, let a cancel of it be
      about to list the jobs in state `k` and be answered in step `n`, with anything in between. From then
      on, whenever the dispatcher is idle, the task is terminal and none of its jobs is queued or running,
      although job writes are unguarded and the dispatcher may pick a job up while it is being canceled. */
  lemma CancelLeavesNoLiveWork(states: seq<State>, acts: seq<Action>, i: nat, k: nat, n: nat, m: nat, th: ThreadId, t: TaskId)
    requires IsRun(states, acts) && CleanStart(states[0])
    requires i <= k <= n < m < |states|
    requires t in states[i].hist.answered
    requires th in states[k].threads && states[k].threads[th] == Listing(t)
    requires acts[n] == AnswerCancel(th)
    requires states[m].dispatch == Idle
    ensures Terminal(states[m].db, t) && !LiveWork(states[m].db, t)
  {
    AnsweredIsNotBeingCreated(states, acts, i, k, t);
    RunKeepsInv(states, acts, k);
    assert ThreadOk(states[k], Listing(t));
    SettlingIsSwept(states, acts, k, m, th, t);
    assert acts[k..m][n - k] == AnswerCancel(th);
    RunKeepsInv(states, acts, m);
    SweptHasNoLiveWork(states[m], t);
  }

  // ---------- only tasks with an owner are canceled ----------

  predicate HasOwner(db: Db, t: TaskId) {
    t < |db.tasks| && db.tasks[t].createdBy.Some?
  }

  predicate CancelsOwned(s: State) {
    && (forall t :: t in s.hist.canceled ==> HasOwner(s.db, t))
    && (forall th :: th in s.threads && s.threads[th].Canceling? ==> HasOwner(s.db, s.threads[th].task))
  }

  lemma OnlyResolveStartsCancel(s: State, a: Action, x: ThreadId)
    requires Enabled(s, a) && x in Apply(s, a).threads && Apply(s, a).threads[x].Canceling?
    ensures || (x in s.threads && Apply(s, a).threads[x] == s.threads[x])
            || (a.ResolveTask? && a.th == x && HasOwner(s.db, a.task) && Apply(s, a).threads[x] == Canceling(a.task))
  {
  }

  lemma OnlyCancelRowRecords(s: State, a: Action)
    requires Enabled(s, a)
    ensures Apply(s, a).hist.canceled == s.hist.canceled + if a.CancelTaskRow? then {s.threads[a.th].task} else {}
  {
  }

  lemma StepCancelsOwned(s: State, a: Action)
    requires CancelsOwned(s) && Enabled(s, a)
    ensures CancelsOwned(Apply(s, a))
  {
    var s' := Apply(s, a);
    StepEvolves(s, a);
    OnlyCancelRowRecords(s, a);
    forall x | x in s'.threads && s'.threads[x].Canceling?
      ensures HasOwner(s'.db, s'.threads[x].task)
    {
      OnlyResolveStartsCancel(s, a, x);
    }
  }

  /** In every run, a task without an owner is never canceled. */
  lemma {:induction false} OnlyOwnedAreCanceled(states: seq<State>, acts: seq<Action>, i: nat)
    requires IsRun(states, acts) && Init(states[0])
    requires i < |states|
    ensures CancelsOwned(states[i])
  {
    if i > 0 {
      OnlyOwnedAreCanceled(states, acts, i - 1);
      StepCancelsOwned(states[i - 1], acts[i - 1]);
    }
  }

  // ---------- exactly when a cancel can leave live work ----------

  /** A continuation of `s` in which the cancel in `th` is answered and the dispatcher comes to rest. */
  predicate CancelEnds(s: State, th: ThreadId, states: seq<State>, acts: seq<Action>) {
    IsRun(states, acts) && states[0] == s && AnswerCancel(th) in acts && states[|acts|].dispatch == Idle
  }

  /** However the run goes on, once the cancel is answered and the dispatcher idle nothing of `t` is live. */
  ghost predicate CancelIsThorough(s: State, th: ThreadId, t: TaskId) {
    forall states: seq<State>, acts: seq<Action> :: CancelEnds(s, th, states, acts) ==>
      Terminal(states[|acts|].db, t) && !LiveWork(states[|acts|].db, t)
  }

  /** The condition is exact. In every reachable state with a cancel about to list the jobs of `t`: every
      continuation leaves no live work if and only if no handler is still creating `t` at that moment. */
  lemma CancelIsThoroughExactly(before: seq<State>, past: seq<Action>, th: ThreadId, t: TaskId)
    requires IsRun(before, past) && CleanStart(before[0])
    requires th in before[|past|].threads && before[|past|].threads[th] == Listing(t)
    ensures CancelIsThorough(before[|past|], th, t) <==> !BeingCreated(before[|past|], t)
  {
    var s := before[|past|];
    RunKeepsInv(before, past, |past|);
    assert ThreadOk(s, Listing(t));
    if BeingCreated(s, t) {
      var states, acts := EarlyCancelLeavesQueuedJob(s, th, t);
      assert CancelEnds(s, th, states, acts);
    } else {
      forall states: seq<State>, acts: seq<Action> | CancelEnds(s, th, states, acts)
        ensures Terminal(states[|acts|].db, t) && !LiveWork(states[|acts|].db, t)
      {
        SettlingIsSwept(states, acts, 0, |acts|, th, t);
        assert acts[0..|acts|] == acts;
        RunKeepsInv(states, acts, |acts|);
        SweptHasNoLiveWork(states[|acts|], t);
      }
    }
  }

  /** From every state in which a cancel is about to list the jobs of a task that is still being created,
      the cancel can be answered with the dispatcher idle and the task left with a queued job. */
  lemma EarlyCancelLeavesQueuedJob(s: State, th: ThreadId, t: TaskId)
    returns (states: seq<State>, acts: seq<Action>)
    requires Inv(s) && th in s.threads && s.threads[th] == Listing(t) && BeingCreated(s, t)
    ensures IsRun(states, acts) && states[0] == s && AnswerCancel(th) in acts
    ensures var f := states[|acts|];
            && f.dispatch == Idle && t in f.hist.answered && Terminal(f.db, t)
            && f.hist.answered[t] < |f.db.jobs| && f.db.jobs[f.hist.answered[t]] == Job(t, None, JobQueued)
            && LiveWork(f.db, t)
  {
    var c :| c in s.threads && s.threads[c] == Creating(t);
    states, acts := DispatchFinishes(s);
    var s1 := states[|acts|];
    assert ThreadOk(s1, Creating(t)) && ThreadOk(s1, Listing(t));
    ListsNothing(s1, th, c, t);
    states, acts := Extend(states, acts, ListJobs(th));
    AnswersUnsettled(states[|acts|], th, c, t);
    states, acts := Extend(states, acts, AnswerCancel(th));
    assert AnswerCancel(th) in acts;
    states, acts := Extend(states, acts, QueueJob(c));
  }

  function StepsToIdle(d: Dispatch): nat {
    match d
    case Idle => 0
    case Picked(_) => 1
    case Placed(_, _) => 5
    case Assigned(_) => 4
    case Marked(_) => 3
    case Awaiting(_) => 2
    case Reported(_, _) => 1
  }

  /** The next step on the shortest way to an idle dispatcher. */
  function TowardsIdle(d: Dispatch): (a: Action)
    requires !d.Idle?
    ensures IsDispatch(a)
    ensures forall s: State :: s.dispatch == d ==> Enabled(s, a)
  {
    match d
    case Picked(_) => NoNode
    case Placed(_, _) => Assign
    case Assigned(_) => MarkJob
    case Marked(_) => MarkTask
    case Awaiting(_) => Report(true)
    case Reported(_, _) => CloseTask
  }

  /** The dispatcher can always finish what it is doing while the handlers stand still. */
  lemma {:induction false} DispatchFinishes(s: State) returns (states: seq<State>, acts: seq<Action>)
    requires Inv(s)
    ensures IsRun(states, acts) && states[0] == s
    ensures var f := states[|acts|]; Inv(f) && f.dispatch == Idle && f.threads == s.threads
    decreases StepsToIdle(s.dispatch)
  {
    states, acts := [s], [];
    if !s.dispatch.Idle? {
      var a := TowardsIdle(s.dispatch);
      StepKeepsInv(s, a);
      var rest, more := DispatchFinishes(Apply(s, a));
      PrependStep(s, a, rest, more);
      states, acts := [s] + rest, [a] + more;
      assert states[|acts|] == rest[|more|];
    }
  }

  lemma {:induction false} NothingToCancel(jobs: seq<Job>, t: TaskId, n: nat)
    requires n <= |jobs|
    requires forall k :: 0 <= k < |jobs| ==> jobs[k].task != t
    ensures JobsToCancel(jobs, t, n) == []
  {
    if n > 0 {
      NothingToCancel(jobs, t, n - 1);
    }
  }

  lemma ListsNothing(s: State, th: ThreadId, c: ThreadId, t: TaskId)
    requires th in s.threads && s.threads[th] == Listing(t) && c in s.threads && s.threads[c] == Creating(t)
    requires NoJob(s.db, t)
    ensures Enabled(s, ListJobs(th)) && Apply(s, ListJobs(th)) == Go(s, th, Sweeping(t, [], false))
  {
    NothingToCancel(s.db.jobs, t, |s.db.jobs|);
    assert BeingCreated(s, t);
  }

  lemma AnswersUnsettled(s: State, th: ThreadId, c: ThreadId, t: TaskId)
    requires th in s.threads && s.threads[th] == Sweeping(t, [], false) && c in s.threads && s.threads[c] == Creating(t)
    ensures Enabled(s, AnswerCancel(th)) && Enabled(Apply(s, AnswerCancel(th)), QueueJob(c))
    ensures var f := Apply(Apply(s, AnswerCancel(th)), QueueJob(c));
            && f.dispatch == s.dispatch && f.db == CreateJob(s.db, t, JobQueued)
            && f.hist.answered == s.hist.answered[t := |s.db.jobs|]
  {
  }

  /** closed always equals "status is terminal". */
  lemma ClosedMeansTerminal(states: seq<State>, acts: seq<Action>, i: nat, t: TaskId)
    requires IsRun(states, acts) && CleanStart(states[0])
    requires i < |states| && t < |states[i].db.tasks|
    ensures states[i].db.tasks[t].closed <==> states[i].db.tasks[t].status in {Completed, Failed, Canceled, Superseded}
  {
    RunKeepsInv(states, acts, i);
  }
}
