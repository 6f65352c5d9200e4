/** The dispatcher serves the queue in creation order: each job is assigned at most once, assignments
    follow creation order, and a queued job waits for a bounded number of dispatches. */
module DispatchOrder {
  import opened Models
  import opened Tables
  import opened Orchestrator

  predicate Queued(db: Db, j: JobId) {
    j < |db.jobs| && db.jobs[j].status == JobQueued
  }

  /** RunOnce has read a job and has not yet assigned it. */
  predicate HasPick(d: Dispatch) {
    d.Picked? || d.Placed?
  }

  predicate Ordered(s: State) {
    var done := s.hist.dispatched;
    && (forall x, y :: 0 <= x < y < |done| ==> done[x] < done[y])
    && (forall x :: 0 <= x < |done| ==> done[x] < |s.db.jobs|)
    && (forall x, k :: 0 <= x < |done| && 0 <= k < |s.db.jobs| && s.db.jobs[k].status == JobQueued ==> done[x] < k)
    && (HasPick(s.dispatch) ==>
          && s.dispatch.job < |s.db.jobs|
          && (forall x :: 0 <= x < |done| ==> done[x] < s.dispatch.job)
          && (forall k :: 0 <= k < |s.db.jobs| && s.db.jobs[k].status == JobQueued ==> s.dispatch.job <= k))
    && (!s.dispatch.Idle? ==> s.dispatch.job < |s.db.jobs|)
    && (!s.dispatch.Idle? && !HasPick(s.dispatch) ==> !Queued(s.db, s.dispatch.job))
  }

  /** Any step that neither reads nor assigns a job. */
  lemma FrameKeepsOrder(s: State, s': State)
    requires Ordered(s) && RowsEvolve(s.db, s'.db)
    requires s'.hist.dispatched == s.hist.dispatched
    requires !s'.dispatch.Idle? ==>
               && !s.dispatch.Idle? && s'.dispatch.job == s.dispatch.job
               && (HasPick(s'.dispatch) <==> HasPick(s.dispatch))
    ensures Ordered(s')
  {
  }

  lemma PickKeepsOrder(s: State, j: JobId)
    requires Ordered(s) && Enabled(s, Pick(j))
    ensures Ordered(ApplyDispatch(s, Pick(j)))
  {
  }

  lemma AssignKeepsOrder(s: State)
    requires Ordered(s) && Enabled(s, Assign)
    ensures Ordered(ApplyDispatch(s, Assign))
  {
    DispatchEvolves(s, Assign);
  }

  lemma OtherStepKeepsPlace(s: State, a: Action)
    requires Enabled(s, a) && !a.Pick? && !a.Assign?
    ensures var s' := Apply(s, a);
            && s'.hist.dispatched == s.hist.dispatched
            && (!s'.dispatch.Idle? ==>
                  && !s.dispatch.Idle? && s'.dispatch.job == s.dispatch.job
                  && (HasPick(s'.dispatch) <==> HasPick(s.dispatch)))
  {
  }

  lemma StepKeepsOrder(s: State, a: Action)
    requires Ordered(s) && Enabled(s, a)
    ensures Ordered(Apply(s, a))
  {
    if a.Pick? {
      PickKeepsOrder(s, a.job);
    } else if a.Assign? {
      AssignKeepsOrder(s);
    } else {
      StepEvolves(s, a);
      OtherStepKeepsPlace(s, a);
      FrameKeepsOrder(s, Apply(s, a));
    }
  }

  lemma {:induction false} RunKeepsOrder(states: seq<State>, acts: seq<Action>, i: nat)
    requires IsRun(states, acts) && Ordered(states[0])
    requires i < |states|
    ensures Ordered(states[i])
  {
    if i > 0 {
      RunKeepsOrder(states, acts, i - 1);
      StepKeepsOrder(states[i - 1], acts[i - 1]);
    }
  }

  /** In any run, the jobs assigned to nodes come in strictly increasing creation order; in particular
      no job is assigned twice. */
  lemma AssignedInCreationOrder(states: seq<State>, acts: seq<Action>, i: nat)
    requires IsRun(states, acts) && Init(states[0])
    requires i < |states|
    ensures var done := states[i].hist.dispatched;
            forall x, y :: 0 <= x < y < |done| ==> done[x] < done[y]
  {
    RunKeepsOrder(states, acts, i);
  }

  // ---------- waiting ----------

  /** The number of queued jobs among the first `n`. */
  function QueuedBefore(jobs: seq<Job>, n: nat): nat
    requires n <= |jobs|
  {
    if n == 0 then 0
    else QueuedBefore(jobs, n - 1) + if jobs[n - 1].status == JobQueued then 1 else 0
  }

  /** Dispatches that may still come before `j`: the older queued jobs, and the job RunOnce has already
      read if that one has left the queue meanwhile. */
  function Ahead(s: State, j: JobId): nat
    requires j <= |s.db.jobs|
  {
    QueuedBefore(s.db.jobs, j)
    + if HasPick(s.dispatch) && !Queued(s.db, s.dispatch.job) then 1 else 0
  }

  lemma {:induction false} SamePrefixSameCount(a: seq<Job>, b: seq<Job>, n: nat)
    requires n <= |a| && n <= |b|
    requires forall k :: 0 <= k < n ==> (a[k].status == JobQueued <==> b[k].status == JobQueued)
    ensures QueuedBefore(a, n) == QueuedBefore(b, n)
  {
    if n > 0 {
      SamePrefixSameCount(a, b, n - 1);
    }
  }

  /** Taking one job off the queue lowers the count by one if it was queued and among the first n. */
  lemma {:induction false} TakenOff(a: seq<Job>, b: seq<Job>, j: JobId, n: nat)
    requires n <= |a| == |b| && j < |a|
    requires b[j].status != JobQueued
    requires forall k :: 0 <= k < |a| && k != j ==> b[k] == a[k]
    ensures QueuedBefore(a, n) == QueuedBefore(b, n) + if j < n && a[j].status == JobQueued then 1 else 0
  {
    if n > 0 {
      TakenOff(a, b, j, n - 1);
    }
  }

  /** A step that takes one job off the queue (or leaves all as they are). */
  lemma TakingServesQueue(s: State, s': State, taken: JobId, j: JobId)
    requires Ordered(s) && Queued(s.db, j) && Queued(s'.db, j)
    requires taken < |s.db.jobs| == |s'.db.jobs| && !Queued(s'.db, taken)
    requires forall k :: 0 <= k < |s.db.jobs| && k != taken ==> s'.db.jobs[k] == s.db.jobs[k]
    requires || (s'.dispatch == s.dispatch && s'.hist == s.hist)
             || (HasPick(s.dispatch) && s.dispatch.job == taken && !HasPick(s'.dispatch)
                 && |s'.hist.dispatched| == |s.hist.dispatched| + 1)
             || (!HasPick(s.dispatch) && !HasPick(s'.dispatch) && s'.hist == s.hist)
    ensures Ahead(s', j) + |s'.hist.dispatched| <= Ahead(s, j) + |s.hist.dispatched|
  {
    TakenOff(s.db.jobs, s'.db.jobs, taken, j);
  }

  /** A step that leaves the older jobs as they are and assigns none. */
  lemma KeepingServesQueue(s: State, s': State, j: JobId)
    requires Queued(s.db, j) && Queued(s'.db, j)
    requires s'.db.jobs == s.db.jobs || (|s.db.jobs| <= |s'.db.jobs| && s'.db.jobs[..|s.db.jobs|] == s.db.jobs)
    requires s'.hist.dispatched == s.hist.dispatched
    requires HasPick(s'.dispatch) ==>
               || (HasPick(s.dispatch) && s'.dispatch.job == s.dispatch.job && s.dispatch.job < |s.db.jobs|)
               || Queued(s'.db, s'.dispatch.job)
    ensures Ahead(s', j) + |s'.hist.dispatched| <= Ahead(s, j) + |s.hist.dispatched|
  {
    SamePrefixSameCount(s.db.jobs, s'.db.jobs, j);
  }

  /** Every dispatch uses up one of the jobs ahead of `j`, and nothing adds to them. */
  lemma StepServesQueue(s: State, a: Action, j: JobId)
    requires Ordered(s) && Enabled(s, a)
    requires Queued(s.db, j) && Queued(Apply(s, a).db, j)
    ensures Ahead(Apply(s, a), j) + |Apply(s, a).hist.dispatched| <= Ahead(s, j) + |s.hist.dispatched|
  {
    var s' := Apply(s, a);
    if a.Assign? || a.MarkJob? || a.Report? {
      TakingServesQueue(s, s', s.dispatch.job, j);
    } else if a.CancelJob? && s.threads[a.th].todo[0] < |s.db.jobs| {
      TakingServesQueue(s, s', s.threads[a.th].todo[0], j);
    } else {
      KeepingServesQueue(s, s', j);
    }
  }

  /** A job that is still queued was queued one step before. */
  lemma QueuedBackwards(states: seq<State>, acts: seq<Action>, i: nat, k: nat, j: JobId)
    requires IsRun(states, acts) && i < k < |states|
    requires j < |states[i].db.jobs| && Queued(states[k].db, j)
    ensures Queued(states[k - 1].db, j)
  {
    RunEvolves(states, acts, i, k - 1);
    RunEvolves(states, acts, k - 1, k);
  }

  lemma {:induction false} RunServesQueue(states: seq<State>, acts: seq<Action>, i: nat, k: nat, j: JobId)
    requires IsRun(states, acts) && Ordered(states[0])
    requires i <= k < |states|
    requires Queued(states[i].db, j) && Queued(states[k].db, j)
    ensures Ahead(states[k], j) + |states[k].hist.dispatched| <= Ahead(states[i], j) + |states[i].hist.dispatched|
    decreases k
  {
    if i < k {
      QueuedBackwards(states, acts, i, k, j);
      RunServesQueue(states, acts, i, k - 1, j);
      RunKeepsOrder(states, acts, k - 1);
      StepServesQueue(states[k - 1], acts[k - 1], j);
    }
  }

  /** Bounded waiting: once more than `Ahead` dispatches have happened, the job has left the queue.
      With k older queued jobs that is after k + 1 dispatches when the dispatcher is idle, and after
      at most k + 2 when it has already read a job. */
  lemma BoundedWait(states: seq<State>, acts: seq<Action>, i: nat, k: nat, j: JobId)
    requires IsRun(states, acts) && Init(states[0])
    requires i <= k < |states|
    requires Queued(states[i].db, j)
    requires |states[k].hist.dispatched| > |states[i].hist.dispatched| + Ahead(states[i], j)
    ensures !Queued(states[k].db, j)
    ensures Ahead(states[i], j) <= QueuedBefore(states[i].db.jobs, j) + 1
    ensures states[i].dispatch == Idle ==> Ahead(states[i], j) == QueuedBefore(states[i].db.jobs, j)
  {
    if Queued(states[k].db, j) {
      RunServesQueue(states, acts, i, k, j);
    }
  }

  // ---------- the bound is exact ----------

  function FirstQueued(jobs: seq<Job>, n: nat, j: JobId): (r: JobId)
    requires n <= j < |jobs| && jobs[j].status == JobQueued
    ensures n <= r <= j && jobs[r].status == JobQueued
    ensures forall k :: n <= k < r ==> jobs[k].status != JobQueued
    decreases j - n
  {
    if jobs[n].status == JobQueued then n else FirstQueued(jobs, n + 1, j)
  }

  /** The step RunOnce takes next when a node is available and the worker succeeds. */
  function NextStep(s: State, j: JobId): (a: Action)
    requires Queued(s.db, j)
    ensures Enabled(s, a)
  {
    match s.dispatch
    case Idle => Pick(FirstQueued(s.db.jobs, 0, j))
    case Picked(_) => Place(0)
    case Placed(_, _) => Assign
    case Assigned(_) => MarkJob
    case Marked(_) => MarkTask
    case Awaiting(_) => Report(true)
    case Reported(_, _) => CloseTask
  }

  function Rank(d: Dispatch): nat {
    match d
    case Placed(_, _) => 0
    case Picked(_) => 1
    case Idle => 2
    case Reported(_, _) => 3
    case Awaiting(_) => 4
    case Marked(_) => 5
    case Assigned(_) => 6
  }

  /** While something is ahead of `j`, the next step keeps `j` queued and the sum constant. */
  lemma NextStepCounts(s: State, j: JobId)
    requires Ordered(s) && Queued(s.db, j) && Ahead(s, j) > 0
    ensures var s' := Apply(s, NextStep(s, j));
            && Ordered(s') && Queued(s'.db, j)
            && Ahead(s', j) + |s'.hist.dispatched| == Ahead(s, j) + |s.hist.dispatched|
            && (Ahead(s', j) < Ahead(s, j) || (Ahead(s', j) == Ahead(s, j) && Rank(s'.dispatch) < Rank(s.dispatch)))
  {
    var a := NextStep(s, j);
    var s' := Apply(s, a);
    StepKeepsOrder(s, a);
    if HasPick(s.dispatch) && s.dispatch.job == j {
      NoneBefore(s.db.jobs, j);
    }
    if a.Assign? || a.MarkJob? || a.Report? {
      TakenOff(s.db.jobs, s'.db.jobs, s.dispatch.job, j);
    } else {
      SamePrefixSameCount(s.db.jobs, s'.db.jobs, j);
    }
  }

  lemma {:induction false} NoneBefore(jobs: seq<Job>, n: nat)
    requires n <= |jobs|
    requires forall k :: 0 <= k < n ==> jobs[k].status != JobQueued
    ensures QueuedBefore(jobs, n) == 0
  {
    if n > 0 {
      NoneBefore(jobs, n - 1);
    }
  }

  /** The bound of BoundedWait is exact: from any such state the dispatcher alone can carry out as many
      dispatches as there are ahead of `j` with `j` still in the queue. So k + 1 dispatches suffice for
      k older queued jobs exactly when RunOnce has not already read a job that has left the queue. */
  lemma {:induction false} BoundIsTight(s: State, j: JobId) returns (states: seq<State>, acts: seq<Action>)
    requires Ordered(s) && Queued(s.db, j)
    ensures IsRun(states, acts) && states[0] == s
    ensures Queued(states[|acts|].db, j)
    ensures |states[|acts|].hist.dispatched| == |s.hist.dispatched| + Ahead(s, j)
    decreases Ahead(s, j), Rank(s.dispatch)
  {
    if Ahead(s, j) == 0 {
      states, acts := [s], [];
    } else {
      NextStepCounts(s, j);
      var s' := Apply(s, NextStep(s, j));
      var rest, more := BoundIsTight(s', j);
      PrependStep(s, NextStep(s, j), rest, more);
      states, acts := [s] + rest, [NextStep(s, j)] + more;
      assert states[|acts|] == rest[|more|];
    }
  }

  /** Whatever happens next, `j` has left the queue once `n` more jobs were dispatched. */
  ghost predicate ServedWithin(s: State, j: JobId, n: nat) {
    forall states: seq<State>, acts: seq<Action> ::
      IsRun(states, acts) && states[0] == s && |states[|acts|].hist.dispatched| >= |s.hist.dispatched| + n ==>
        !Queued(states[|acts|].db, j)
  }

  /** In every reachable state: `n` dispatches suffice for a queued job if and only if there are fewer than
      `n` ahead of it. So k + 1 suffice for k older queued jobs if and only if RunOnce has not already read a
      job that has left the queue meanwhile. */
  lemma ServedExactly(before: seq<State>, past: seq<Action>, j: JobId, n: nat)
    requires IsRun(before, past) && Init(before[0])
    requires Queued(before[|past|].db, j)
    ensures var s := before[|past|];
            && (ServedWithin(s, j, n) <==> Ahead(s, j) < n)
            && (ServedWithin(s, j, QueuedBefore(s.db.jobs, j) + 1) <==>
                  !(HasPick(s.dispatch) && !Queued(s.db, s.dispatch.job)))
  {
    RunKeepsOrder(before, past, |past|);
    ServedFromOrdered(before[|past|], j, n);
    ServedFromOrdered(before[|past|], j, QueuedBefore(before[|past|].db.jobs, j) + 1);
  }

  lemma ServedFromOrdered(s: State, j: JobId, n: nat)
    requires Ordered(s) && Queued(s.db, j)
    ensures ServedWithin(s, j, n) <==> Ahead(s, j) < n
  {
    if Ahead(s, j) < n {
      forall states: seq<State>, acts: seq<Action> |
        IsRun(states, acts) && states[0] == s && |states[|acts|].hist.dispatched| >= |s.hist.dispatched| + n
        ensures !Queued(states[|acts|].db, j)
      {
        if Queued(states[|acts|].db, j) {
          RunServesQueue(states, acts, 0, |acts|, j);
        }
      }
    } else {
      var states, acts := BoundIsTight(s, j);
      assert IsRun(states, acts) && states[0] == s;
    }
  }

  /** The exception occurs: RunOnce reads the oldest queued job, its task is canceled, and then one dispatch
      more than the number of older queued jobs can come before any other queued job. */
  lemma CanceledPickDelays(s: State, j0: JobId, j: JobId, owner: UserId)
    returns (states: seq<State>, acts: seq<Action>)
    requires Init(s) && IsNextQueued(s.db, j0) && Queued(s.db, j) && j0 < j
    requires var t := s.db.jobs[j0].task;
             && t < |s.db.tasks| && s.db.tasks[t].createdBy == Some(owner)
             && forall k :: 0 <= k < |s.db.jobs| && s.db.jobs[k].task == t ==> k == j0
    ensures IsRun(states, acts) && states[0] == s
    ensures var f := states[|acts|];
            && Queued(f.db, j) && Ahead(f, j) == QueuedBefore(f.db.jobs, j) + 1
            && !ServedWithin(f, j, QueuedBefore(f.db.jobs, j) + 1)
  {
    var f;
    states, acts, f := PickThenCancel(s, j0, owner);
    ServedExactly(states, acts, j, QueuedBefore(f.db.jobs, j) + 1);
  }

  lemma PickThenCancel(s: State, j0: JobId, owner: UserId) returns (states: seq<State>, acts: seq<Action>, f: State)
    requires Init(s) && IsNextQueued(s.db, j0)
    requires var t := s.db.jobs[j0].task;
             && t < |s.db.tasks| && s.db.tasks[t].createdBy == Some(owner)
             && forall k :: 0 <= k < |s.db.jobs| && s.db.jobs[k].task == t ==> k == j0
    ensures IsRun(states, acts) && states[0] == s && f == states[|acts|]
    ensures f.dispatch == Picked(j0) && f.db.jobs == s.db.jobs[j0 := s.db.jobs[j0].(status := JobCanceled)]
  {
    var t := s.db.jobs[j0].task;
    var s1, s2, s3 := PickThenCancelRow(s, j0, t, owner);
    var s4 := CancelOnlyJob(s3, t, j0);
    f := Apply(s4, CancelJob(0));
    states := [s, s1, s2, s3, s4, f];
    acts := [Pick(j0), ResolveTask(0, t, owner), CancelTaskRow(0), ListJobs(0), CancelJob(0)];
  }

  lemma PickThenCancelRow(s: State, j0: JobId, t: TaskId, owner: UserId) returns (s1: State, s2: State, s3: State)
    requires Init(s) && IsNextQueued(s.db, j0) && t < |s.db.tasks| && s.db.tasks[t].createdBy == Some(owner)
    ensures Step(s, Pick(j0), s1) && Step(s1, ResolveTask(0, t, owner), s2) && Step(s2, CancelTaskRow(0), s3)
    ensures s3.dispatch == Picked(j0) && s3.db.jobs == s.db.jobs && 0 in s3.threads && s3.threads[0] == Listing(t)
  {
    s1 := Apply(s, Pick(j0));
    s2 := Apply(s1, ResolveTask(0, t, owner));
    s3 := Apply(s2, CancelTaskRow(0));
  }

  lemma CancelOnlyJob(s: State, t: TaskId, j: JobId) returns (s': State)
    requires 0 in s.threads && s.threads[0] == Listing(t) && j < |s.db.jobs|
    requires s.db.jobs[j].task == t && s.db.jobs[j].status == JobQueued
    requires forall k :: 0 <= k < |s.db.jobs| && s.db.jobs[k].task == t ==> k == j
    ensures Step(s, ListJobs(0), s') && Enabled(s', CancelJob(0))
    ensures var f := Apply(s', CancelJob(0));
            f.dispatch == s.dispatch && f.db.jobs == s.db.jobs[j := s.db.jobs[j].(status := JobCanceled)]
  {
    OnlyOneToCancel(s.db.jobs, t, j, |s.db.jobs|);
    s' := Apply(s, ListJobs(0));
  }

  lemma {:induction false} OnlyOneToCancel(jobs: seq<Job>, t: TaskId, j: JobId, n: nat)
    requires n <= |jobs| && j < |jobs| && jobs[j].task == t && jobs[j].status == JobQueued
    requires forall k :: 0 <= k < |jobs| && jobs[k].task == t ==> k == j
    ensures JobsToCancel(jobs, t, n) == if j < n then [j] else []
  {
    if n > 0 {
      OnlyOneToCancel(jobs, t, j, n - 1);
    }
  }

  // ---------- an uninterrupted iteration ----------

  /** The tables after one uninterrupted dispatch of job `j`. */
  function Dispatched(db: Db, j: JobId, node: NodeId, ok: bool): Db {
    var db1 := UpdateJobStatus(AssignJobToNode(db, j, node), j, JobRunning);
    var db2 := UpdateJobStatus(UpdateTaskOfJob(db1, j, Running), j, JobResult(ok));
    UpdateTaskOfJob(db2, j, TaskResult(ok))
  }

  function Round(j: JobId, node: NodeId, ok: bool): seq<Action> {
    [Pick(j), Place(node), Assign, MarkJob, MarkTask, Report(ok), CloseTask]
  }

  /** An uninterrupted RunOnce is a run of the machine, and the run ends in the same tables. */
  lemma RoundIsARun(s: State, j: JobId, node: NodeId, ok: bool) returns (states: seq<State>)
    requires s.dispatch == Idle && IsNextQueued(s.db, j)
    ensures IsRun(states, Round(j, node, ok)) && states[0] == s
    ensures states[7] == s.(db := Dispatched(s.db, j, node, ok),
                            hist := s.hist.(dispatched := s.hist.dispatched + [j]))
  {
    var s1 := s.(dispatch := Picked(j));
    var s2 := s.(dispatch := Placed(j, node));
    var s3 := s.(db := AssignJobToNode(s.db, j, node), dispatch := Assigned(j),
                 hist := s.hist.(dispatched := s.hist.dispatched + [j]));
    var s4 := s3.(db := UpdateJobStatus(s3.db, j, JobRunning), dispatch := Marked(j));
    var s5 := s4.(db := UpdateTaskOfJob(s4.db, j, Running), dispatch := Awaiting(j));
    var s6 := s5.(db := UpdateJobStatus(s5.db, j, JobResult(ok)), dispatch := Reported(j, ok));
    var s7 := s6.(db := UpdateTaskOfJob(s6.db, j, TaskResult(ok)), dispatch := Idle);
    states := [s, s1, s2, s3, s4, s5, s6, s7];
  }

  lemma DispatchedJobs(db: Db, j: JobId, node: NodeId, ok: bool)
    requires j < |db.jobs|
    ensures var db' := Dispatched(db, j, node, ok);
            && db'.jobs == db.jobs[j := Job(db.jobs[j].task, Some(node), if ok then JobCompleted else JobFailed)]
            && db'.leases == db.leases && db'.plans == db.plans && db'.deps == db.deps
  {
  }

  /** Marking a task as running and then finishing it finishes it, unless it was terminal. */
  lemma TwoStatusWrites(db: Db, jobs: seq<Job>, t: TaskId, status: TaskStatus)
    requires status in {Completed, Failed}
    ensures var db' := UpdateTaskStatus(UpdateTaskStatus(db, t, Running).(jobs := jobs), t, status);
            db'.tasks == if t < |db.tasks| && db.tasks[t].status !in {Completed, Failed, Canceled, Superseded}
                         then db.tasks[t := db.tasks[t].(status := status, closed := true)] else db.tasks
  {
  }

  /** What one uninterrupted dispatch means: the job is finished on the node, its task follows unless it was
      already terminal, and every other row is untouched. */
  lemma DispatchedMeans(db: Db, j: JobId, node: NodeId, ok: bool)
    requires j < |db.jobs|
    ensures var db' := Dispatched(db, j, node, ok); var t := db.jobs[j].task;
            && db'.jobs == db.jobs[j := Job(t, Some(node), if ok then JobCompleted else JobFailed)]
            && db'.tasks == (if t < |db.tasks| && db.tasks[t].status !in {Completed, Failed, Canceled, Superseded}
                             then db.tasks[t := db.tasks[t].(status := if ok then Completed else Failed, closed := true)]
                             else db.tasks)
            && db'.leases == db.leases && db'.plans == db.plans && db'.deps == db.deps
  {
    DispatchedJobs(db, j, node, ok);
    var t := db.jobs[j].task;
    var db1 := UpdateJobStatus(AssignJobToNode(db, j, node), j, JobRunning);
    var db2 := UpdateTaskStatus(db1, t, Running);
    TwoStatusWrites(db1, UpdateJobStatus(db2, j, JobResult(ok)).jobs, t, TaskResult(ok));
  }
}
