/** The Store: the tables kept in place, one method per Store operation. Every method that changes a
    table is proved to do what its function in `Tables` says. */
module Database {
  import opened Models
  import opened TaskNames
  import opened Tables
  import T = Tables

  predicate HasName(tasks: seq<Task>, user: UserId, name: string) {
    exists i :: 0 <= i < |tasks| && tasks[i].createdBy == Some(user) && tasks[i].summary == name
  }

  /** `summary` is the `n`-th of base, base-2, base-3, ..., the user has no task of that name, and has one of
      each of the names before it. */
  predicate IsFirstFree(base: string, user: UserId, tasks: seq<Task>, summary: string, n: nat) {
    && n >= 1
    && summary == (if n == 1 then base else base + "-" + Decimal.Digits(n))
    && !HasName(tasks, user, summary)
    && (n > 1 ==> HasName(tasks, user, base))
    && forall k :: 2 <= k < n ==> HasName(tasks, user, base + "-" + Decimal.Digits(k))
  }

  class Store {
    var tasks: seq<Task>
    var jobs: seq<Job>
    var leases: map<TaskId, Lease>
    var plans: map<PlanId, Plan>
    var deps: map<TaskId, seq<TaskId>>

    function View(): Db
      reads this
    {
      Db(tasks, jobs, leases, plans, deps)
    }

    constructor (db: Db)
      ensures View() == db
    {
      tasks, jobs, leases, plans, deps := db.tasks, db.jobs, db.leases, db.plans, db.deps;
    }

    method UpdateTaskStatus(t: TaskId, status: TaskStatus)
      modifies this`tasks
      ensures View() == T.UpdateTaskStatus(old(View()), t, status)
    {
      if t < |tasks| && !IsTerminal(tasks[t].status) {
        tasks := tasks[t := tasks[t].(status := status, closed := IsTerminal(status))];
      }
    }

    method CreateTask(createdBy: Option<UserId>, taskName: Option<string>) returns (t: TaskId, tries: nat)
      modifies this`tasks
      ensures t == |old(tasks)|
      ensures View() == T.CreateTask(old(View()), createdBy, taskName)
      ensures createdBy.Some? ==> tries <= |Summaries(old(tasks), createdBy.value)| + 1
      // the row
      ensures tasks[..t] == old(tasks) && |tasks| == t + 1
      ensures tasks[t].createdBy == createdBy && tasks[t].plan == None
      ensures tasks[t].status == Pending && !tasks[t].closed
      // without a usable name: the number of the user's tasks, plus one, in at least three digits
      ensures (taskName.None? || Slug(taskName.value) == "") && createdBy.Some? ==>
                tasks[t].summary == "task_name_" + Decimal.Padded3(1 + |set i | 0 <= i < t && old(tasks)[i].createdBy == createdBy|)
      ensures (taskName.None? || Slug(taskName.value) == "") && createdBy.None? ==> tasks[t].summary == "task_name_001"
      // with a name: the slug, for a user with the first of "", "-2", "-3", ... that makes it new to the user
      ensures taskName.Some? && Slug(taskName.value) != "" && createdBy.None? ==> tasks[t].summary == Slug(taskName.value)
      ensures taskName.Some? && Slug(taskName.value) != "" && createdBy.Some? ==>
                && IsFirstFree(Slug(taskName.value), createdBy.value, old(tasks), tasks[t].summary, tries)
    {
      var summary := "";
      tries := 0;
      if taskName.Some? {
        summary := NormalizeTaskName(taskName.value);
      }
      if summary == "" {
        var count := 0;
        if createdBy.Some? {
          count := Count(createdBy.value);
          CountIsCardinality(tasks, createdBy.value);
        }
        summary := CounterName(count + 1);
      } else if createdBy.Some? {
        summary, tries := FreeName(createdBy.value, summary);
      }
      t := |tasks|;
      tasks := tasks + [Task(createdBy, None, Pending, false, summary)];
    }

    /** The suffix loop of CreateTask: the name tried is compared with the user's tasks until free. */
    method FreeName(user: UserId, base: string) returns (summary: string, tries: nat)
      ensures summary == FirstFree(base, Summaries(tasks, user), 0)
      ensures 1 <= tries <= |Summaries(tasks, user)| + 1
      ensures IsFirstFree(base, user, tasks, summary, tries)
    {
      ghost var used := Summaries(tasks, user);
      summary := base;
      tries := 1;
      var n := 2;
      var taken := HasSummary(user, summary);
      while taken
        invariant n == tries + 1 && tries >= 1
        invariant summary == Candidate(base, tries - 1)
        invariant taken == (summary in used)
        invariant forall i: nat :: i < tries - 1 ==> Candidate(base, i) in used
        invariant FirstFree(base, used, 0) == FirstFree(base, used, tries - 1)
        invariant tries <= |used| + 1
        decreases |used| + 1 - tries
      {
        NextTry(base, used, tries - 1);
        summary := base + "-" + Decimal.Digits(n);
        n := n + 1;
        taken := HasSummary(user, summary);
        tries := tries + 1;
      }
      forall k | 2 <= k < tries
        ensures HasName(tasks, user, base + "-" + Decimal.Digits(k))
      {
        assert Candidate(base, k - 1) in used;
      }
      assert tries > 1 ==> Candidate(base, 0) in used;
    }

    method Count(user: UserId) returns (count: nat)
      ensures count == CountBy(tasks, user)
    {
      count := 0;
      for i := 0 to |tasks|
        invariant count == CountBy(tasks[..i], user)
      {
        assert tasks[..i + 1][..i] == tasks[..i];
        if tasks[i].createdBy == Some(user) {
          count := count + 1;
        }
      }
      assert tasks[..|tasks|] == tasks;
    }

    method HasSummary(user: UserId, summary: string) returns (found: bool)
      ensures found == (summary in Summaries(tasks, user))
    {
      found := exists i :: 0 <= i < |tasks| && tasks[i].createdBy == Some(user) && tasks[i].summary == summary;
    }

    method CreateJob(t: TaskId, status: JobStatus) returns (j: JobId)
      modifies this`jobs
      ensures j == |old(jobs)|
      ensures View() == T.CreateJob(old(View()), t, status)
    {
      j := |jobs|;
      jobs := jobs + [Job(t, None, status)];
    }

    method UpdateJobStatus(j: JobId, status: JobStatus)
      modifies this`jobs
      ensures View() == T.UpdateJobStatus(old(View()), j, status)
    {
      if j < |jobs| {
        jobs := jobs[j := jobs[j].(status := status)];
      }
    }

    method AssignJobToNode(j: JobId, node: NodeId)
      modifies this`jobs
      ensures View() == T.AssignJobToNode(old(View()), j, node)
    {
      if j < |jobs| {
        jobs := jobs[j := jobs[j].(node := Some(node), status := JobRunning)];
      }
    }

    method GetNextQueuedJob() returns (r: Option<JobId>)
      ensures r.Some? ==> r.value < |jobs| && jobs[r.value].status == JobQueued
                          && forall k :: 0 <= k < r.value ==> jobs[k].status != JobQueued
      ensures r.None? ==> forall k :: 0 <= k < |jobs| ==> jobs[k].status != JobQueued
    {
      for k := 0 to |jobs|
        invariant forall i :: 0 <= i < k ==> jobs[i].status != JobQueued
      {
        if jobs[k].status == JobQueued {
          return Some(k);
        }
      }
      return None;
    }

    /** GetJobsByTaskID followed by the cancel handler's filter on the listed statuses. */
    method ListJobsToCancel(t: TaskId) returns (r: seq<JobId>)
      ensures r == JobsToCancel(jobs, t, |jobs|)
    {
      r := [];
      for k := 0 to |jobs|
        invariant r == JobsToCancel(jobs, t, k)
      {
        if jobs[k].task == t && LiveInList(jobs[k].status) {
          r := r + [k];
        }
      }
    }

    method AcquireTaskWorkflowLease(t: TaskId, id: LeaseId, holder: string, expiresAt: Time, now: Time)
      returns (r: AcquireResult)
      modifies this`leases
      ensures (View(), r) == AcquireLease(old(View()), t, id, holder, expiresAt, now)
    {
      if t !in leases {
        r := Acquired(Lease(id, Some(holder), Some(expiresAt)));
        leases := leases[t := r.lease];
        return;
      }
      var row := leases[t];
      if row.holder.None? || (row.expiresAt.Some? && row.expiresAt.value < now) {
        row := row.(id := id, holder := Some(holder), expiresAt := Some(expiresAt));
        leases := leases[t := row];
        return Acquired(row);
      }
      if row.holder.value == holder && row.id == id {
        return Acquired(row);
      }
      return LeaseHeld;
    }

    method ReleaseTaskWorkflowLease(t: TaskId, id: LeaseId)
      modifies this`leases
      ensures View() == ReleaseLease(old(View()), t, id)
    {
      if t in leases && leases[t].id == id {
        leases := leases[t := leases[t].(holder := None, expiresAt := None)];
      }
    }

    /** EvaluateWorkflowStartGate, for a task whose plan reference was read as `plan`. With no other
        step in between it allows exactly when the plan passes and every dependency is completed. */
    method EvaluateWorkflowStartGate(t: TaskId, plan: Option<PlanId>, byPMA: bool) returns (r: Gate)
      ensures r.Allowed? <==>
                plan.Some? ==>
                  && plan.value in plans && !plans[plan.value].archived && (plans[plan.value].active || byPMA)
                  && (t in deps ==> forall d :: d in deps[t] ==> d < |tasks| && tasks[d].status == Completed)
      ensures r.PlanNotFound? <==> plan.Some? && plan.value !in plans
      ensures r.PlanArchived? <==> plan.Some? && plan.value in plans && plans[plan.value].archived
      ensures r.PlanNotActive? <==>
                plan.Some? && plan.value in plans && !plans[plan.value].archived && !plans[plan.value].active && !byPMA
      // otherwise the first dependency that is not completed decides
      ensures r.DependencyNotFound? || r.DependencyOpen? ==>
                && t in deps
                && (exists i :: 0 <= i < |deps[t]|
                      && (forall k :: 0 <= k < i ==> deps[t][k] < |tasks| && tasks[deps[t][k]].status == Completed)
                      && (r.DependencyNotFound? <==> deps[t][i] >= |tasks|)
                      && (r.DependencyOpen? <==> deps[t][i] < |tasks| && tasks[deps[t][i]].status != Completed))
    {
      if plan.None? {
        return Allowed;
      }
      r := CheckPlan(View(), plan.value, byPMA);
      if r != Allowed {
        return;
      }
      var ids := DependenciesOf(View(), t);
      for i := 0 to |ids|
        invariant forall k :: 0 <= k < i ==> CheckDependency(View(), ids[k]) == Allowed
      {
        assert ids[i] in ids;
        r := CheckDependency(View(), ids[i]);
        if r != Allowed {
          return;
        }
      }
      r := Allowed;
    }
  }
}
