/** What each Store method does to the tables, as functions on table values. One call is one atomic
    step; the interleaving model is built from these functions, and the class Database.Store is
    proved to do the same to tables kept in place. */
module Tables {
  import opened Models
  import opened TaskNames

  // ---------- tasks ----------

  /** UpdateTaskStatus: skipped when the task is missing or already in a terminal status. */
  function UpdateTaskStatus(db: Db, t: TaskId, status: TaskStatus): Db {
    if t < |db.tasks| && !IsTerminal(db.tasks[t].status)
    then db.(tasks := db.tasks[t := db.tasks[t].(status := status, closed := IsTerminal(status))])
    else db
  }

  /** The summaries of a user's tasks. */
  function Summaries(tasks: seq<Task>, user: UserId): set<string> {
    set i | 0 <= i < |tasks| && tasks[i].createdBy == Some(user) :: tasks[i].summary
  }

  function CountBy(tasks: seq<Task>, user: UserId): nat {
    if tasks == [] then 0
    else CountBy(tasks[..|tasks| - 1], user) + (if tasks[|tasks| - 1].createdBy == Some(user) then 1 else 0)
  }

  function OwnTasks(tasks: seq<Task>, user: UserId): set<int> {
    set i | 0 <= i < |tasks| && tasks[i].createdBy == Some(user)
  }

  lemma {:induction false} CountIsCardinality(tasks: seq<Task>, user: UserId)
    ensures CountBy(tasks, user) == |OwnTasks(tasks, user)|
  {
    if tasks != [] {
      var n := |tasks| - 1;
      CountIsCardinality(tasks[..n], user);
      if tasks[n].createdBy == Some(user) {
        assert OwnTasks(tasks, user) == OwnTasks(tasks[..n], user) + {n};
      } else {
        assert OwnTasks(tasks, user) == OwnTasks(tasks[..n], user);
      }
    }
  }

  /** The summary a new task gets. */
  function SummaryFor(tasks: seq<Task>, user: Option<UserId>, name: Option<string>): string {
    var slug := if name.Some? then Slug(name.value) else "";
    if slug == "" then CounterName(1 + if user.Some? then CountBy(tasks, user.value) else 0)
    else if user.Some? then FirstFree(slug, Summaries(tasks, user.value), 0)
    else slug
  }

  function NewTask(tasks: seq<Task>, user: Option<UserId>, name: Option<string>): Task {
    Task(user, None, Pending, false, SummaryFor(tasks, user, name))
  }

  function CreateTask(db: Db, user: Option<UserId>, name: Option<string>): Db {
    db.(tasks := db.tasks + [NewTask(db.tasks, user, name)])
  }

  // ---------- jobs ----------

  function CreateJob(db: Db, t: TaskId, status: JobStatus): Db {
    db.(jobs := db.jobs + [Job(t, None, status)])
  }

  function UpdateJobStatus(db: Db, j: JobId, status: JobStatus): Db {
    if j < |db.jobs| then db.(jobs := db.jobs[j := db.jobs[j].(status := status)]) else db
  }

  function AssignJobToNode(db: Db, j: JobId, node: NodeId): Db {
    if j < |db.jobs|
    then db.(jobs := db.jobs[j := db.jobs[j].(node := Some(node), status := JobRunning)])
    else db
  }

  /** `j` is the oldest queued job. */
  predicate IsNextQueued(db: Db, j: JobId) {
    && j < |db.jobs| && db.jobs[j].status == JobQueued
    && forall k :: 0 <= k < j ==> db.jobs[k].status != JobQueued
  }

  predicate LiveInList(status: JobStatus) {
    status !in {JobCompleted, JobFailed, JobCanceled}
  }

  /** The jobs of `t` that a cancel will write, out of the first `n` jobs, oldest first. */
  function JobsToCancel(jobs: seq<Job>, t: TaskId, n: nat): (r: seq<JobId>)
    requires n <= |jobs|
    ensures forall j :: j in r <==>
              0 <= j < n && jobs[j].task == t && jobs[j].status !in {JobCompleted, JobFailed, JobCanceled}
  {
    if n == 0 then []
    else
      var r := JobsToCancel(jobs, t, n - 1);
      if jobs[n - 1].task == t && LiveInList(jobs[n - 1].status) then r + [n - 1] else r
  }

  // ---------- the workflow lease ----------

  datatype AcquireResult = Acquired(lease: Lease) | LeaseHeld

  predicate IsFree(row: Lease, now: Time) {
    row.holder.None? || (row.expiresAt.Some? && row.expiresAt.value < now)
  }

  function AcquireLease(db: Db, t: TaskId, id: LeaseId, holder: string, expiresAt: Time, now: Time)
    : (Db, AcquireResult)
  {
    var granted := Lease(id, Some(holder), Some(expiresAt));
    if t !in db.leases || IsFree(db.leases[t], now) then
      (db.(leases := db.leases[t := granted]), Acquired(granted))
    else if db.leases[t].holder == Some(holder) && db.leases[t].id == id then
      (db, Acquired(db.leases[t]))
    else (db, LeaseHeld)
  }

  function ReleaseLease(db: Db, t: TaskId, id: LeaseId): Db {
    if t in db.leases && db.leases[t].id == id
    then db.(leases := db.leases[t := Lease(id, None, None)])
    else db
  }

  // ---------- the workflow start gate ----------

  datatype Gate = Allowed | PlanNotFound | PlanArchived | PlanNotActive | DependencyNotFound | DependencyOpen

  function CheckPlan(db: Db, plan: PlanId, byPMA: bool): Gate {
    if plan !in db.plans then PlanNotFound
    else if db.plans[plan].archived then PlanArchived
    else if !db.plans[plan].active && !byPMA then PlanNotActive
    else Allowed
  }

  function DependenciesOf(db: Db, t: TaskId): seq<TaskId> {
    if t in db.deps then db.deps[t] else []
  }

  function CheckDependency(db: Db, d: TaskId): Gate {
    if d >= |db.tasks| then DependencyNotFound
    else if db.tasks[d].status != Completed then DependencyOpen
    else Allowed
  }

  predicate DependenciesMet(db: Db, t: TaskId) {
    forall d :: d in DependenciesOf(db, t) ==> d < |db.tasks| && db.tasks[d].status == Completed
  }
}
