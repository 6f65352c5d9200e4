/** Rows of the orchestrator's tables. Tasks and jobs are numbered by insertion order, which is also
    the order of their creation times; uuids are modelled by natural numbers. */
module Models {
  datatype Option<+T> = None | Some(value: T)

  type TaskId = nat
  type JobId = nat
  type UserId = nat
  type PlanId = nat
  type NodeId = nat
  type LeaseId = nat
  type Time = int

  datatype TaskStatus = Pending | Running | Completed | Failed | Canceled | Superseded

  predicate IsTerminal(status: TaskStatus) {
    status in {Completed, Failed, Canceled, Superseded}
  }

  datatype JobStatus =
    | JobQueued
    | JobRunning
    | JobCompleted
    | JobFailed
    | JobCanceled
    | JobLeaseExpired

  datatype Task = Task(
    createdBy: Option<UserId>,
    plan: Option<PlanId>,
    status: TaskStatus,
    closed: bool,
    summary: string)

  datatype Job = Job(task: TaskId, node: Option<NodeId>, status: JobStatus)

  /** A task_workflow_leases row. A release clears the holder and the expiry and keeps the lease id. */
  datatype Lease = Lease(id: LeaseId, holder: Option<string>, expiresAt: Option<Time>)

  datatype Plan = Plan(active: bool, archived: bool)

  /** The tables. Dependencies are never written by the orchestrator. */
  datatype Db = Db(
    tasks: seq<Task>,
    jobs: seq<Job>,
    leases: map<TaskId, Lease>,
    plans: map<PlanId, Plan>,
    deps: map<TaskId, seq<TaskId>>)
}
