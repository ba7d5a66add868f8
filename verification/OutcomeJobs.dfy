/** The `outcome_jobs` row and its identity, shared by the drain, the adjudicator and the backfill. */
module OutcomeJobs {
  import opened Common

  const DAY: int := 86_400

  datatype Status = Pending | Running | Done | Failed

  datatype Identity = Identity(installation: int, repo: int, pr: int, mergeSha: string, windowDays: int)

  datatype Job = Job(
    identity: Identity,
    mergedAt: int,
    baseRef: string,
    dueAt: int,
    createdAt: int,
    status: Status,
    attempts: nat,
    generation: nat,
    startedAt: Option<int>,
    finishedAt: Option<int>,
    error: Option<string>)

  /** A job row as an insert leaves it: every queue column at its server default. */
  function NewJob(identity: Identity, mergedAt: int, baseRef: string, dueAt: int, createdAt: int): Job {
    Job(identity, mergedAt, baseRef, dueAt, createdAt, Pending, 0, 0, None, None, None)
  }
}
