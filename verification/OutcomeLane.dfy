/** Claim and settlement of outcome jobs (api/doug/outcome_queue.py). */
module OutcomeLane {
  // Each transaction is one atomic step over the two tables; a raise inside it rolls back, so it leaves
  // the ledger as it was. Batches are fed to the adjudicator. Workers hold every batch they were ever
  // handed, so stale batches are part of every run.

  import opened Common
  import opened OutcomeJobs
  import opened Adjudicate

  const MAX_ATTEMPTS: nat := 10
  const STALL_LEASE_SECONDS: nat := 7200

  datatype RepositoryKey = RepositoryKey(installation: int, repo: int)

  /** A row as the claim returned it: the id, and a snapshot taken after the update. */
  datatype ClaimedJob = ClaimedJob(id: nat, job: Job)

  datatype Batch = Batch(key: RepositoryKey, jobs: seq<ClaimedJob>)

  /** Job rows by id, and the outcome rows that carry a merge commit. */
  datatype Ledger = Ledger(jobs: seq<Job>, outcomes: seq<Outcome>)

  datatype Reply =
    | Enrolled(added: bool)
    | NothingDue
    | Handed(batch: Batch)
    | Reclaimed
    | LostClaim
    | Unaccounted          // ValueError: the adjudication does not cover the batch
    | IndexViolation       // IntegrityError from uq_outcomes_job_identity
    | Spent(count: nat)
    | Settled(done: nat, refused: nat)

  datatype Step =
    | Enroll(identity: Identity, mergedAt: int, baseRef: string, dueAt: int, now: int)
    | Claim(key: RepositoryKey, now: int)
    | Reclaim(olderThan: nat, now: int)
    | FailBatch(failed: Batch, error: string, maxAttempts: nat, now: int)
    | Settle(batch: Batch, reverts: RevertMap, defaultBranch: Option<string>, now: int)

  // ------------------------------------------------------------ transactions

  predicate Claimable(job: Job, key: RepositoryKey, now: int) {
    job.identity.installation == key.installation && job.identity.repo == key.repo
    && job.status == Pending && job.dueAt <= now
  }

  /** ORDER BY (due_at, id): `id`, larger than every id so far, goes after its equals. */
  function InsertByDue(jobs: seq<Job>, ids: seq<nat>, id: nat): (r: seq<nat>)
    requires id < |jobs| && forall k :: 0 <= k < |ids| ==> ids[k] < id
    requires forall k, l :: 0 <= k < l < |ids| ==> DueBefore(jobs, ids[k], ids[l])
    ensures forall k :: 0 <= k < |r| ==> r[k] < |jobs|
    ensures forall k, l :: 0 <= k < l < |r| ==> DueBefore(jobs, r[k], r[l])
    ensures forall i :: i in r <==> i in ids || i == id
    ensures |r| == |ids| + 1
  {
    hide DueBefore;
    IdGoesAfterItsEquals(jobs, ids, id);
    if |ids| == 0 || jobs[ids[|ids| - 1]].dueAt <= jobs[id].dueAt then ids + [id]
    else
      var front := InsertByDue(jobs, ids[..|ids| - 1], id);
      assert forall k :: 0 <= k < |front| ==> front[k] in front;
      front + [ids[|ids| - 1]]
  }

  lemma IdGoesAfterItsEquals(jobs: seq<Job>, ids: seq<nat>, id: nat)
    requires id < |jobs| && forall k :: 0 <= k < |ids| ==> ids[k] < id
    requires forall k, l :: 0 <= k < l < |ids| ==> DueBefore(jobs, ids[k], ids[l])
    ensures |ids| > 0 ==>
              if jobs[ids[|ids| - 1]].dueAt <= jobs[id].dueAt then forall k :: 0 <= k < |ids| ==> DueBefore(jobs, ids[k], id)
              else DueBefore(jobs, id, ids[|ids| - 1])
  {
    assert forall k :: 0 <= k < |ids| - 1 ==> DueBefore(jobs, ids[k], ids[|ids| - 1]);
  }

  predicate DueBefore(jobs: seq<Job>, i: nat, j: nat) {
    i < |jobs| && j < |jobs| && (jobs[i].dueAt < jobs[j].dueAt || (jobs[i].dueAt == jobs[j].dueAt && i < j))
  }

  /** The claimable ids among the first `n`, in claim order. */
  function DueIds(jobs: seq<Job>, key: RepositoryKey, now: int, n: nat): (r: seq<nat>)
    requires n <= |jobs|
    ensures forall i: nat :: i in r <==> i < n && Claimable(jobs[i], key, now)
    ensures forall k, l :: 0 <= k < l < |r| ==> DueBefore(jobs, r[k], r[l])
  {
    if n == 0 then []
    else
      var earlier := DueIds(jobs, key, now, n - 1);
      assert forall k :: 0 <= k < |earlier| ==> earlier[k] in earlier;
      if Claimable(jobs[n - 1], key, now) then InsertByDue(jobs, earlier, n - 1) else earlier
  }

  function ClaimedRow(job: Job, now: int): Job {
    job.(status := Running, startedAt := Some(now), finishedAt := None, error := None, generation := job.generation + 1)
  }

  function ClaimJobs(jobs: seq<Job>, ids: seq<nat>, now: int): (r: seq<Job>)
    ensures |r| == |jobs|
  {
    seq(|jobs|, i requires 0 <= i < |jobs| => if i in ids then ClaimedRow(jobs[i], now) else jobs[i])
  }

  function BatchOf(key: RepositoryKey, jobs: seq<Job>, ids: seq<nat>): Batch
    requires forall i :: i in ids ==> i < |jobs|
  {
    Batch(key, seq(|ids|, k requires 0 <= k < |ids| => assert ids[k] in ids; ClaimedJob(ids[k], jobs[ids[k]])))
  }

  predicate Stalled(job: Job, olderThan: nat, now: int) {
    job.status == Running && (job.startedAt.None? || job.startedAt.value < now - olderThan)
  }

  function ReclaimJobs(jobs: seq<Job>, olderThan: nat, now: int): seq<Job> {
    seq(|jobs|, i requires 0 <= i < |jobs| =>
      if Stalled(jobs[i], olderThan, now) then jobs[i].(status := Pending, startedAt := None) else jobs[i])
  }

  predicate Holds(jobs: seq<Job>, claimed: ClaimedJob) {
    claimed.id < |jobs| && jobs[claimed.id].status == Running
    && jobs[claimed.id].generation == claimed.job.generation
  }

  /** `_claims_are_current`: every row of the batch is still this holder's. */
  predicate ClaimsAreCurrent(jobs: seq<Job>, batch: Batch) {
    forall k :: 0 <= k < |batch.jobs| ==> Holds(jobs, batch.jobs[k])
  }

  function FailedRow(job: Job, error: string, maxAttempts: nat, now: int): Job {
    job.(status := if job.attempts + 1 >= maxAttempts then Failed else Pending,
         attempts := job.attempts + 1,
         startedAt := None,
         finishedAt := if job.attempts + 1 >= maxAttempts then Some(now) else None,
         error := Some(if |error| <= 1000 then error else error[..1000]))
  }

  function DoneRow(job: Job, now: int): Job {
    job.(status := Done, finishedAt := Some(now), error := None)
  }

  /** The batch position that holds row `id`. */
  ghost predicate InBatch(batch: Batch, id: nat) {
    exists k :: 0 <= k < |batch.jobs| && batch.jobs[k].id == id
  }

  function PositionOf(batch: Batch, id: nat): (r: Option<nat>)
    ensures r.None? <==> !InBatch(batch, id)
    ensures r.Some? ==> r.value < |batch.jobs| && batch.jobs[r.value].id == id
  {
    PositionFrom(batch, id, 0)
  }

  function PositionFrom(batch: Batch, id: nat, k: nat): (r: Option<nat>)
    requires k <= |batch.jobs|
    ensures r.None? <==> forall l :: k <= l < |batch.jobs| ==> batch.jobs[l].id != id
    ensures r.Some? ==> k <= r.value < |batch.jobs| && batch.jobs[r.value].id == id
    decreases |batch.jobs| - k
  {
    if k == |batch.jobs| then None
    else if batch.jobs[k].id == id then Some(k)
    else PositionFrom(batch, id, k + 1)
  }

  function FailJobs(jobs: seq<Job>, batch: Batch, error: string, maxAttempts: nat, now: int): seq<Job> {
    seq(|jobs|, i requires 0 <= i < |jobs| =>
      if PositionOf(batch, i).Some? then FailedRow(jobs[i], error, maxAttempts, now) else jobs[i])
  }

  function JobsOf(batch: Batch): seq<Job> {
    seq(|batch.jobs|, k requires 0 <= k < |batch.jobs| => batch.jobs[k].job)
  }

  /** What settlement makes of row `i`: done where its revert date parses, one attempt spent where it does not. */
  function SettledRow(job: Job, claimed: Job, reverts: RevertMap, now: int): Job {
    if Adjudicable(claimed, reverts) then DoneRow(job, now) 
    else FailedRow(job, RefusalOf(claimed, reverts).reason, MAX_ATTEMPTS, now)
  }

  function SettleJobs(jobs: seq<Job>, batch: Batch, reverts: RevertMap, now: int): seq<Job> {
    seq(|jobs|, i requires 0 <= i < |jobs| =>
      var at := PositionOf(batch, i);
      if at.Some? then SettledRow(jobs[i], batch.jobs[at.value].job, reverts, now) else jobs[i])
  }

  /** The (pr, sha, window) triples of `_identity`; within a batch the repository is fixed. */
  function Triples(identities: seq<Identity>): set<(int, string, int)> {
    set i | 0 <= i < |identities| :: (identities[i].pr, identities[i].mergeSha, identities[i].windowDays)
  }

  function Identities(jobs: seq<Job>): (r: seq<Identity>)
    ensures |r| == |jobs| && forall i :: 0 <= i < |jobs| ==> r[i] == jobs[i].identity
  {
    seq(|jobs|, i requires 0 <= i < |jobs| => jobs[i].identity)
  }

  function RefusedIdentities(refused: seq<Unadjudicable>): (r: seq<Identity>)
    ensures |r| == |refused| && forall i :: 0 <= i < |refused| ==> r[i] == refused[i].job.identity
  {
    seq(|refused|, i requires 0 <= i < |refused| => refused[i].job.identity)
  }

  function OutcomeIdentities(outcomes: seq<Outcome>): (r: seq<Identity>)
    ensures |r| == |outcomes| && forall i :: 0 <= i < |outcomes| ==> r[i] == outcomes[i].identity
  {
    seq(|outcomes|, i requires 0 <= i < |outcomes| => outcomes[i].identity)
  }

  /** settle_batch's ValueError guard: the adjudication covers every claimed job exactly once. */
  predicate Accounts(batch: Batch, rows: seq<Outcome>, refused: seq<Unadjudicable>) {
    var classified, rejected := Triples(OutcomeIdentities(rows)), Triples(RefusedIdentities(refused));
    Triples(Identities(JobsOf(batch))) == classified + rejected && classified * rejected == {}
  }

  /** The unique index over outcome identities. */
  predicate IndexAccepts(outcomes: seq<Outcome>) {
    forall p, q :: 0 <= p < q < |outcomes| ==> outcomes[p].identity != outcomes[q].identity
  }

  function Next(ledger: Ledger, step: Step): (Ledger, Reply) {
    match step
    case Enroll(identity, mergedAt, baseRef, dueAt, now) =>
      if exists i :: 0 <= i < |ledger.jobs| && ledger.jobs[i].identity == identity then (ledger, Enrolled(false))
      else (ledger.(jobs := ledger.jobs + [NewJob(identity, mergedAt, baseRef, dueAt, now)]), Enrolled(true))
    case Claim(key, now) =>
      var ids := DueIds(ledger.jobs, key, now, |ledger.jobs|);
      if ids == [] then (ledger, NothingDue)
      else
        var jobs := ClaimJobs(ledger.jobs, ids, now);
        (ledger.(jobs := jobs), Handed(BatchOf(key, jobs, ids)))
    case Reclaim(olderThan, now) => (ledger.(jobs := ReclaimJobs(ledger.jobs, olderThan, now)), Reclaimed)
    case FailBatch(batch, error, maxAttempts, now) =>
      if !ClaimsAreCurrent(ledger.jobs, batch) then (ledger, LostClaim)
      else (ledger.(jobs := FailJobs(ledger.jobs, batch, error, maxAttempts, now)), Spent(|batch.jobs|))
    case Settle(batch, reverts, defaultBranch, now) =>
      var rows, refused := Outcomes(JobsOf(batch), reverts, defaultBranch), Refused(JobsOf(batch), reverts);
      if !Accounts(batch, rows, refused) then (ledger, Unaccounted)
      else if !ClaimsAreCurrent(ledger.jobs, batch) then (ledger, LostClaim)
      else if !IndexAccepts(ledger.outcomes + rows) then (ledger, IndexViolation)
      else (Ledger(SettleJobs(ledger.jobs, batch, reverts, now), ledger.outcomes + rows), Settled(|rows|, |refused|))
  }

  // ---------------------------------------------------------------- runs

  /** The ledger, and every batch any worker was ever handed. */
  datatype World = World(ledger: Ledger, handed: set<Batch>)

  /** Workers act only on batches they were handed, however long ago. */
  ghost predicate Enabled(w: World, step: Step) {
    && (step.FailBatch? ==> step.failed in w.handed)
    && (step.Settle? ==> step.batch in w.handed)
  }

  ghost function Advance(w: World, step: Step): World {
    var (ledger, reply) := Next(w.ledger, step);
    World(ledger, if reply.Handed? then w.handed + {reply.batch} else w.handed)
  }

  ghost function At(w: World, steps: seq<Step>, k: nat): World
    requires k <= |steps|
  {
    if k == 0 then w else Advance(At(w, steps, k - 1), steps[k - 1])
  }

  /** Each of the first `k` steps was enabled when it was taken. */
  ghost predicate IsRun(w: World, steps: seq<Step>, k: nat)
    requires k <= |steps|
  {
    k > 0 ==> IsRun(w, steps, k - 1) && Enabled(At(w, steps, k - 1), steps[k - 1])
  }

  const EMPTY: World := World(Ledger([], []), {})

  /** A run starts where it starts, and every step of it is taken. */
  lemma RunGoesOn(w: World, steps: seq<Step>, k: nat)
    requires k < |steps|
    ensures At(w, steps, 0) == w && At(w, steps, k + 1) == Advance(At(w, steps, k), steps[k])
  {
    hide Advance;
  }

  /** A merged pull request is enrolled once: waiting, due when told, and never again under the same identity. */
  lemma EnrolledOnce(ledger: Ledger, identity: Identity, mergedAt: int, baseRef: string, dueAt: int, now: int)
    ensures var (later, reply) := Next(ledger, Enroll(identity, mergedAt, baseRef, dueAt, now));
            && later.outcomes == ledger.outcomes
            && (reply == Enrolled(false) <==> exists i :: 0 <= i < |ledger.jobs| && ledger.jobs[i].identity == identity)
            && (reply == Enrolled(false) ==> later == ledger)
            && (reply != Enrolled(false) ==>
                  reply == Enrolled(true)
                  && later.jobs == ledger.jobs + [Job(identity, mergedAt, baseRef, dueAt, now, Pending, 0, 0, None, None, None)])
  {
  }

  /** The guard passes exactly what decides every job of the batch, each once, and nothing else. */
  lemma AccountsExactlyWhen(batch: Batch, rows: seq<Outcome>, refused: seq<Unadjudicable>)
    ensures Accounts(batch, rows, refused) <==>
              forall t :: (t in Triples(Identities(JobsOf(batch))) <==> (t in Triples(OutcomeIdentities(rows)) || t in Triples(RefusedIdentities(refused))))
                          && !(t in Triples(OutcomeIdentities(rows)) && t in Triples(RefusedIdentities(refused)))
  {
    hide Triples;
    var jobs, classified, rejected := Triples(Identities(JobsOf(batch))), Triples(OutcomeIdentities(rows)), Triples(RefusedIdentities(refused));
    if forall t :: (t in jobs <==> (t in classified || t in rejected)) && !(t in classified && t in rejected) {
      assert jobs == classified + rejected && classified * rejected == {};
    }
    if Accounts(batch, rows, refused) {
      forall t ensures !(t in classified && t in rejected) {
        assert t !in classified * rejected;
      }
    }
  }

  // ---------------------------------------------------------- the invariant

  ghost predicate UniqueJobs(jobs: seq<Job>) {
    forall i, j :: 0 <= i < j < |jobs| ==> jobs[i].identity != jobs[j].identity
  }

  /** A handed batch names distinct rows, by their true identities, at generations already reached. */
  ghost predicate Genuine(jobs: seq<Job>, batch: Batch) {
    && (forall k :: 0 <= k < |batch.jobs| ==>
          && batch.jobs[k].id < |jobs|
          && batch.jobs[k].job.identity == jobs[batch.jobs[k].id].identity
          && batch.jobs[k].job.identity.installation == batch.key.installation
          && batch.jobs[k].job.identity.repo == batch.key.repo
          && 0 < batch.jobs[k].job.generation <= jobs[batch.jobs[k].id].generation)
    && (forall k, l :: 0 <= k < l < |batch.jobs| ==> batch.jobs[k].id != batch.jobs[l].id)
  }

  /** A job is done exactly when an outcome row carries its identity. */
  ghost predicate DoneIffPublished(ledger: Ledger) {
    && EveryRowHasAJob(ledger)
    && (forall i :: 0 <= i < |ledger.jobs| ==>
          (ledger.jobs[i].status == Done <==> ledger.jobs[i].identity in OutcomeIdentities(ledger.outcomes)))
  }

  ghost predicate EveryRowHasAJob(ledger: Ledger) {
    forall p :: 0 <= p < |ledger.outcomes| ==> HasJob(ledger.jobs, ledger.outcomes[p].identity)
  }

  ghost predicate HasJob(jobs: seq<Job>, identity: Identity) {
    exists i :: 0 <= i < |jobs| && jobs[i].identity == identity
  }

  /** Rows are never dropped and never change identity, so a named job stays named. */
  lemma JobStays(jobs: seq<Job>, later: seq<Job>, identity: Identity)
    requires HasJob(jobs, identity) && |jobs| <= |later|
    requires forall i :: 0 <= i < |jobs| ==> later[i].identity == jobs[i].identity
    ensures HasJob(later, identity)
  {
    var i :| 0 <= i < |jobs| && jobs[i].identity == identity;
    assert later[i].identity == identity;
  }

  ghost predicate Inv(w: World) {
    && UniqueJobs(w.ledger.jobs)
    && IndexAccepts(w.ledger.outcomes)
    && DoneIffPublished(w.ledger)
    && (forall batch :: batch in w.handed ==> Genuine(w.ledger.jobs, batch))
  }

  /** What one step may make of a row: its identity stays, its generation grows, and a final row is frozen. */
  ghost predicate Follows(earlier: Job, later: Job) {
    && later.identity == earlier.identity
    && later.generation >= earlier.generation
    && (earlier.status == Done ==> later == earlier)
    && (earlier.status == Failed ==> later == earlier)
    && (later.status == Running && earlier.status != Running ==> later.generation > earlier.generation)
  }

  lemma FailedRowFollows(jobs: seq<Job>, batch: Batch, error: string, maxAttempts: nat, now: int, i: nat)
    requires i < |jobs| && ClaimsAreCurrent(jobs, batch)
    ensures var later := FailJobs(jobs, batch, error, maxAttempts, now)[i];
            Follows(jobs[i], later) && (later.status == Done ==> jobs[i].status == Done)
  {
    var at := PositionOf(batch, i);
    assert at.Some? ==> Holds(jobs, batch.jobs[at.value]);
  }

  lemma SettledRowFollows(jobs: seq<Job>, batch: Batch, reverts: RevertMap, now: int, i: nat)
    requires i < |jobs| && ClaimsAreCurrent(jobs, batch)
    ensures Follows(jobs[i], SettleJobs(jobs, batch, reverts, now)[i])
  {
    hide Adjudicable, RefusalOf;
    var at := PositionOf(batch, i);
    assert at.Some? ==> Holds(jobs, batch.jobs[at.value]);
  }

  /** What one step may do to a row that already exists. */
  lemma StepKeeps(ledger: Ledger, step: Step, i: nat)
    requires i < |ledger.jobs|
    ensures var jobs := Next(ledger, step).0.jobs;
            && |jobs| >= |ledger.jobs|
            && Follows(ledger.jobs[i], jobs[i])
            && (!step.Settle? && jobs[i].status == Done ==> ledger.jobs[i].status == Done)
  {
    hide FailedRow, SettledRow, PositionOf, DueIds, Accounts, IndexAccepts, Outcomes, Refused;
    if step.FailBatch? && ClaimsAreCurrent(ledger.jobs, step.failed) {
      FailedRowFollows(ledger.jobs, step.failed, step.error, step.maxAttempts, step.now, i);
    }
    if step.Settle? && ClaimsAreCurrent(ledger.jobs, step.batch) {
      SettledRowFollows(ledger.jobs, step.batch, step.reverts, step.now, i);
    }
    hide ClaimsAreCurrent;
  }

  lemma GenuineStays(ledger: Ledger, step: Step, batch: Batch)
    requires Genuine(ledger.jobs, batch)
    ensures Genuine(Next(ledger, step).0.jobs, batch)
  {
    forall k | 0 <= k < |batch.jobs| ensures var c, jobs := batch.jobs[k], Next(ledger, step).0.jobs;
        c.id < |jobs| && c.job.identity == jobs[c.id].identity && 0 < c.job.generation <= jobs[c.id].generation {
      StepKeeps(ledger, step, batch.jobs[k].id);
    }
  }

  // ------------------------------------------------------ settlement is sound

  lemma RowSource(batch: Batch, reverts: RevertMap, defaultBranch: Option<string>, p: nat) returns (k: nat)
    requires p < |Outcomes(JobsOf(batch), reverts, defaultBranch)|
    ensures k < |batch.jobs| && k == Positions(JobsOf(batch), reverts, true)[p]
    ensures Adjudicable(batch.jobs[k].job, reverts)
    ensures Outcomes(JobsOf(batch), reverts, defaultBranch)[p].identity == batch.jobs[k].job.identity
  {
    k := Positions(JobsOf(batch), reverts, true)[p];
    assert JobsOf(batch)[k] == batch.jobs[k].job;
  }

  lemma RowTarget(batch: Batch, reverts: RevertMap, defaultBranch: Option<string>, k: nat) returns (p: nat)
    requires k < |batch.jobs| && Adjudicable(batch.jobs[k].job, reverts)
    ensures p < |Outcomes(JobsOf(batch), reverts, defaultBranch)|
    ensures Outcomes(JobsOf(batch), reverts, defaultBranch)[p].identity == batch.jobs[k].job.identity
  {
    assert JobsOf(batch)[k] == batch.jobs[k].job;
    var at := Positions(JobsOf(batch), reverts, true);
    p :| 0 <= p < |at| && at[p] == k;
  }

  lemma RefusalSource(batch: Batch, reverts: RevertMap, p: nat) returns (k: nat)
    requires p < |Refused(JobsOf(batch), reverts)|
    ensures k < |batch.jobs| && !Adjudicable(batch.jobs[k].job, reverts)
    ensures k == Positions(JobsOf(batch), reverts, false)[p]
    ensures Refused(JobsOf(batch), reverts)[p] == RefusalOf(batch.jobs[k].job, reverts)
  {
    k := Positions(JobsOf(batch), reverts, false)[p];
    assert JobsOf(batch)[k] == batch.jobs[k].job;
  }

  lemma RefusalTarget(batch: Batch, reverts: RevertMap, k: nat) returns (p: nat)
    requires k < |batch.jobs| && !Adjudicable(batch.jobs[k].job, reverts)
    ensures p < |Refused(JobsOf(batch), reverts)|
    ensures Refused(JobsOf(batch), reverts)[p].job == batch.jobs[k].job
  {
    assert JobsOf(batch)[k] == batch.jobs[k].job;
    var at := Positions(JobsOf(batch), reverts, false);
    p :| 0 <= p < |at| && at[p] == k;
  }

  /** In a genuine batch one identity triple names one position. */
  lemma TripleNamesOnePosition(jobs: seq<Job>, batch: Batch, k: nat, l: nat)
    requires UniqueJobs(jobs) && Genuine(jobs, batch) && k < |batch.jobs| && l < |batch.jobs|
    requires batch.jobs[k].job.identity.pr == batch.jobs[l].job.identity.pr
    requires batch.jobs[k].job.identity.mergeSha == batch.jobs[l].job.identity.mergeSha
    requires batch.jobs[k].job.identity.windowDays == batch.jobs[l].job.identity.windowDays
    ensures k == l
  {
    assert batch.jobs[k].job.identity == batch.jobs[l].job.identity;
  }

  predicate TripleAt(batch: Batch, k: nat, t: (int, string, int)) {
    k < |batch.jobs| && t == (batch.jobs[k].job.identity.pr, batch.jobs[k].job.identity.mergeSha, batch.jobs[k].job.identity.windowDays)
  }

  lemma TriplesOfBatch(batch: Batch, t: (int, string, int))
    ensures t in Triples(Identities(JobsOf(batch))) <==> exists k: nat :: TripleAt(batch, k, t)
  {
    var ids := Identities(JobsOf(batch));
    if exists k: nat :: TripleAt(batch, k, t) {
      var k: nat :| TripleAt(batch, k, t);
      assert (ids[k].pr, ids[k].mergeSha, ids[k].windowDays) == t;
    }
    if t in Triples(ids) {
      var i :| 0 <= i < |ids| && t == (ids[i].pr, ids[i].mergeSha, ids[i].windowDays);
      assert TripleAt(batch, i, t);
    }
  }

  lemma TriplesOfRows(batch: Batch, reverts: RevertMap, defaultBranch: Option<string>, t: (int, string, int))
    ensures t in Triples(OutcomeIdentities(Outcomes(JobsOf(batch), reverts, defaultBranch)))
      <==> exists k: nat :: TripleAt(batch, k, t) && Adjudicable(batch.jobs[k].job, reverts)
  {
    var ids := OutcomeIdentities(Outcomes(JobsOf(batch), reverts, defaultBranch));
    if exists k: nat :: TripleAt(batch, k, t) && Adjudicable(batch.jobs[k].job, reverts) {
      var k: nat :| TripleAt(batch, k, t) && Adjudicable(batch.jobs[k].job, reverts);
      var p := RowTarget(batch, reverts, defaultBranch, k);
      assert (ids[p].pr, ids[p].mergeSha, ids[p].windowDays) == t;
    }
    if t in Triples(ids) {
      var i :| 0 <= i < |ids| && t == (ids[i].pr, ids[i].mergeSha, ids[i].windowDays);
      var k := RowSource(batch, reverts, defaultBranch, i);
      assert TripleAt(batch, k, t);
    }
  }

  lemma TriplesOfRefusals(batch: Batch, reverts: RevertMap, t: (int, string, int))
    ensures t in Triples(RefusedIdentities(Refused(JobsOf(batch), reverts)))
      <==> exists k: nat :: TripleAt(batch, k, t) && !Adjudicable(batch.jobs[k].job, reverts)
  {
    var ids := RefusedIdentities(Refused(JobsOf(batch), reverts));
    if exists k: nat :: TripleAt(batch, k, t) && !Adjudicable(batch.jobs[k].job, reverts) {
      var k: nat :| TripleAt(batch, k, t) && !Adjudicable(batch.jobs[k].job, reverts);
      var p := RefusalTarget(batch, reverts, k);
      assert (ids[p].pr, ids[p].mergeSha, ids[p].windowDays) == t;
    }
    if t in Triples(ids) {
      var i :| 0 <= i < |ids| && t == (ids[i].pr, ids[i].mergeSha, ids[i].windowDays);
      var k := RefusalSource(batch, reverts, i);
      assert TripleAt(batch, k, t);
    }
  }

  /** The adjudicator's two lists always account for a handed batch: the ValueError is never raised. */
  lemma AdjudicationAccountsForBatch(jobs: seq<Job>, batch: Batch, reverts: RevertMap, defaultBranch: Option<string>)
    requires UniqueJobs(jobs) && Genuine(jobs, batch)
    ensures Accounts(batch, Outcomes(JobsOf(batch), reverts, defaultBranch), Refused(JobsOf(batch), reverts))
  {
    var classified := Triples(OutcomeIdentities(Outcomes(JobsOf(batch), reverts, defaultBranch)));
    var rejected := Triples(RefusedIdentities(Refused(JobsOf(batch), reverts)));
    forall t ensures t in Triples(Identities(JobsOf(batch))) <==> t in classified + rejected {
      TriplesOfBatch(batch, t);
      TriplesOfRows(batch, reverts, defaultBranch, t);
      TriplesOfRefusals(batch, reverts, t);
    }
    forall t | t in classified ensures t !in rejected {
      TriplesOfRows(batch, reverts, defaultBranch, t);
      TriplesOfRefusals(batch, reverts, t);
      var k: nat :| TripleAt(batch, k, t) && Adjudicable(batch.jobs[k].job, reverts);
      forall l: nat | TripleAt(batch, l, t) ensures l == k {
        TripleNamesOnePosition(jobs, batch, k, l);
      }
    }
    assert Triples(Identities(JobsOf(batch))) == classified + rejected;
    assert classified * rejected == {};
  }

  /** A row about to be written carries an identity no written row carries. */
  lemma RowIsUnpublished(ledger: Ledger, batch: Batch, reverts: RevertMap, defaultBranch: Option<string>, q: nat)
    requires Genuine(ledger.jobs, batch) && DoneIffPublished(ledger) && ClaimsAreCurrent(ledger.jobs, batch)
    requires q < |Outcomes(JobsOf(batch), reverts, defaultBranch)|
    ensures Outcomes(JobsOf(batch), reverts, defaultBranch)[q].identity !in OutcomeIdentities(ledger.outcomes)
  {
    var l := RowSource(batch, reverts, defaultBranch, q);
    assert Holds(ledger.jobs, batch.jobs[l]);
  }

  lemma RowsAreDistinct(jobs: seq<Job>, batch: Batch, reverts: RevertMap, defaultBranch: Option<string>, p: nat, q: nat)
    requires UniqueJobs(jobs) && Genuine(jobs, batch)
    requires p < q < |Outcomes(JobsOf(batch), reverts, defaultBranch)|
    ensures Outcomes(JobsOf(batch), reverts, defaultBranch)[p].identity
         != Outcomes(JobsOf(batch), reverts, defaultBranch)[q].identity
  {
    var k := RowSource(batch, reverts, defaultBranch, p);
    var l := RowSource(batch, reverts, defaultBranch, q);
    if batch.jobs[k].job.identity == batch.jobs[l].job.identity {
      TripleNamesOnePosition(jobs, batch, k, l);
    }
  }

  lemma RowsAreNew(ledger: Ledger, batch: Batch, reverts: RevertMap, defaultBranch: Option<string>, p: nat, q: nat)
    requires UniqueJobs(ledger.jobs) && Genuine(ledger.jobs, batch)
    requires IndexAccepts(ledger.outcomes) && DoneIffPublished(ledger) && ClaimsAreCurrent(ledger.jobs, batch)
    requires p < q < |ledger.outcomes + Outcomes(JobsOf(batch), reverts, defaultBranch)|
    ensures (ledger.outcomes + Outcomes(JobsOf(batch), reverts, defaultBranch))[p].identity
         != (ledger.outcomes + Outcomes(JobsOf(batch), reverts, defaultBranch))[q].identity
  {
    var n := |ledger.outcomes|;
    if n <= p {
      RowsAreDistinct(ledger.jobs, batch, reverts, defaultBranch, p - n, q - n);
    } else if n <= q {
      RowIsUnpublished(ledger, batch, reverts, defaultBranch, q - n);
      assert OutcomeIdentities(ledger.outcomes)[p] == ledger.outcomes[p].identity;
    }
  }

  /** The unique index never rejects what a current batch settles. */
  lemma IndexIsNeverHit(ledger: Ledger, batch: Batch, reverts: RevertMap, defaultBranch: Option<string>)
    requires UniqueJobs(ledger.jobs) && Genuine(ledger.jobs, batch)
    requires IndexAccepts(ledger.outcomes) && DoneIffPublished(ledger)
    requires ClaimsAreCurrent(ledger.jobs, batch)
    ensures IndexAccepts(ledger.outcomes + Outcomes(JobsOf(batch), reverts, defaultBranch))
  {
    var all := ledger.outcomes + Outcomes(JobsOf(batch), reverts, defaultBranch);
    forall p, q | 0 <= p < q < |all| ensures all[p].identity != all[q].identity {
      RowsAreNew(ledger, batch, reverts, defaultBranch, p, q);
    }
  }

  lemma SettledDoneIsWritten(ledger: Ledger, batch: Batch, reverts: RevertMap, defaultBranch: Option<string>, now: int, i: nat)
    requires i < |ledger.jobs| && Genuine(ledger.jobs, batch) && ClaimsAreCurrent(ledger.jobs, batch)
    requires SettleJobs(ledger.jobs, batch, reverts, now)[i].status == Done
    ensures ledger.jobs[i].status == Done
            || ledger.jobs[i].identity in OutcomeIdentities(Outcomes(JobsOf(batch), reverts, defaultBranch))
  {
    var at := PositionOf(batch, i);
    if at.Some? {
      assert Holds(ledger.jobs, batch.jobs[at.value]);
      var p := RowTarget(batch, reverts, defaultBranch, at.value);
      assert OutcomeIdentities(Outcomes(JobsOf(batch), reverts, defaultBranch))[p] == ledger.jobs[i].identity;
    }
  }

  lemma WrittenRowIsDone(ledger: Ledger, batch: Batch, reverts: RevertMap, defaultBranch: Option<string>, now: int, i: nat, p: nat)
    requires i < |ledger.jobs| && p < |Outcomes(JobsOf(batch), reverts, defaultBranch)|
    requires UniqueJobs(ledger.jobs) && Genuine(ledger.jobs, batch)
    requires Outcomes(JobsOf(batch), reverts, defaultBranch)[p].identity == ledger.jobs[i].identity
    ensures SettleJobs(ledger.jobs, batch, reverts, now)[i].status == Done
  {
    var k := RowSource(batch, reverts, defaultBranch, p);
    assert batch.jobs[k].id == i;
    TripleNamesOnePosition(ledger.jobs, batch, PositionOf(batch, i).value, k);
  }

  lemma SettledRowIsDoneIffWritten(ledger: Ledger, batch: Batch, reverts: RevertMap, defaultBranch: Option<string>, now: int, i: nat)
    requires i < |ledger.jobs|
    requires UniqueJobs(ledger.jobs) && Genuine(ledger.jobs, batch) && ClaimsAreCurrent(ledger.jobs, batch)
    ensures SettleJobs(ledger.jobs, batch, reverts, now)[i].status == Done
      <==> ledger.jobs[i].status == Done
           || ledger.jobs[i].identity in OutcomeIdentities(Outcomes(JobsOf(batch), reverts, defaultBranch))
    ensures SettleJobs(ledger.jobs, batch, reverts, now)[i].identity == ledger.jobs[i].identity
  {
    var ids := OutcomeIdentities(Outcomes(JobsOf(batch), reverts, defaultBranch));
    assert PositionOf(batch, i).Some? ==> Holds(ledger.jobs, batch.jobs[PositionOf(batch, i).value]);
    if SettleJobs(ledger.jobs, batch, reverts, now)[i].status == Done {
      SettledDoneIsWritten(ledger, batch, reverts, defaultBranch, now, i);
    } else if ledger.jobs[i].identity in ids {
      var p :| 0 <= p < |ids| && ids[p] == ledger.jobs[i].identity;
      WrittenRowIsDone(ledger, batch, reverts, defaultBranch, now, i, p);
    }
  }

  lemma SettledRowHasAJob(jobs: seq<Job>, batch: Batch, reverts: RevertMap, defaultBranch: Option<string>, p: nat)
    requires Genuine(jobs, batch) && p < |Outcomes(JobsOf(batch), reverts, defaultBranch)|
    ensures HasJob(jobs, Outcomes(JobsOf(batch), reverts, defaultBranch)[p].identity)
  {
    var k := RowSource(batch, reverts, defaultBranch, p);
    assert jobs[batch.jobs[k].id].identity == batch.jobs[k].job.identity;
  }

  lemma RowsHaveJobs(outcomes: seq<Outcome>, rows: seq<Outcome>, jobs: seq<Job>, later: seq<Job>)
    requires forall p :: 0 <= p < |outcomes| ==> HasJob(jobs, outcomes[p].identity)
    requires forall p :: 0 <= p < |rows| ==> HasJob(jobs, rows[p].identity)
    requires |jobs| <= |later| && forall i :: 0 <= i < |jobs| ==> later[i].identity == jobs[i].identity
    ensures EveryRowHasAJob(Ledger(later, outcomes + rows))
  {
    forall p | 0 <= p < |outcomes + rows| ensures HasJob(later, (outcomes + rows)[p].identity) {
      JobStays(jobs, later, if p < |outcomes| then outcomes[p].identity else rows[p - |outcomes|].identity);
    }
  }

  lemma SettlementKeepsRowsHaveJobs(ledger: Ledger, batch: Batch, reverts: RevertMap, defaultBranch: Option<string>, now: int)
    requires Genuine(ledger.jobs, batch) && EveryRowHasAJob(ledger)
    ensures EveryRowHasAJob(Ledger(SettleJobs(ledger.jobs, batch, reverts, now),
                                   ledger.outcomes + Outcomes(JobsOf(batch), reverts, defaultBranch)))
  {
    var rows := Outcomes(JobsOf(batch), reverts, defaultBranch);
    forall p | 0 <= p < |rows| ensures HasJob(ledger.jobs, rows[p].identity) {
      SettledRowHasAJob(ledger.jobs, batch, reverts, defaultBranch, p);
    }
    RowsHaveJobs(ledger.outcomes, rows, ledger.jobs, SettleJobs(ledger.jobs, batch, reverts, now));
  }

  lemma SettlementKeepsDoneIffPublished(ledger: Ledger, batch: Batch, reverts: RevertMap, defaultBranch: Option<string>, now: int)
    requires UniqueJobs(ledger.jobs) && Genuine(ledger.jobs, batch)
    requires DoneIffPublished(ledger) && ClaimsAreCurrent(ledger.jobs, batch)
    ensures DoneIffPublished(Ledger(SettleJobs(ledger.jobs, batch, reverts, now),
                                    ledger.outcomes + Outcomes(JobsOf(batch), reverts, defaultBranch)))
  {
    var rows, jobs := Outcomes(JobsOf(batch), reverts, defaultBranch), SettleJobs(ledger.jobs, batch, reverts, now);
    SettlementKeepsRowsHaveJobs(ledger, batch, reverts, defaultBranch, now);
    assert OutcomeIdentities(ledger.outcomes + rows) == OutcomeIdentities(ledger.outcomes) + OutcomeIdentities(rows);
    assert |jobs| == |ledger.jobs|;
    hide Genuine, UniqueJobs, ClaimsAreCurrent, SettleJobs, Outcomes, EveryRowHasAJob, OutcomeIdentities;
    forall i | 0 <= i < |jobs|
      ensures jobs[i].status == Done <==> jobs[i].identity in OutcomeIdentities(ledger.outcomes + rows)
    {
      SettledRowIsDoneIffWritten(ledger, batch, reverts, defaultBranch, now, i);
    }
  }

  // ------------------------------------------------------------ every run

  lemma ClaimIsGenuine(ledger: Ledger, key: RepositoryKey, now: int)
    requires Next(ledger, Claim(key, now)).1.Handed?
    ensures Genuine(Next(ledger, Claim(key, now)).0.jobs, Next(ledger, Claim(key, now)).1.batch)
    ensures ClaimsAreCurrent(Next(ledger, Claim(key, now)).0.jobs, Next(ledger, Claim(key, now)).1.batch)
  {
    hide DueIds;
    var ids := DueIds(ledger.jobs, key, now, |ledger.jobs|);
    assert forall k :: 0 <= k < |ids| ==> ids[k] in ids && Claimable(ledger.jobs[ids[k]], key, now);
    assert forall k, l :: 0 <= k < l < |ids| ==> DueBefore(ledger.jobs, ids[k], ids[l]);
    ClaimedBatch(key, ledger.jobs, ids, now);
    hide Genuine, ClaimsAreCurrent, ClaimJobs, BatchOf, Claimable, DueBefore;
  }

  lemma ClaimedBatch(key: RepositoryKey, jobs: seq<Job>, ids: seq<nat>, now: int)
    requires forall i :: i in ids ==> i < |jobs|
    requires forall k :: 0 <= k < |ids| ==> ids[k] in ids && Claimable(jobs[ids[k]], key, now)
    requires forall k, l :: 0 <= k < l < |ids| ==> DueBefore(jobs, ids[k], ids[l])
    ensures var claimed := ClaimJobs(jobs, ids, now);
            Genuine(claimed, BatchOf(key, claimed, ids)) && ClaimsAreCurrent(claimed, BatchOf(key, claimed, ids))
  {
  }

  /** A step that publishes nothing and finishes nothing keeps jobs and outcomes in step. */
  lemma UnsettledStepKeepsDoneIffPublished(ledger: Ledger, step: Step)
    requires DoneIffPublished(ledger) && !step.Settle?
    ensures DoneIffPublished(Next(ledger, step).0)
  {
    var next := Next(ledger, step).0;
    assert next.outcomes == ledger.outcomes;
    forall i | 0 <= i < |ledger.jobs| ensures next.jobs[i].identity == ledger.jobs[i].identity {
      StepKeeps(ledger, step, i);
    }
    forall p | 0 <= p < |next.outcomes| ensures HasJob(next.jobs, next.outcomes[p].identity) {
      JobStays(ledger.jobs, next.jobs, ledger.outcomes[p].identity);
    }
    forall i | 0 <= i < |next.jobs|
      ensures next.jobs[i].status == Done <==> next.jobs[i].identity in OutcomeIdentities(next.outcomes)
    {
      if i < |ledger.jobs| {
        StepKeeps(ledger, step, i);
      }
    }
  }

  lemma StepKeepsUniqueJobs(ledger: Ledger, step: Step)
    requires UniqueJobs(ledger.jobs)
    ensures UniqueJobs(Next(ledger, step).0.jobs)
  {
    var jobs := Next(ledger, step).0.jobs;
    forall i | 0 <= i < |ledger.jobs| ensures jobs[i].identity == ledger.jobs[i].identity {
      StepKeeps(ledger, step, i);
    }
  }

  lemma StepKeepsInv(w: World, step: Step)
    requires Inv(w) && Enabled(w, step)
    ensures Inv(Advance(w, step))
    ensures !Next(w.ledger, step).1.Unaccounted? && !Next(w.ledger, step).1.IndexViolation?
  {
    StepKeepsUniqueJobs(w.ledger, step);
    forall batch | batch in w.handed ensures Genuine(Advance(w, step).ledger.jobs, batch) {
      GenuineStays(w.ledger, step, batch);
    }
    if step.Claim? && Next(w.ledger, step).1.Handed? {
      ClaimIsGenuine(w.ledger, step.key, step.now);
    }
    if step.Settle? {
      AdjudicationAccountsForBatch(w.ledger.jobs, step.batch, step.reverts, step.defaultBranch);
      if ClaimsAreCurrent(w.ledger.jobs, step.batch) {
        IndexIsNeverHit(w.ledger, step.batch, step.reverts, step.defaultBranch);
        SettlementKeepsDoneIffPublished(w.ledger, step.batch, step.reverts, step.defaultBranch, step.now);
      }
    } else {
      UnsettledStepKeepsDoneIffPublished(w.ledger, step);
    }
  }

  /** Every reachable world is consistent. */
  lemma {:induction false} EveryReachableLedgerIsConsistent(steps: seq<Step>, k: nat)
    requires k <= |steps| && IsRun(EMPTY, steps, k)
    ensures Inv(At(EMPTY, steps, k))
  {
    if k > 0 {
      EveryReachableLedgerIsConsistent(steps, k - 1);
      StepKeepsInv(At(EMPTY, steps, k - 1), steps[k - 1]);
    }
  }

  /** No run ever meets the ValueError or the unique index. */
  lemma NoRunMeetsTheIndex(steps: seq<Step>, k: nat)
    requires k < |steps| && IsRun(EMPTY, steps, k + 1)
    ensures !Next(At(EMPTY, steps, k).ledger, steps[k]).1.Unaccounted?
    ensures !Next(At(EMPTY, steps, k).ledger, steps[k]).1.IndexViolation?
  {
    EveryReachableLedgerIsConsistent(steps, k);
    StepKeepsInv(At(EMPTY, steps, k), steps[k]);
  }

  ghost predicate Publishes(ledger: Ledger, i: nat, p: nat) {
    i < |ledger.jobs| && p < |ledger.outcomes| && ledger.outcomes[p].identity == ledger.jobs[i].identity
  }

  /** A job is done if and only if exactly one outcome row carries its identity. */
  lemma DoneMeansExactlyOneOutcome(steps: seq<Step>, k: nat, i: nat)
    requires k <= |steps| && IsRun(EMPTY, steps, k)
    requires i < |At(EMPTY, steps, k).ledger.jobs|
    ensures var ledger := At(EMPTY, steps, k).ledger;
            ledger.jobs[i].status == Done
            <==> exists p: nat :: Publishes(ledger, i, p) && forall q: nat :: Publishes(ledger, i, q) ==> q == p
  {
    EveryReachableLedgerIsConsistent(steps, k);
    var ledger := At(EMPTY, steps, k).ledger;
    var ids := OutcomeIdentities(ledger.outcomes);
    if ledger.jobs[i].status == Done {
      var p :| 0 <= p < |ids| && ids[p] == ledger.jobs[i].identity;
      assert Publishes(ledger, i, p);
      forall q: nat | Publishes(ledger, i, q) ensures q == p {
        assert ledger.outcomes[p].identity == ledger.outcomes[q].identity;
      }
    } else {
      assert forall p: nat :: p < |ids| ==> ids[p] in ids;
    }
  }

  function DoneIds(ledger: Ledger): set<nat> {
    set i: nat | i < |ledger.jobs| && ledger.jobs[i].status == Done
  }

  function OfKind(outcomes: seq<Outcome>, kind: Kind): set<nat> {
    set p: nat | p < |outcomes| && outcomes[p].kind == kind
  }

  lemma OneMoreOfKind(outcomes: seq<Outcome>, row: Outcome, kind: Kind)
    ensures |OfKind(outcomes + [row], kind)| == |OfKind(outcomes, kind)| + if row.kind == kind then 1 else 0
  {
    assert OfKind(outcomes + [row], kind) == OfKind(outcomes, kind) + if row.kind == kind then {|outcomes| as nat} else {};
  }

  lemma {:induction false} KindsPartitionRows(outcomes: seq<Outcome>)
    ensures |OfKind(outcomes, Revert)| + |OfKind(outcomes, Clean)| + |OfKind(outcomes, Censored)| == |outcomes|
  {
    if |outcomes| > 0 {
      var front, row := outcomes[..|outcomes| - 1], outcomes[|outcomes| - 1];
      KindsPartitionRows(front);
      assert outcomes == front + [row];
      OneMoreOfKind(front, row, Revert);
      OneMoreOfKind(front, row, Clean);
      OneMoreOfKind(front, row, Censored);
    }
  }

  function RowNumbers(outcomes: seq<Outcome>): set<nat> {
    set p: nat | p < |outcomes| && outcomes[p] == outcomes[p]
  }

  lemma RowNumbersAre(outcomes: seq<Outcome>)
    ensures forall p: nat :: p in RowNumbers(outcomes) <==> p < |outcomes|
  {
  }

  lemma {:induction false} RowNumbersCount(outcomes: seq<Outcome>)
    ensures |RowNumbers(outcomes)| == |outcomes|
  {
    if |outcomes| > 0 {
      RowNumbersCount(outcomes[..|outcomes| - 1]);
      assert RowNumbers(outcomes) == RowNumbers(outcomes[..|outcomes| - 1]) + {|outcomes| - 1 as nat};
    }
  }

  function DoneIdentities(ledger: Ledger): set<Identity> {
    set i: nat | i in DoneIds(ledger) :: ledger.jobs[i].identity
  }

  lemma DoneJobsAreNamedOnce(ledger: Ledger)
    requires UniqueJobs(ledger.jobs)
    ensures |DoneIds(ledger)| == |DoneIdentities(ledger)|
  {
    var named := map i | i in DoneIds(ledger) :: ledger.jobs[i].identity;
    BijectionCardinality(DoneIds(ledger), DoneIdentities(ledger), named);
  }

  lemma RowNamesADoneJob(ledger: Ledger, p: nat)
    requires DoneIffPublished(ledger) && p < |ledger.outcomes|
    ensures ledger.outcomes[p].identity in DoneIdentities(ledger)
  {
    var ids := OutcomeIdentities(ledger.outcomes);
    assert HasJob(ledger.jobs, ledger.outcomes[p].identity);
    var i: nat :| i < |ledger.jobs| && ledger.jobs[i].identity == ids[p];
    assert ids[p] in ids;
    assert i in DoneIds(ledger);
  }

  lemma DoneJobIsNamed(ledger: Ledger, identity: Identity) returns (p: nat)
    requires DoneIffPublished(ledger) && identity in DoneIdentities(ledger)
    ensures p < |ledger.outcomes| && ledger.outcomes[p].identity == identity
  {
    var ids := OutcomeIdentities(ledger.outcomes);
    p :| p < |ids| && ids[p] == identity;
  }

  lemma RowsNameDoneJobs(ledger: Ledger)
    requires IndexAccepts(ledger.outcomes) && DoneIffPublished(ledger)
    ensures |ledger.outcomes| == |DoneIdentities(ledger)|
  {
    var named := NamesOfRows(ledger);
    hide DoneIffPublished, DoneIdentities, RowNumbers, IndexAccepts;
    RowNumbersCount(ledger.outcomes);
    BijectionCardinality(RowNumbers(ledger.outcomes), DoneIdentities(ledger), named);
  }

  /** Row numbers and done identities correspond one to one. */
  lemma NamesOfRows(ledger: Ledger) returns (named: map<nat, Identity>)
    requires IndexAccepts(ledger.outcomes) && DoneIffPublished(ledger)
    ensures named.Keys == RowNumbers(ledger.outcomes)
    ensures forall p :: p in named ==> named[p] in DoneIdentities(ledger)
    ensures forall p, q :: p in named && q in named && named[p] == named[q] ==> p == q
    ensures forall identity :: identity in DoneIdentities(ledger) ==> exists p :: p in named && named[p] == identity
  {
    hide DoneIffPublished, DoneIdentities, RowNumbers;
    RowNumbersAre(ledger.outcomes);
    var rows := RowNumbers(ledger.outcomes);
    named := map p | p in rows :: ledger.outcomes[p].identity;
    forall p | p in rows ensures named[p] in DoneIdentities(ledger) {
      RowNamesADoneJob(ledger, p);
    }
    forall identity | identity in DoneIdentities(ledger) ensures exists p :: p in named && named[p] == identity {
      var p := DoneJobIsNamed(ledger, identity);
      assert p in rows && named[p] == identity;
    }
  }

  /** The published numerator and denominator never part company. */
  lemma DoneCountEqualsPublishedCount(steps: seq<Step>, k: nat)
    requires k <= |steps| && IsRun(EMPTY, steps, k)
    ensures var ledger := At(EMPTY, steps, k).ledger;
            |DoneIds(ledger)|
            == |OfKind(ledger.outcomes, Revert)| + |OfKind(ledger.outcomes, Clean)| + |OfKind(ledger.outcomes, Censored)|
  {
    EveryReachableLedgerIsConsistent(steps, k);
    var ledger := At(EMPTY, steps, k).ledger;
    DoneJobsAreNamedOnce(ledger);
    RowsNameDoneJobs(ledger);
    KindsPartitionRows(ledger.outcomes);
  }

  // ------------------------------------------------------ the fence over runs

  lemma {:induction false} RunKeeps(w: World, steps: seq<Step>, p: nat, q: nat, i: nat)
    requires p <= q <= |steps| && i < |At(w, steps, p).ledger.jobs|
    ensures At(w, steps, p).handed <= At(w, steps, q).handed
    ensures i < |At(w, steps, q).ledger.jobs|
    ensures var earlier, later := At(w, steps, p).ledger.jobs[i], At(w, steps, q).ledger.jobs[i];
            && later.identity == earlier.identity
            && later.generation >= earlier.generation
            && (earlier.status == Done || earlier.status == Failed ==> later == earlier)
            && (later.status == Running && earlier.status != Running ==> later.generation > earlier.generation)
  {
    hide Next;
    if p < q {
      RunKeeps(w, steps, p, q - 1, i);
      StepKeeps(At(w, steps, q - 1).ledger, steps[q - 1], i);
    }
  }

  /** Done and failed are absorbing: the whole row is frozen. */
  lemma TerminalIsAbsorbing(w: World, steps: seq<Step>, p: nat, q: nat, i: nat)
    requires p <= q <= |steps| && i < |At(w, steps, p).ledger.jobs|
    requires At(w, steps, p).ledger.jobs[i].status in {Done, Failed}
    ensures i < |At(w, steps, q).ledger.jobs|
    ensures At(w, steps, q).ledger.jobs[i] == At(w, steps, p).ledger.jobs[i]
  {
    RunKeeps(w, steps, p, q, i);
  }

  ghost predicate Uses(step: Step, batch: Batch) {
    (step.FailBatch? && step.failed == batch) || (step.Settle? && step.batch == batch)
  }

  /** A batch with any lost claim is dead: at every later point it changes nothing. */
  lemma LostBatchChangesNothing(steps: seq<Step>, p: nat, q: nat, batch: Batch)
    requires p <= q < |steps| && IsRun(EMPTY, steps, q + 1)
    requires batch in At(EMPTY, steps, p).handed && Uses(steps[q], batch)
    requires !ClaimsAreCurrent(At(EMPTY, steps, p).ledger.jobs, batch)
    ensures Next(At(EMPTY, steps, q).ledger, steps[q]) == (At(EMPTY, steps, q).ledger, LostClaim)
  {
    hide Next, ClaimsAreCurrent, IsRun, Uses, Genuine, IndexAccepts, UniqueJobs, DoneIffPublished;
    RunPrefix(steps, p, q + 1);
    EveryReachableLedgerIsConsistent(steps, p);
    LostClaimStaysLost(steps, p, q, batch);
    HandedBatchReply(steps, q, batch);
    EffectNeedsClaims(At(EMPTY, steps, q).ledger, steps[q], batch);
  }

  lemma EffectNeedsClaims(ledger: Ledger, step: Step, batch: Batch)
    requires Uses(step, batch) && !ClaimsAreCurrent(ledger.jobs, batch)
    ensures !Next(ledger, step).1.Spent? && !Next(ledger, step).1.Settled?
  {
    hide ClaimsAreCurrent, Accounts, Outcomes, Refused;
  }

  lemma LostClaimStaysLost(steps: seq<Step>, p: nat, q: nat, batch: Batch)
    requires p <= q <= |steps| && Genuine(At(EMPTY, steps, p).ledger.jobs, batch)
    requires !ClaimsAreCurrent(At(EMPTY, steps, p).ledger.jobs, batch)
    ensures !ClaimsAreCurrent(At(EMPTY, steps, q).ledger.jobs, batch)
  {
    var k :| 0 <= k < |batch.jobs| && !Holds(At(EMPTY, steps, p).ledger.jobs, batch.jobs[k]);
    RunKeeps(EMPTY, steps, p, q, batch.jobs[k].id);
    assert !Holds(At(EMPTY, steps, q).ledger.jobs, batch.jobs[k]);
  }

  lemma {:induction false} RunPrefix(steps: seq<Step>, p: nat, q: nat)
    requires p <= q <= |steps| && IsRun(EMPTY, steps, q)
    ensures IsRun(EMPTY, steps, p)
    decreases q - p
  {
    if p < q {
      RunPrefix(steps, p, q - 1);
    }
  }

  /** In a run a batch is used only once handed, and using it either takes effect or loses. */
  lemma HandedBatchReply(steps: seq<Step>, p: nat, batch: Batch)
    requires p < |steps| && IsRun(EMPTY, steps, p + 1) && Uses(steps[p], batch)
    ensures batch in At(EMPTY, steps, p).handed && batch in At(EMPTY, steps, p + 1).handed
    ensures At(EMPTY, steps, p + 1).ledger == Next(At(EMPTY, steps, p).ledger, steps[p]).0
    ensures Next(At(EMPTY, steps, p).ledger, steps[p]) == (At(EMPTY, steps, p).ledger, LostClaim)
            || Next(At(EMPTY, steps, p).ledger, steps[p]).1.Spent? || Next(At(EMPTY, steps, p).ledger, steps[p]).1.Settled?
  {
    NoRunMeetsTheIndex(steps, p);
  }

  /** A batch that takes effect gives up every claim it held. */
  lemma EffectEndsClaims(ledger: Ledger, step: Step, batch: Batch)
    requires Uses(step, batch) && |batch.jobs| > 0
    requires Next(ledger, step).1.Spent? || Next(ledger, step).1.Settled?
    ensures !ClaimsAreCurrent(Next(ledger, step).0.jobs, batch)
  {
    hide FailJobs, SettleJobs, Accounts, Outcomes, Refused, IndexAccepts;
    assert Holds(ledger.jobs, batch.jobs[0]);
    if step.FailBatch? {
      FailedIsNotHeld(ledger.jobs, batch, step.error, step.maxAttempts, step.now, 0);
    } else {
      SettledIsNotHeld(ledger.jobs, batch, step.reverts, step.now, 0);
    }
    assert !Holds(Next(ledger, step).0.jobs, batch.jobs[0]);
  }

  lemma FailedIsNotHeld(jobs: seq<Job>, batch: Batch, error: string, maxAttempts: nat, now: int, k: nat)
    requires k < |batch.jobs|
    ensures !Holds(FailJobs(jobs, batch, error, maxAttempts, now), batch.jobs[k])
  {
    assert PositionOf(batch, batch.jobs[k].id).Some?;
  }

  lemma SettledIsNotHeld(jobs: seq<Job>, batch: Batch, reverts: RevertMap, now: int, k: nat)
    requires k < |batch.jobs|
    ensures !Holds(SettleJobs(jobs, batch, reverts, now), batch.jobs[k])
  {
    hide Adjudicable, RefusalOf;
    assert PositionOf(batch, batch.jobs[k].id).Some?;
  }

  /** A batch takes effect at most once, however often and by whomever it is replayed. */
  lemma EachBatchTakesEffectOnce(steps: seq<Step>, p: nat, q: nat, batch: Batch)
    requires p < q < |steps| && IsRun(EMPTY, steps, q + 1)
    requires |batch.jobs| > 0 && Uses(steps[p], batch) && Uses(steps[q], batch)
    requires Next(At(EMPTY, steps, p).ledger, steps[p]).1 != LostClaim
    ensures Next(At(EMPTY, steps, q).ledger, steps[q]) == (At(EMPTY, steps, q).ledger, LostClaim)
  {
    hide Next, ClaimsAreCurrent, IsRun;
    RunPrefix(steps, p + 1, q + 1);
    HandedBatchReply(steps, p, batch);
    EffectEndsClaims(At(EMPTY, steps, p).ledger, steps[p], batch);
    LostBatchChangesNothing(steps, p + 1, q, batch);
  }

  ghost predicate WithinCap(job: Job) {
    if job.status == Failed then job.attempts == MAX_ATTEMPTS else job.attempts < MAX_ATTEMPTS
  }

  /** The attempt cap, in every reachable ledger whose callers leave it at the default. */
  ghost predicate Capped(jobs: seq<Job>) {
    forall i :: 0 <= i < |jobs| ==> WithinCap(jobs[i])
  }

  lemma {:induction false} AttemptsAreCapped(steps: seq<Step>, k: nat)
    requires k <= |steps|
    requires forall s :: s in steps && s.FailBatch? ==> s.maxAttempts == MAX_ATTEMPTS
    ensures Capped(At(EMPTY, steps, k).ledger.jobs)
  {
    if k > 0 {
      AttemptsAreCapped(steps, k - 1);
      StepKeepsCap(At(EMPTY, steps, k - 1).ledger, steps[k - 1]);
    }
  }

  lemma StepKeepsCap(ledger: Ledger, step: Step)
    requires Capped(ledger.jobs) && (step.FailBatch? ==> step.maxAttempts == MAX_ATTEMPTS)
    ensures Capped(Next(ledger, step).0.jobs)
  {
    var next := Next(ledger, step).0.jobs;
    forall i | 0 <= i < |next| ensures WithinCap(next[i]) {
      if i < |ledger.jobs| {
        RowKeepsCap(ledger, step, i);
      }
    }
  }

  lemma RowKeepsCap(ledger: Ledger, step: Step, i: nat)
    requires i < |ledger.jobs| && WithinCap(ledger.jobs[i]) && (step.FailBatch? ==> step.maxAttempts == MAX_ATTEMPTS)
    ensures i < |Next(ledger, step).0.jobs| && WithinCap(Next(ledger, step).0.jobs[i])
  {
    hide Accounts, Outcomes, Refused, IndexAccepts, PositionOf, DueIds;
    StepKeeps(ledger, step, i);
  }

  // --------------------------------------------------------- the module's API

  /** One attempt spent: failed for good exactly when that reaches the cap, else pending again; no other column moves. */
  ghost predicate AttemptSpent(earlier: Job, later: Job, error: string, maxAttempts: nat, now: int) {
    && later.attempts == earlier.attempts + 1
    && (later.attempts >= maxAttempts ==> later.status == Failed && later.finishedAt == Some(now))
    && (later.attempts < maxAttempts ==> later.status == Pending && later.finishedAt == None)
    && later.startedAt == None && later.error.Some? && IsCutOf(later.error.value, error)
    && SameWork(earlier, later) && later.generation == earlier.generation
  }

  /** The text, or its first 1000 characters. */
  ghost predicate IsCutOf(kept: string, text: string) {
    kept <= text && |kept| <= 1000 && (|kept| < 1000 ==> kept == text)
  }

  ghost predicate SameWork(earlier: Job, later: Job) {
    && later.identity == earlier.identity && later.mergedAt == earlier.mergedAt && later.baseRef == earlier.baseRef
    && later.dueAt == earlier.dueAt && later.createdAt == earlier.createdAt
  }

  /** Done for good: no attempt spent, no error left. */
  ghost predicate Finished(earlier: Job, later: Job, now: int) {
    && later.status == Done && later.finishedAt == Some(now) && later.error == None
    && later.attempts == earlier.attempts && later.generation == earlier.generation && SameWork(earlier, later)
  }

  /** Rows outside the batch stay as they are. */
  ghost predicate OnlyBatchMoves(jobs: seq<Job>, later: seq<Job>, batch: Batch) {
    |later| == |jobs| && forall i :: 0 <= i < |jobs| && later[i] != jobs[i] ==> InBatch(batch, i)
  }

  /** A failure spends one attempt of every job of the batch, and touches no other. */
  lemma FailureSpendsAttempts(jobs: seq<Job>, batch: Batch, error: string, maxAttempts: nat, now: int)
    requires Genuine(jobs, batch) && ClaimsAreCurrent(jobs, batch)
    ensures var later := FailJobs(jobs, batch, error, maxAttempts, now);
            && OnlyBatchMoves(jobs, later, batch)
            && forall k :: 0 <= k < |batch.jobs| ==>
                 AttemptSpent(jobs[batch.jobs[k].id], later[batch.jobs[k].id], error, maxAttempts, now)
  {
    var later := FailJobs(jobs, batch, error, maxAttempts, now);
    forall k | 0 <= k < |batch.jobs|
      ensures AttemptSpent(jobs[batch.jobs[k].id], later[batch.jobs[k].id], error, maxAttempts, now)
    {
      BatchPosition(jobs, batch, k);
      FailedRowSpends(jobs[batch.jobs[k].id], error, maxAttempts, now);
    }
  }

  lemma FailedRowSpends(job: Job, error: string, maxAttempts: nat, now: int)
    ensures AttemptSpent(job, FailedRow(job, error, maxAttempts, now), error, maxAttempts, now)
  {
  }

  /** A settlement finishes each adjudicable job and spends one attempt of each other one, with its own reason. */
  ghost predicate SettledRight(jobs: seq<Job>, later: seq<Job>, claimed: ClaimedJob, reverts: RevertMap, now: int)
    requires claimed.id < |jobs| && |later| == |jobs|
  {
    var pr := claimed.job.identity.pr;
    if pr in reverts && reverts[pr].instant.Err?
    then AttemptSpent(jobs[claimed.id], later[claimed.id], reverts[pr].instant.error, MAX_ATTEMPTS, now)
    else Finished(jobs[claimed.id], later[claimed.id], now)
  }

  lemma SettlementDecidesEveryJob(jobs: seq<Job>, batch: Batch, reverts: RevertMap, now: int)
    requires Genuine(jobs, batch) && ClaimsAreCurrent(jobs, batch)
    ensures var later := SettleJobs(jobs, batch, reverts, now);
            && OnlyBatchMoves(jobs, later, batch)
            && forall k :: 0 <= k < |batch.jobs| ==> SettledRight(jobs, later, batch.jobs[k], reverts, now)
  {
    var later := SettleJobs(jobs, batch, reverts, now);
    forall k | 0 <= k < |batch.jobs| ensures SettledRight(jobs, later, batch.jobs[k], reverts, now) {
      BatchPosition(jobs, batch, k);
      hide AttemptSpent;
      if !Adjudicable(batch.jobs[k].job, reverts) {
        FailedRowSpends(jobs[batch.jobs[k].id], RefusalOf(batch.jobs[k].job, reverts).reason, MAX_ATTEMPTS, now);
      }
    }
  }

  /** Leased: running from now on under the next generation, with the last claim's traces gone. */
  ghost predicate Leased(earlier: Job, later: Job, now: int) {
    && earlier.status == Pending && later.status == Running && later.startedAt == Some(now)
    && later.finishedAt == None && later.error == None && later.generation == earlier.generation + 1
    && later.attempts == earlier.attempts && SameWork(earlier, later)
  }

  /** Pending work of this repository whose window has closed. */
  ghost predicate IsDue(job: Job, key: RepositoryKey, now: int) {
    && job.status == Pending && job.dueAt <= now
    && job.identity.installation == key.installation && job.identity.repo == key.repo
  }

  /** The batch is exactly the due rows, each leased and copied as leased, in (due, id) order. */
  ghost predicate LeasesDue(jobs: seq<Job>, later: seq<Job>, batch: Batch, key: RepositoryKey, now: int) {
    && OnlyBatchMoves(jobs, later, batch) && batch.key == key
    && (forall i: nat :: i < |jobs| ==> (IsDue(jobs[i], key, now) <==> InBatch(batch, i)))
    && (forall k :: 0 <= k < |batch.jobs| ==>
          batch.jobs[k].id < |jobs| && batch.jobs[k].job == later[batch.jobs[k].id]
          && Leased(jobs[batch.jobs[k].id], later[batch.jobs[k].id], now))
    && (forall k, l :: 0 <= k < l < |batch.jobs| ==>
          var a, b := batch.jobs[k], batch.jobs[l];
          a.job.dueAt < b.job.dueAt || (a.job.dueAt == b.job.dueAt && a.id < b.id))
  }

  lemma ClaimLeasesDue(jobs: seq<Job>, key: RepositoryKey, now: int)
    ensures var ids := DueIds(jobs, key, now, |jobs|);
            var later := ClaimJobs(jobs, ids, now);
            LeasesDue(jobs, later, BatchOf(key, later, ids), key, now)
  {
    hide DueIds, Leased, IsDue;
    var ids := DueIds(jobs, key, now, |jobs|);
    var later := ClaimJobs(jobs, ids, now);
    var batch := BatchOf(key, later, ids);
    DueIsClaimable(key, now);
    forall i: nat | i < |jobs| ensures (IsDue(jobs[i], key, now) <==> InBatch(batch, i)) && (i !in ids ==> later[i] == jobs[i]) {
      if i in ids {
        var k :| 0 <= k < |ids| && ids[k] == i;
        assert batch.jobs[k].id == i;
      }
    }
    forall k | 0 <= k < |ids| ensures ids[k] < |jobs| && Leased(jobs[ids[k]], later[ids[k]], now) {
      DueIdIsClaimable(jobs, key, now, k);
      ClaimedRowIsLeased(jobs[ids[k]], now);
    }
    hide Claimable, ClaimJobs;
    forall k, l | 0 <= k < l < |batch.jobs|
      ensures var a, b := batch.jobs[k], batch.jobs[l];
              a.job.dueAt < b.job.dueAt || (a.job.dueAt == b.job.dueAt && a.id < b.id)
    {
      assert DueBefore(jobs, ids[k], ids[l]);
      LeasedWork(jobs[ids[k]], later[ids[k]], now);
      LeasedWork(jobs[ids[l]], later[ids[l]], now);
    }
  }

  lemma DueIdIsClaimable(jobs: seq<Job>, key: RepositoryKey, now: int, k: nat)
    requires k < |DueIds(jobs, key, now, |jobs|)|
    ensures var ids := DueIds(jobs, key, now, |jobs|); ids[k] in ids && ids[k] < |jobs| && Claimable(jobs[ids[k]], key, now)
  {
    hide Claimable, DueBefore;
    var ids := DueIds(jobs, key, now, |jobs|);
    assert ids[k] in ids;
  }

  lemma ClaimedRowIsLeased(job: Job, now: int)
    requires job.status == Pending
    ensures Leased(job, ClaimedRow(job, now), now)
  {
  }

  lemma LeasedWork(earlier: Job, later: Job, now: int)
    requires Leased(earlier, later, now)
    ensures later.dueAt == earlier.dueAt
  {
  }

  /** Whose claim is older than the lease is pending again with nothing spent; every other row stands. */
  ghost predicate LeasesExpire(jobs: seq<Job>, later: seq<Job>, olderThan: nat, now: int) {
    && |later| == |jobs|
    && forall i :: 0 <= i < |jobs| ==>
         var job := jobs[i];
         if job.status == Running && (job.startedAt.Some? ==> now - job.startedAt.value > olderThan) then
           && later[i].status == Pending && later[i].startedAt == None && later[i].attempts == job.attempts
           && later[i].generation == job.generation && later[i].finishedAt == job.finishedAt
           && later[i].error == job.error && SameWork(job, later[i])
         else later[i] == job
  }

  lemma ReclaimExpiresLeases(jobs: seq<Job>, olderThan: nat, now: int)
    ensures LeasesExpire(jobs, ReclaimJobs(jobs, olderThan, now), olderThan, now)
  {
  }

  // ---------------------------------------------------- attempts are failures

  /** A failure recorded against row `i`: its batch failed, or its own revert date was refused. */
  ghost predicate FailsAt(ledger: Ledger, step: Step, i: nat) {
    || (step.FailBatch? && Next(ledger, step).1.Spent? && InBatch(step.failed, i))
    || (step.Settle? && Next(ledger, step).1.Settled?
        && exists k :: 0 <= k < |step.batch.jobs| && step.batch.jobs[k].id == i && HasBadDate(step.batch.jobs[k].job, step.reverts))
  }

  ghost predicate HasBadDate(job: Job, reverts: RevertMap) {
    job.identity.pr in reverts && reverts[job.identity.pr].instant.Err?
  }

  ghost function Failures(steps: seq<Step>, k: nat, i: nat): nat
    requires k <= |steps|
  {
    if k == 0 then 0
    else Failures(steps, k - 1, i) + if FailsAt(At(EMPTY, steps, k - 1).ledger, steps[k - 1], i) then 1 else 0
  }

  lemma StepCountsFailures(ledger: Ledger, step: Step, i: nat)
    requires i < |ledger.jobs|
    requires step.FailBatch? ==> Genuine(ledger.jobs, step.failed)
    requires step.Settle? ==> Genuine(ledger.jobs, step.batch)
    ensures i < |Next(ledger, step).0.jobs|
    ensures Next(ledger, step).0.jobs[i].attempts == ledger.jobs[i].attempts + if FailsAt(ledger, step, i) then 1 else 0
  {
    hide FailJobs, SettleJobs, Accounts, Outcomes, Refused, IndexAccepts, Genuine, ClaimsAreCurrent, DueIds;
    match step
    case Enroll(_, _, _, _, _) =>
    case Claim(_, _) =>
    case Reclaim(_, _) =>
    case FailBatch(batch, error, maxAttempts, now) =>
      if ClaimsAreCurrent(ledger.jobs, batch) {
        FailureSpendsAttempts(ledger.jobs, batch, error, maxAttempts, now);
      }
    case Settle(batch, reverts, _, now) =>
      if ClaimsAreCurrent(ledger.jobs, batch) {
        SettlementDecidesEveryJob(ledger.jobs, batch, reverts, now);
        SettledCount(ledger.jobs, batch, reverts, now, i);
      }
  }

  lemma SettledCount(jobs: seq<Job>, batch: Batch, reverts: RevertMap, now: int, i: nat)
    requires i < |jobs| && Genuine(jobs, batch) && ClaimsAreCurrent(jobs, batch)
    ensures |SettleJobs(jobs, batch, reverts, now)| == |jobs|
    ensures SettleJobs(jobs, batch, reverts, now)[i].attempts == jobs[i].attempts
              + if exists k :: 0 <= k < |batch.jobs| && batch.jobs[k].id == i && HasBadDate(batch.jobs[k].job, reverts) then 1 else 0
  {
    hide SettleJobs;
    SettlementDecidesEveryJob(jobs, batch, reverts, now);
    if InBatch(batch, i) {
      var k :| 0 <= k < |batch.jobs| && batch.jobs[k].id == i;
      assert SettledRight(jobs, SettleJobs(jobs, batch, reverts, now), batch.jobs[k], reverts, now);
    }
  }

  lemma NewJobsAreFresh(ledger: Ledger, step: Step, i: nat)
    requires |ledger.jobs| <= i < |Next(ledger, step).0.jobs|
    ensures step.Enroll? && Next(ledger, step).0.jobs[i].attempts == 0
  {
    hide DueIds, Accounts, Outcomes, Refused, IndexAccepts, ClaimsAreCurrent;
  }

  /** A failure of row `i` presupposes the row. */
  lemma FailsOnlyStored(ledger: Ledger, step: Step, i: nat)
    requires |ledger.jobs| <= i
    requires step.FailBatch? ==> Genuine(ledger.jobs, step.failed)
    requires step.Settle? ==> Genuine(ledger.jobs, step.batch)
    ensures !FailsAt(ledger, step, i)
  {
    hide Next;
  }

  /** Attempts are neither lost nor invented: a job's count is the number of failures recorded against it. */
  lemma {:induction false} AttemptsCountFailures(steps: seq<Step>, k: nat, i: nat)
    requires k <= |steps| && IsRun(EMPTY, steps, k)
    ensures var jobs := At(EMPTY, steps, k).ledger.jobs;
            if i < |jobs| then jobs[i].attempts == Failures(steps, k, i) else Failures(steps, k, i) == 0
  {
    hide Next, FailsAt, Genuine;
    if k > 0 {
      AttemptsCountFailures(steps, k - 1, i);
      EveryReachableLedgerIsConsistent(steps, k - 1);
      var w, step := At(EMPTY, steps, k - 1), steps[k - 1];
      if i < |w.ledger.jobs| {
        StepCountsFailures(w.ledger, step, i);
      } else {
        FailsOnlyStored(w.ledger, step, i);
        if i < |Next(w.ledger, step).0.jobs| {
          NewJobsAreFresh(w.ledger, step, i);
        }
      }
    }
  }

  /** A job is failed exactly when MAX_ATTEMPTS failures were recorded against it: no batch is drained for ever. */
  lemma FailedExactlyAtTheCap(steps: seq<Step>, k: nat, i: nat)
    requires k <= |steps| && IsRun(EMPTY, steps, k) && i < |At(EMPTY, steps, k).ledger.jobs|
    requires forall s :: s in steps && s.FailBatch? ==> s.maxAttempts == MAX_ATTEMPTS
    ensures Failures(steps, k, i) <= MAX_ATTEMPTS
    ensures At(EMPTY, steps, k).ledger.jobs[i].status == Failed <==> Failures(steps, k, i) == MAX_ATTEMPTS
  {
    AttemptsCountFailures(steps, k, i);
    AttemptsAreCapped(steps, k);
    assert WithinCap(At(EMPTY, steps, k).ledger.jobs[i]);
  }

  /** `jobs[identity]`: the batch position whose identity triple this is. */
  function TriplePosition(batch: Batch, identity: Identity, k: nat): (r: Option<nat>)
    requires k <= |batch.jobs|
    ensures r.Some? ==> k <= r.value < |batch.jobs| && TripleAt(batch, r.value, (identity.pr, identity.mergeSha, identity.windowDays))
    ensures r.None? ==> forall l: nat :: k <= l ==> !TripleAt(batch, l, (identity.pr, identity.mergeSha, identity.windowDays))
    decreases |batch.jobs| - k
  {
    if k == |batch.jobs| then None
    else if TripleAt(batch, k, (identity.pr, identity.mergeSha, identity.windowDays)) then Some(k)
    else TriplePosition(batch, identity, k + 1)
  }

  lemma TriplePositionIsSource(jobs: seq<Job>, batch: Batch, identity: Identity, k: nat)
    requires UniqueJobs(jobs) && Genuine(jobs, batch) && k < |batch.jobs| && batch.jobs[k].job.identity == identity
    ensures TriplePosition(batch, identity, 0) == Some(k)
    ensures PositionOf(batch, batch.jobs[k].id) == Some(k)
  {
    assert TripleAt(batch, k, (identity.pr, identity.mergeSha, identity.windowDays));
    TripleNamesOnePosition(jobs, batch, TriplePosition(batch, identity, 0).value, k);
  }

  /** Row `i` when only the batch positions in `done` and `failed` have been written so far. */
  function PartlySettledRow(jobs: seq<Job>, batch: Batch, reverts: RevertMap, now: int, written: seq<nat>, i: nat): Job
    requires i < |jobs|
  {
    var at := PositionOf(batch, i);
    if at.Some? && at.value in written then SettledRow(jobs[i], batch.jobs[at.value].job, reverts, now) else jobs[i]
  }

  ghost predicate PartlySettled(table: seq<Job>, jobs: seq<Job>, batch: Batch, reverts: RevertMap, now: int, written: seq<nat>) {
    |table| == |jobs|
    && forall i :: 0 <= i < |jobs| ==> table[i] == PartlySettledRow(jobs, batch, reverts, now, written, i)
  }

  lemma NothingSettledYet(jobs: seq<Job>, batch: Batch, reverts: RevertMap, now: int, order: seq<nat>)
    ensures PartlySettled(jobs, jobs, batch, reverts, now, order[..0])
  {
  }

  lemma WriteOneMore(table: seq<Job>, jobs: seq<Job>, batch: Batch, reverts: RevertMap, now: int, written: seq<nat>, k: nat)
    requires PartlySettled(table, jobs, batch, reverts, now, written)
    requires k < |batch.jobs| && batch.jobs[k].id < |jobs| && k !in written
    requires PositionOf(batch, batch.jobs[k].id) == Some(k)
    ensures |table| == |jobs| && table[batch.jobs[k].id] == jobs[batch.jobs[k].id]
    ensures PartlySettled(
      table[batch.jobs[k].id := SettledRow(jobs[batch.jobs[k].id], batch.jobs[k].job, reverts, now)],
      jobs, batch, reverts, now, written + [k])
  {
    forall i | 0 <= i < |jobs| && i != batch.jobs[k].id ensures PositionOf(batch, i) != Some(k) {
    }
  }

  lemma BatchPosition(jobs: seq<Job>, batch: Batch, k: nat)
    requires Genuine(jobs, batch) && ClaimsAreCurrent(jobs, batch) && k < |batch.jobs|
    ensures Holds(jobs, batch.jobs[k]) && PositionOf(batch, batch.jobs[k].id) == Some(k)
  {
  }

  /** fail_batch's loop over the batch, inside its transaction. */
  method FailRows(jobs: seq<Job>, batch: Batch, error: string, maxAttempts: nat, now: int) returns (table: seq<Job>)
    requires Genuine(jobs, batch) && ClaimsAreCurrent(jobs, batch)
    ensures table == FailJobs(jobs, batch, error, maxAttempts, now)
  {
    hide FailedRow, Genuine, ClaimsAreCurrent;
    table := jobs;
    for k := 0 to |batch.jobs|
      invariant |table| == |jobs|
      invariant forall i :: 0 <= i < |jobs| ==>
        var at := PositionOf(batch, i);
        table[i] == if at.Some? && at.value < k then FailedRow(jobs[i], error, maxAttempts, now) else jobs[i]
    {
      var id := batch.jobs[k].id;
      BatchPosition(jobs, batch, k);
      // rowcount == 1: the row is still this holder's.
      assert Holds(jobs, batch.jobs[k]) && table[id] == jobs[id];
      table := table[id := FailedRow(table[id], error, maxAttempts, now)];
    }
  }

  /** Outcome `n` belongs to the batch position its identity triple looks up. */
  lemma RowsJob(jobs: seq<Job>, batch: Batch, reverts: RevertMap, defaultBranch: Option<string>, now: int, n: nat) returns (k: nat)
    requires UniqueJobs(jobs) && Genuine(jobs, batch) && ClaimsAreCurrent(jobs, batch)
    requires n < |Outcomes(JobsOf(batch), reverts, defaultBranch)|
    ensures k < |batch.jobs| && k == Positions(JobsOf(batch), reverts, true)[n]
    ensures k !in Positions(JobsOf(batch), reverts, true)[..n]
    ensures TriplePosition(batch, Outcomes(JobsOf(batch), reverts, defaultBranch)[n].identity, 0) == Some(k)
    ensures PositionOf(batch, batch.jobs[k].id) == Some(k)
    ensures Holds(jobs, batch.jobs[k])
    ensures SettledRow(jobs[batch.jobs[k].id], batch.jobs[k].job, reverts, now) == DoneRow(jobs[batch.jobs[k].id], now)
  {
    k := RowSource(batch, reverts, defaultBranch, n);
    TriplePositionIsSource(jobs, batch, batch.jobs[k].job.identity, k);
  }

  /** Finishing the job that outcome `n` looks up extends what has been settled by its position. */
  lemma WriteRow(table: seq<Job>, jobs: seq<Job>, batch: Batch, reverts: RevertMap, defaultBranch: Option<string>, now: int, n: nat)
    requires UniqueJobs(jobs) && Genuine(jobs, batch) && ClaimsAreCurrent(jobs, batch)
    requires n < |Outcomes(JobsOf(batch), reverts, defaultBranch)|
    requires PartlySettled(table, jobs, batch, reverts, now, Positions(JobsOf(batch), reverts, true)[..n])
    ensures var at := TriplePosition(batch, Outcomes(JobsOf(batch), reverts, defaultBranch)[n].identity, 0);
            && at.Some? && batch.jobs[at.value].id < |table| == |jobs|
            && table[batch.jobs[at.value].id] == jobs[batch.jobs[at.value].id]
            && Holds(table, batch.jobs[at.value])
            && PartlySettled(table[batch.jobs[at.value].id := DoneRow(table[batch.jobs[at.value].id], now)],
                             jobs, batch, reverts, now, Positions(JobsOf(batch), reverts, true)[..n + 1])
  {
    hide Genuine, UniqueJobs, ClaimsAreCurrent, PartlySettled, SettledRow, DoneRow, PositionOf, TriplePosition, Outcomes, Positions;
    var yes := Positions(JobsOf(batch), reverts, true);
    var k := RowsJob(jobs, batch, reverts, defaultBranch, now, n);
    WriteOneMore(table, jobs, batch, reverts, now, yes[..n], k);
    assert yes[..n + 1] == yes[..n] + [k];
  }

  /** settle_batch's first loop: insert an outcome row, then finish its job. */
  method WriteRows(jobs: seq<Job>, outcomes: seq<Outcome>, batch: Batch, reverts: RevertMap,
                   defaultBranch: Option<string>, now: int, rows: seq<Outcome>)
    returns (table: seq<Job>, written: seq<Outcome>)
    requires UniqueJobs(jobs) && Genuine(jobs, batch) && ClaimsAreCurrent(jobs, batch)
    requires rows == Outcomes(JobsOf(batch), reverts, defaultBranch)
    ensures PartlySettled(table, jobs, batch, reverts, now, Positions(JobsOf(batch), reverts, true))
    ensures written == outcomes + rows
  {
    NothingSettledYet(jobs, batch, reverts, now, Positions(JobsOf(batch), reverts, true));
    hide *;
    table, written := jobs, outcomes;
    for n := 0 to |rows|
      invariant PartlySettled(table, jobs, batch, reverts, now, Positions(JobsOf(batch), reverts, true)[..n])
      invariant written == outcomes + rows[..n]
    {
      WriteRow(table, jobs, batch, reverts, defaultBranch, now, n);
      written := written + [rows[n]];
      var claimed := batch.jobs[TriplePosition(batch, rows[n].identity, 0).value];
      // rowcount == 1: the row is still this holder's.
      assert Holds(table, claimed);
      table := table[claimed.id := DoneRow(table[claimed.id], now)];
    }
    assert Positions(JobsOf(batch), reverts, true)[..|rows|] == Positions(JobsOf(batch), reverts, true);
  }

  /** Refusal `n` belongs to the batch position its identity triple looks up. */
  lemma RefusalsJob(jobs: seq<Job>, batch: Batch, reverts: RevertMap, now: int, n: nat) returns (k: nat)
    requires UniqueJobs(jobs) && Genuine(jobs, batch) && ClaimsAreCurrent(jobs, batch)
    requires n < |Refused(JobsOf(batch), reverts)|
    ensures k < |batch.jobs| && k !in RefusalOrder(batch, reverts, n)
    ensures RefusalOrder(batch, reverts, n + 1) == RefusalOrder(batch, reverts, n) + [k]
    ensures TriplePosition(batch, Refused(JobsOf(batch), reverts)[n].job.identity, 0) == Some(k)
    ensures PositionOf(batch, batch.jobs[k].id) == Some(k)
    ensures Holds(jobs, batch.jobs[k])
    ensures SettledRow(jobs[batch.jobs[k].id], batch.jobs[k].job, reverts, now)
         == FailedRow(jobs[batch.jobs[k].id], Refused(JobsOf(batch), reverts)[n].reason, MAX_ATTEMPTS, now)
  {
    hide FailedRow, UniqueJobs, Genuine, ClaimsAreCurrent, TriplePosition, PositionOf;
    k := RefusalSource(batch, reverts, n);
    TriplePositionIsSource(jobs, batch, batch.jobs[k].job.identity, k);
    BatchPosition(jobs, batch, k);
    RefusedPosition(batch, reverts, n);
  }

  lemma RefusedPosition(batch: Batch, reverts: RevertMap, n: nat)
    requires n < |Refused(JobsOf(batch), reverts)|
    ensures var k := Positions(JobsOf(batch), reverts, false)[n];
            k !in RefusalOrder(batch, reverts, n) && RefusalOrder(batch, reverts, n + 1) == RefusalOrder(batch, reverts, n) + [k]
  {
    hide Adjudicable, Positions, Refused;
    var jobs := JobsOf(batch);
    var yes, no := Positions(jobs, reverts, true), Positions(jobs, reverts, false);
    var k, order := no[n], RefusalOrder(batch, reverts, n);
    forall q | 0 <= q < |order| ensures order[q] != k {
      if q < |yes| {
        assert order[q] == yes[q] && Adjudicable(jobs[yes[q]], reverts);
      } else {
        assert order[q] == no[q - |yes|];
      }
    }
    assert no[..n + 1] == no[..n] + [k];
    assert RefusalOrder(batch, reverts, n + 1) == order + [k];
  }

  lemma RefuseRow(table: seq<Job>, jobs: seq<Job>, batch: Batch, reverts: RevertMap, now: int, n: nat)
    requires UniqueJobs(jobs) && Genuine(jobs, batch) && ClaimsAreCurrent(jobs, batch)
    requires n < |Refused(JobsOf(batch), reverts)|
    requires PartlySettled(table, jobs, batch, reverts, now, RefusalOrder(batch, reverts, n))
    ensures var refusal := Refused(JobsOf(batch), reverts)[n];
            var at := TriplePosition(batch, refusal.job.identity, 0);
            && at.Some? && batch.jobs[at.value].id < |table| == |jobs|
            && Holds(table, batch.jobs[at.value])
            && PartlySettled(
                 table[batch.jobs[at.value].id := FailedRow(table[batch.jobs[at.value].id], refusal.reason, MAX_ATTEMPTS, now)],
                 jobs, batch, reverts, now, RefusalOrder(batch, reverts, n + 1))
  {
    hide Genuine, UniqueJobs, ClaimsAreCurrent, PartlySettled, SettledRow, FailedRow, PositionOf, TriplePosition, Refused, RefusalOrder;
    var k := RefusalsJob(jobs, batch, reverts, now, n);
    WriteOneMore(table, jobs, batch, reverts, now, RefusalOrder(batch, reverts, n), k);
  }

  /** Every classified position, then the first `n` refused ones. */
  function RefusalOrder(batch: Batch, reverts: RevertMap, n: nat): seq<nat>
    requires n <= |Refused(JobsOf(batch), reverts)|
  {
    Positions(JobsOf(batch), reverts, true) + Positions(JobsOf(batch), reverts, false)[..n]
  }

  /** settle_batch's second loop: spend one attempt on each refused job. */
  method RefuseRows(jobs: seq<Job>, settled: seq<Job>, batch: Batch, reverts: RevertMap, now: int, refused: seq<Unadjudicable>)
    returns (table: seq<Job>)
    requires UniqueJobs(jobs) && Genuine(jobs, batch) && ClaimsAreCurrent(jobs, batch)
    requires refused == Refused(JobsOf(batch), reverts)
    requires PartlySettled(settled, jobs, batch, reverts, now, Positions(JobsOf(batch), reverts, true))
    ensures table == SettleJobs(jobs, batch, reverts, now)
  {
    assert RefusalOrder(batch, reverts, 0) == Positions(JobsOf(batch), reverts, true);
    table := settled;
    for n := 0 to |refused|
      invariant PartlySettled(table, jobs, batch, reverts, now, RefusalOrder(batch, reverts, n))
    {
      hide *;
      RefuseRow(table, jobs, batch, reverts, now, n);
      var claimed := batch.jobs[TriplePosition(batch, refused[n].job.identity, 0).value];
      // rowcount == 1: the row is still this holder's.
      assert Holds(table, claimed);
      table := table[claimed.id := FailedRow(table[claimed.id], refused[n].reason, MAX_ATTEMPTS, now)];
    }
    AllPositionsSettled(table, jobs, batch, reverts, now);
  }

  lemma AllPositionsSettled(table: seq<Job>, jobs: seq<Job>, batch: Batch, reverts: RevertMap, now: int)
    requires PartlySettled(table, jobs, batch, reverts, now,
                           RefusalOrder(batch, reverts, |Refused(JobsOf(batch), reverts)|))
    ensures table == SettleJobs(jobs, batch, reverts, now)
  {
    forall i | 0 <= i < |jobs| ensures table[i] == SettleJobs(jobs, batch, reverts, now)[i] {
      var at := PositionOf(batch, i);
      if at.Some? {
        assert JobsOf(batch)[at.value] == batch.jobs[at.value].job;
      }
    }
  }

  lemma ClaimsAllThatIsDue(jobs: seq<Job>, key: RepositoryKey, now: int)
    ensures var ids := DueIds(jobs, key, now, |jobs|);
            && (ids == [] <==> forall i :: 0 <= i < |jobs| ==> !Claimable(jobs[i], key, now))
            && (forall i :: 0 <= i < |jobs| ==> !Claimable(ClaimJobs(jobs, ids, now)[i], key, now))
  {
    hide DueBefore;
    var ids := DueIds(jobs, key, now, |jobs|);
    assert forall i: nat :: i < |jobs| ==> (i in ids <==> Claimable(jobs[i], key, now));
    if ids != [] {
      assert ids[0] in ids;
    }
  }

  lemma BatchIsStored(jobs: seq<Job>, batch: Batch)
    requires Genuine(jobs, batch)
    ensures forall k :: 0 <= k < |batch.jobs| ==> batch.jobs[k].id < |jobs|
  {
  }

  lemma DueIsClaimable(key: RepositoryKey, now: int)
    ensures forall job :: IsDue(job, key, now) <==> Claimable(job, key, now)
  {
  }

  class OutcomeQueue {
    var jobs: seq<Job>
    var outcomes: seq<Outcome>
    ghost var handed: set<Batch>

    ghost function Model(): World
      reads this
    {
      World(Ledger(jobs, outcomes), handed)
    }

    ghost predicate Valid()
      reads this
    {
      Inv(Model())
    }

    constructor ()
      ensures Valid() && Model() == EMPTY
    {
      jobs, outcomes, handed := [], [], {};
    }

    method ClaimRepository(key: RepositoryKey, now: int) returns (batch: Option<Batch>)
      requires Valid()
      modifies this
      ensures Valid() && Model() == Advance(old(Model()), Claim(key, now))
      ensures batch.None? <==> forall i :: 0 <= i < |jobs| ==> !Claimable(old(jobs)[i], key, now)
      ensures batch.Some? ==> batch.value in handed && ClaimsAreCurrent(jobs, batch.value)
      ensures forall i :: 0 <= i < |jobs| ==> !Claimable(jobs[i], key, now)
      ensures outcomes == old(outcomes)
      ensures if batch.Some? then LeasesDue(old(jobs), jobs, batch.value, key, now)
              else jobs == old(jobs) && forall i :: 0 <= i < |jobs| ==> !IsDue(jobs[i], key, now)
    {
      hide Inv, Genuine, Claimable, ClaimJobs, BatchOf, ClaimsAreCurrent, LeasesDue, IsDue;
      StepKeepsInv(Model(), Claim(key, now));
      ClaimLeasesDue(jobs, key, now);
      DueIsClaimable(key, now);
      var ids := DueIds(jobs, key, now, |jobs|);
      ClaimsAllThatIsDue(jobs, key, now);
      if ids == [] {
        return None;
      }
      ClaimIsGenuine(Ledger(jobs, outcomes), key, now);
      jobs := ClaimJobs(jobs, ids, now);
      batch := Some(BatchOf(key, jobs, ids));
      handed := handed + {batch.value};
    }

    method ReclaimStalled(olderThan: nat, now: int)
      requires Valid()
      modifies this
      ensures Valid() && Model() == Advance(old(Model()), Reclaim(olderThan, now))
      ensures forall i :: 0 <= i < |jobs| ==> !Stalled(jobs[i], olderThan, now) && jobs[i].attempts == old(jobs)[i].attempts
      ensures LeasesExpire(old(jobs), jobs, olderThan, now) && outcomes == old(outcomes)
    {
      ReclaimExpiresLeases(jobs, olderThan, now);
      StepKeepsInv(Model(), Reclaim(olderThan, now));
      jobs := ReclaimJobs(jobs, olderThan, now);
    }

    /** One attempt for every row of the batch, or for none. */
    method FailClaimedBatch(batch: Batch, error: string, maxAttempts: nat, now: int) returns (reply: Reply)
      requires Valid() && batch in handed
      modifies this
      ensures Valid() && Model() == Advance(old(Model()), FailBatch(batch, error, maxAttempts, now))
      ensures reply == Next(old(Model()).ledger, FailBatch(batch, error, maxAttempts, now)).1
      ensures reply == LostClaim ==> Model() == old(Model())
      ensures reply == Spent(|batch.jobs|) <==> ClaimsAreCurrent(old(jobs), batch)
      ensures reply.Spent? ==> OnlyBatchMoves(old(jobs), jobs, batch) && outcomes == old(outcomes)
      ensures reply.Spent? ==> forall k :: 0 <= k < |batch.jobs| ==>
                batch.jobs[k].id < |jobs|
                && AttemptSpent(old(jobs)[batch.jobs[k].id], jobs[batch.jobs[k].id], error, maxAttempts, now)
    {
      hide UniqueJobs, Genuine, IndexAccepts, DoneIffPublished, FailJobs, ClaimsAreCurrent, AttemptSpent, OnlyBatchMoves;
      if ClaimsAreCurrent(jobs, batch) {
        BatchIsStored(jobs, batch);
        FailureSpendsAttempts(jobs, batch, error, maxAttempts, now);
      }
      StepKeepsInv(Model(), FailBatch(batch, error, maxAttempts, now));
      if !ClaimsAreCurrent(jobs, batch) {
        return LostClaim;
      }
      jobs := FailRows(jobs, batch, error, maxAttempts, now);
      return Spent(|batch.jobs|);
    }

    /** Adjudicate the batch, then write every outcome row and finish every job, or do nothing at all. */
    method SettleClaimedBatch(batch: Batch, reverts: RevertMap, defaultBranch: Option<string>, now: int)
      returns (reply: Reply)
      requires Valid() && batch in handed
      modifies this
      ensures Valid() && Model() == Advance(old(Model()), Settle(batch, reverts, defaultBranch, now))
      ensures reply == Next(old(Model()).ledger, Settle(batch, reverts, defaultBranch, now)).1
      ensures reply == LostClaim ==> Model() == old(Model())
      ensures reply == LostClaim || (reply.Settled? && reply.done + reply.refused == |batch.jobs|)
      ensures reply.Settled? <==> ClaimsAreCurrent(old(jobs), batch)
      ensures reply.Settled? ==> OnlyBatchMoves(old(jobs), jobs, batch)
      ensures reply.Settled? ==> forall k :: 0 <= k < |batch.jobs| ==>
                batch.jobs[k].id < |old(jobs)| && SettledRight(old(jobs), jobs, batch.jobs[k], reverts, now)
      ensures reply.Settled? ==> outcomes == old(outcomes) + Outcomes(JobsOf(batch), reverts, defaultBranch)
    {
      hide UniqueJobs, Genuine, IndexAccepts, DoneIffPublished, SettleJobs, Outcomes, Refused, Accounts, ClaimsAreCurrent, PartlySettled, SettledRight;
      if ClaimsAreCurrent(jobs, batch) {
        BatchIsStored(jobs, batch);
        SettlementDecidesEveryJob(jobs, batch, reverts, now);
      }
      StepKeepsInv(Model(), Settle(batch, reverts, defaultBranch, now));
      var adjudication := AdjudicateBatch(JobsOf(batch), reverts, defaultBranch);
      if !ClaimsAreCurrent(jobs, batch) {
        return LostClaim;
      }
      var rows, refused := adjudication.outcomes, adjudication.unadjudicable;
      var table, written := WriteRows(jobs, outcomes, batch, reverts, defaultBranch, now, rows);
      table := RefuseRows(jobs, table, batch, reverts, now, refused);
      jobs, outcomes := table, written;
      return Settled(|rows|, |refused|);
    }
  }
}
