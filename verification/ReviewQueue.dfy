/** The `review_jobs` queue (api/doug/ingest.py). */
module ReviewQueue {
  // Every SQL transaction is one atomic step over the table. Rows are never deleted, so a row's id is
  // its position. Claim tokens are (id, generation) pairs; a holder step may carry any token at all,
  // however old, so every statement over runs covers stale workers.

  import opened Common

  const MAX_ATTEMPTS: nat := 3
  const FAILED_REVIVE_COOLOFF_SECONDS: nat := 3600
  const STALL_LEASE_SECONDS: nat := 900

  datatype Status = Pending | Running | Done | Failed | Superseded

  datatype PrKey = PrKey(installation: int, repo: int, pr: int)

  datatype Row = Row(
    pr: PrKey,
    baseSha: string,
    headSha: string,
    status: Status,
    attempts: nat,
    generation: nat,
    enqueuedAt: int,
    startedAt: Option<int>,
    finishedAt: Option<int>,
    error: Option<string>,
    verdictId: Option<int>,
    owesComment: bool)

  type Table = seq<Row>

  /** What one committed transaction reports to its caller. */
  datatype Reply =
    | Refused                        // base_sha missing: ValueError
    | Collided                       // the unique index rejected the insert
    | Queued(id: nat)
    | NothingNew
    | Claimed(id: nat, generation: nat)
    | Empty
    | Reclaimed(count: nat)
    | Applied(held: bool)

  datatype Step =
    | Insert(pr: PrKey, headSha: string, baseSha: string, now: int)
    | Revive(pr: PrKey, headSha: string, baseSha: string, trigger: string, now: int)
    | Claim(now: int)
    | Reclaim(olderThan: nat, now: int)
    | Release(id: nat, generation: nat)
    | Complete(id: nat, generation: nat, verdictId: Option<int>, owes: bool, now: int)
    | Supersede(id: nat, generation: nat, now: int)
    | Fail(id: nat, generation: nat, error: string, maxAttempts: nat, now: int)

  // ---------------------------------------------------------------- one step

  predicate Same(row: Row, pr: PrKey, headSha: string) {
    row.pr == pr && row.headSha == headSha
  }

  function Truncate(s: string, n: nat): string {
    if |s| <= n then s else s[..n]
  }

  function InsertRow(rows: Table, pr: PrKey, headSha: string, baseSha: string, now: int): Table {
    seq(|rows|, i requires 0 <= i < |rows| =>
      if rows[i].pr == pr && rows[i].headSha != headSha && rows[i].status == Pending
      then rows[i].(status := Superseded, finishedAt := Some(now))
      else rows[i])
    + [Row(pr, baseSha, headSha, Pending, 0, 0, now, None, None, None, None, false)]
  }

  predicate Revivable(row: Row, trigger: string, now: int) {
    || row.status == Superseded
    || (row.status == Failed
        && (trigger == "reconcile" ==>
              row.finishedAt.None? || row.finishedAt.value < now - FAILED_REVIVE_COOLOFF_SECONDS))
  }

  function Revived(row: Row, baseSha: string, now: int): Row {
    row.(status := Pending, attempts := 0, error := None, enqueuedAt := now,
         startedAt := None, finishedAt := None, verdictId := None, baseSha := baseSha)
  }

  /** The first row with this identity; the unique index allows no second. */
  function Lookup(rows: Table, pr: PrKey, headSha: string): (r: Option<nat>)
    ensures r.None? <==> forall i :: 0 <= i < |rows| ==> !Same(rows[i], pr, headSha)
    ensures r.Some? ==> r.value < |rows| && Same(rows[r.value], pr, headSha)
  {
    LookupFrom(rows, pr, headSha, 0)
  }

  function LookupFrom(rows: Table, pr: PrKey, headSha: string, k: nat): (r: Option<nat>)
    requires k <= |rows|
    ensures r.None? <==> forall i :: k <= i < |rows| ==> !Same(rows[i], pr, headSha)
    ensures r.Some? ==> k <= r.value < |rows| && Same(rows[r.value], pr, headSha)
    decreases |rows| - k
  {
    if k == |rows| then None
    else if Same(rows[k], pr, headSha) then Some(k)
    else LookupFrom(rows, pr, headSha, k + 1)
  }

  /** claim()'s ORDER BY (enqueued_at, id). */
  predicate Before(rows: Table, i: nat, j: nat)
    requires i < |rows| && j < |rows|
  {
    rows[i].enqueuedAt < rows[j].enqueuedAt || (rows[i].enqueuedAt == rows[j].enqueuedAt && i < j)
  }

  /** The pending row that comes first among the first `n`. */
  function Oldest(rows: Table, n: nat): (r: Option<nat>)
    requires n <= |rows|
    ensures r.None? <==> forall i :: 0 <= i < n ==> rows[i].status != Pending
    ensures r.Some? ==> r.value < n && rows[r.value].status == Pending
    ensures r.Some? ==> forall i :: 0 <= i < n && rows[i].status == Pending && i != r.value ==> Before(rows, r.value, i)
  {
    if n == 0 then None
    else
      var best := Oldest(rows, n - 1);
      if rows[n - 1].status != Pending then best
      else if best.Some? && Before(rows, best.value, n - 1) then best
      else Some(n - 1)
  }

  predicate Stalled(row: Row, olderThan: nat, now: int) {
    row.status == Running && (row.startedAt.None? || row.startedAt.value < now - olderThan)
  }

  function ReclaimRows(rows: Table, olderThan: nat, now: int): Table {
    seq(|rows|, i requires 0 <= i < |rows| =>
      if Stalled(rows[i], olderThan, now)
      then rows[i].(status := Pending, startedAt := None, enqueuedAt := now)
      else rows[i])
  }

  /** `_terminal_where`: the token names this row's current claim. */
  predicate Holds(rows: Table, id: nat, generation: nat) {
    id < |rows| && rows[id].status == Running && rows[id].generation == generation
  }

  function FailedRow(row: Row, error: string, maxAttempts: nat, now: int): Row {
    if row.attempts + 1 >= maxAttempts then
      row.(attempts := row.attempts + 1, error := Some(Truncate(error, 500)), startedAt := None,
           status := Failed, finishedAt := Some(now))
    else
      row.(attempts := row.attempts + 1, error := Some(Truncate(error, 500)), startedAt := None,
           status := Pending, enqueuedAt := now)
  }

  function HolderRow(row: Row, step: Step): Row
    requires step.Release? || step.Complete? || step.Supersede? || step.Fail?
  {
    match step
    case Release(_, _) => row.(status := Pending, startedAt := None)
    case Complete(_, _, verdictId, owes, now) =>
      row.(status := Done, verdictId := verdictId, finishedAt := Some(now), error := None,
           owesComment := row.owesComment || owes)
    case Supersede(_, _, now) => row.(status := Superseded, finishedAt := Some(now))
    case Fail(_, _, error, maxAttempts, now) => FailedRow(row, error, maxAttempts, now)
  }

  ghost predicate IsHolderStep(step: Step) {
    step.Release? || step.Complete? || step.Supersede? || step.Fail?
  }

  /** The transaction a step commits, and what its caller is told. */
  function Next(rows: Table, step: Step): (r: (Table, Reply))
    ensures |rows| <= |r.0|
  {
    match step
    case Insert(pr, headSha, baseSha, now) =>
      if baseSha == "" then (rows, Refused)
      else if Lookup(rows, pr, headSha).Some? then (rows, Collided)
      else (InsertRow(rows, pr, headSha, baseSha, now), Queued(|rows|))
    case Revive(pr, headSha, baseSha, trigger, now) =>
      var found := Lookup(rows, pr, headSha);
      if found.Some? && Revivable(rows[found.value], trigger, now)
      then (rows[found.value := Revived(rows[found.value], baseSha, now)], Queued(found.value))
      else (rows, NothingNew)
    case Claim(now) =>
      var head := Oldest(rows, |rows|);
      if head.None? then (rows, Empty)
      else
        var row := rows[head.value];
        (rows[head.value := row.(status := Running, startedAt := Some(now), generation := row.generation + 1)],
         Claimed(head.value, row.generation + 1))
    case Reclaim(olderThan, now) =>
      (ReclaimRows(rows, olderThan, now),
       Reclaimed(|set i: nat | i < |rows| && Stalled(rows[i], olderThan, now)|))
    case _ =>
      if Holds(rows, step.id, step.generation)
      then (rows[step.id := HolderRow(rows[step.id], step)], Applied(true))
      else (rows, Applied(false))
  }

  /** The table after the first `k` steps of a run. */
  function At(rows: Table, steps: seq<Step>, k: nat): (r: Table)
    requires k <= |steps|
    ensures |rows| <= |r|
  {
    if k == 0 then rows else Next(At(rows, steps, k - 1), steps[k - 1]).0
  }

  function ReplyAt(rows: Table, steps: seq<Step>, k: nat): Reply
    requires k < |steps|
  {
    Next(At(rows, steps, k), steps[k]).1
  }

  // --------------------------------------------------------- the claim fence

  /** What one step may do to a row that already exists. */
  lemma StepKeeps(rows: Table, step: Step, id: nat)
    requires id < |rows|
    ensures var next := Next(rows, step).0[id];
            && next.pr == rows[id].pr && next.headSha == rows[id].headSha
            && next.generation >= rows[id].generation
            && (rows[id].status == Done ==> next == rows[id])
            && (next.status == Running && rows[id].status != Running ==> next.generation > rows[id].generation)
            && (next.status == Running && rows[id].status == Running ==> next == rows[id])
  {
  }

  lemma {:induction false} RunKeeps(rows: Table, steps: seq<Step>, p: nat, q: nat, id: nat)
    requires p <= q <= |steps| && id < |At(rows, steps, p)|
    ensures id < |At(rows, steps, q)|
    ensures var earlier, later := At(rows, steps, p)[id], At(rows, steps, q)[id];
            && later.pr == earlier.pr && later.headSha == earlier.headSha
            && later.generation >= earlier.generation
            && (earlier.status == Done ==> later == earlier)
            && (later.status == Running && earlier.status != Running ==> later.generation > earlier.generation)
  {
    hide Next;
    if p < q {
      RunKeeps(rows, steps, p, q - 1, id);
      StepKeeps(At(rows, steps, q - 1), steps[q - 1], id);
    }
  }

  /** A claim's reply is the token of the claim it has just made. */
  lemma ClaimHandsOutItsToken(rows: Table, steps: seq<Step>, k: nat)
    requires k < |steps| && ReplyAt(rows, steps, k).Claimed?
    ensures var id := ReplyAt(rows, steps, k).id;
            && id < |At(rows, steps, k)|
            && At(rows, steps, k)[id].status == Pending
            && ReplyAt(rows, steps, k).generation == At(rows, steps, k)[id].generation + 1
            && Holds(At(rows, steps, k + 1), id, ReplyAt(rows, steps, k).generation)
  {
  }

  /** No (id, generation) token is ever handed out twice. */
  lemma EveryTokenIsHandedOutOnce(rows: Table, steps: seq<Step>, p: nat, q: nat)
    requires p < q < |steps|
    requires ReplyAt(rows, steps, p).Claimed? && ReplyAt(rows, steps, q).Claimed?
    ensures ReplyAt(rows, steps, p) != ReplyAt(rows, steps, q)
  {
    hide Next;
    ClaimHandsOutItsToken(rows, steps, p);
    ClaimHandsOutItsToken(rows, steps, q);
    RunKeeps(rows, steps, p + 1, q, ReplyAt(rows, steps, p).id);
  }

  /** The claim named by a token ends at this step. */
  ghost predicate EndsClaim(rows: Table, steps: seq<Step>, k: nat, id: nat, generation: nat)
    requires k < |steps|
  {
    Holds(At(rows, steps, k), id, generation) && !Holds(At(rows, steps, k + 1), id, generation)
  }

  /** A generation leaves `running` at most once, whoever ends it. */
  lemma EachClaimEndsAtMostOnce(rows: Table, steps: seq<Step>, p: nat, q: nat, id: nat, generation: nat)
    requires p < q < |steps|
    requires EndsClaim(rows, steps, p, id, generation)
    ensures !Holds(At(rows, steps, q), id, generation)
    ensures !EndsClaim(rows, steps, q, id, generation)
  {
    StepKeeps(At(rows, steps, p), steps[p], id);
    RunKeeps(rows, steps, p + 1, q, id);
  }

  /** Two holder calls with one token never both take effect. */
  lemma OneTokenTakesEffectOnce(rows: Table, steps: seq<Step>, p: nat, q: nat)
    requires p < q < |steps|
    requires IsHolderStep(steps[p]) && IsHolderStep(steps[q])
    requires steps[p].id == steps[q].id && steps[p].generation == steps[q].generation
    requires ReplyAt(rows, steps, p) == Applied(true)
    ensures ReplyAt(rows, steps, q) == Applied(false)
    ensures At(rows, steps, q + 1) == At(rows, steps, q)
  {
    EachClaimEndsAtMostOnce(rows, steps, p, q, steps[p].id, steps[p].generation);
  }

  lemma LaterClaimOutdates(rows: Table, steps: seq<Step>, p: nat, q: nat)
    requires p < q < |steps|
    requires ReplyAt(rows, steps, p).Claimed? && ReplyAt(rows, steps, q).Claimed?
    requires ReplyAt(rows, steps, p).id == ReplyAt(rows, steps, q).id
    ensures ReplyAt(rows, steps, p).id < |At(rows, steps, q + 1)|
    ensures At(rows, steps, q + 1)[ReplyAt(rows, steps, p).id].generation > ReplyAt(rows, steps, p).generation
  {
    hide Next;
    ClaimHandsOutItsToken(rows, steps, p);
    ClaimHandsOutItsToken(rows, steps, q);
    RunKeeps(rows, steps, p + 1, q, ReplyAt(rows, steps, p).id);
  }

  /** Once a row has been claimed again, the earlier holder can change nothing, forever. */
  lemma ReclaimedHolderIsFenced(rows: Table, steps: seq<Step>, p: nat, q: nat, r: nat)
    requires p < q < r < |steps|
    requires ReplyAt(rows, steps, p).Claimed? && ReplyAt(rows, steps, q).Claimed?
    requires ReplyAt(rows, steps, p).id == ReplyAt(rows, steps, q).id
    requires IsHolderStep(steps[r])
    requires steps[r].id == ReplyAt(rows, steps, p).id
    requires steps[r].generation == ReplyAt(rows, steps, p).generation
    ensures ReplyAt(rows, steps, r) == Applied(false)
    ensures At(rows, steps, r + 1) == At(rows, steps, r)
  {
    hide Next;
    var id := ReplyAt(rows, steps, p).id;
    LaterClaimOutdates(rows, steps, p, q);
    RunKeeps(rows, steps, q + 1, r, id);
    StaleCallChangesNothing(At(rows, steps, r), steps[r]);
  }

  lemma StaleCallChangesNothing(rows: Table, step: Step)
    requires IsHolderStep(step) && !Holds(rows, step.id, step.generation)
    ensures Next(rows, step) == (rows, Applied(false))
  {
  }

  /** Done is absorbing: the whole row is frozen. */
  lemma DoneIsAbsorbing(rows: Table, steps: seq<Step>, p: nat, q: nat, id: nat)
    requires p <= q <= |steps| && id < |At(rows, steps, p)|
    requires At(rows, steps, p)[id].status == Done
    ensures id < |At(rows, steps, q)| && At(rows, steps, q)[id] == At(rows, steps, p)[id]
  {
    RunKeeps(rows, steps, p, q, id);
  }

  // ------------------------------------------------- what every table satisfies

  /** What each status says about the row that carries it. */
  ghost predicate RowInv(row: Row) {
    && (row.status == Failed ==> row.attempts == MAX_ATTEMPTS && row.finishedAt.Some?)
    && (row.status != Failed ==> row.attempts < MAX_ATTEMPTS)
    && (row.status == Pending ==> row.startedAt.None?)
    && (row.status == Running ==> row.startedAt.Some? && row.generation > 0)
    && (row.status == Pending || row.status == Running ==> row.finishedAt.None?)
    && (row.status == Done ==> row.error.None? && row.finishedAt.Some?)
    && (row.status == Superseded ==> row.finishedAt.Some?)
    && (row.verdictId.Some? || row.owesComment ==> row.status == Done)
    && (row.error.Some? ==> |row.error.value| <= 500)
    && row.baseSha != ""
  }

  ghost predicate Inv(rows: Table) {
    && (forall i, j :: 0 <= i < j < |rows| ==> !Same(rows[j], rows[i].pr, rows[i].headSha))
    && (forall i :: 0 <= i < |rows| ==> RowInv(rows[i]))
  }

  /** The cap every shipped caller leaves at its default, and the base every caller must name. */
  ghost predicate Shipped(step: Step) {
    && (step.Fail? ==> step.maxAttempts == MAX_ATTEMPTS)
    && (step.Revive? ==> step.baseSha != "")
  }

  lemma StepKeepsInv(rows: Table, step: Step)
    requires Inv(rows) && Shipped(step)
    ensures Inv(Next(rows, step).0)
  {
    hide RowInv;
    var next := Next(rows, step).0;
    forall i | 0 <= i < |rows|
      ensures next[i].pr == rows[i].pr && next[i].headSha == rows[i].headSha && RowInv(next[i])
    {
      StepKeeps(rows, step, i);
      StepKeepsRowInv(rows, step, i);
    }
    StepAddsSoundRow(rows, step);
    hide Next;
  }

  lemma StepKeepsRowInv(rows: Table, step: Step, i: nat)
    requires i < |rows| && RowInv(rows[i]) && Shipped(step)
    ensures RowInv(Next(rows, step).0[i])
  {
  }

  lemma StepAddsSoundRow(rows: Table, step: Step)
    requires Shipped(step)
    ensures var next := Next(rows, step).0;
            && |next| <= |rows| + 1
            && (|next| > |rows| ==> RowInv(next[|rows|]))
            && (|next| > |rows| ==> forall i :: 0 <= i < |rows| ==> !Same(next[|rows|], rows[i].pr, rows[i].headSha))
  {
  }

  /** Attempt cap, field discipline and SHA uniqueness hold in every reachable table. */
  lemma {:induction false} EveryReachableTableIsSound(steps: seq<Step>, k: nat)
    requires k <= |steps|
    requires forall s :: s in steps ==> Shipped(s)
    ensures Inv(At([], steps, k))
  {
    if k > 0 {
      EveryReachableTableIsSound(steps, k - 1);
      StepKeepsInv(At([], steps, k - 1), steps[k - 1]);
    }
  }

  // ----------------------------------------------------- a live enqueue lands

  /** This SHA is queued, in flight or already reviewed. */
  ghost predicate Covered(rows: Table, pr: PrKey, headSha: string) {
    exists i :: 0 <= i < |rows| && Same(rows[i], pr, headSha)
                && (rows[i].status == Pending || rows[i].status == Running || rows[i].status == Done)
  }

  /** The cooloff still holds this SHA's failed row back from the sweep. */
  ghost predicate CoolingOff(rows: Table, pr: PrKey, headSha: string, now: int) {
    exists i :: 0 <= i < |rows| && Same(rows[i], pr, headSha) && rows[i].status == Failed
                && rows[i].finishedAt.Some? && rows[i].finishedAt.value >= now - FAILED_REVIVE_COOLOFF_SECONDS
  }

  /** With one row for the SHA, coverage and cooloff are facts about that row. */
  lemma CoverageIsTheRows(rows: Table, pr: PrKey, headSha: string, i: nat, now: int)
    requires Inv(rows) && i < |rows| && Same(rows[i], pr, headSha)
    ensures Lookup(rows, pr, headSha) == Some(i)
    ensures Covered(rows, pr, headSha) <==> rows[i].status in {Pending, Running, Done}
    ensures CoolingOff(rows, pr, headSha, now)
      <==> rows[i].status == Failed && rows[i].finishedAt.value >= now - FAILED_REVIVE_COOLOFF_SECONDS
  {
    assert forall k :: 0 <= k < |rows| && Same(rows[k], pr, headSha) ==> k == i;
  }

  lemma ReviveCovers(rows: Table, s: Step, i: nat)
    requires Inv(rows) && s.Revive? && Shipped(s) && i < |rows| && Same(rows[i], s.pr, s.headSha)
    ensures Covered(Next(rows, s).0, s.pr, s.headSha)
      <==> !(s.trigger == "reconcile" && CoolingOff(rows, s.pr, s.headSha, s.now))
  {
    StepKeepsInv(rows, s);
    CoverageIsTheRows(rows, s.pr, s.headSha, i, s.now);
    CoverageIsTheRows(Next(rows, s).0, s.pr, s.headSha, i, s.now);
  }

  /**
    enqueue() is two transactions when its insert collides, and any steps of any
    workers may run between them. A caller that is not the sweep still always
    leaves its SHA covered; the sweep does exactly when the cooloff is over.
   */
  lemma EnqueueCoversItsSha(steps: seq<Step>, p: nat, q: nat)
    requires p < q < |steps|
    requires forall s :: s in steps ==> Shipped(s)
    requires steps[p].Insert? && steps[q].Revive?
    requires steps[p].pr == steps[q].pr && steps[p].headSha == steps[q].headSha
    requires ReplyAt([], steps, p) == Collided
    ensures Covered(At([], steps, q + 1), steps[q].pr, steps[q].headSha)
      <==> !(steps[q].trigger == "reconcile" && CoolingOff(At([], steps, q), steps[q].pr, steps[q].headSha, steps[q].now))
  {
    var i := Lookup(At([], steps, p), steps[p].pr, steps[p].headSha).value;
    RunKeeps([], steps, p, q, i);
    EveryReachableTableIsSound(steps, q);
    ReviveCovers(At([], steps, q), steps[q], i);
  }

  /** A first observation is queued at once, and every other pending SHA of the PR retires. */
  lemma FreshInsertIsTheOnlyPendingSha(rows: Table, pr: PrKey, headSha: string, baseSha: string, now: int)
    requires baseSha != "" && Lookup(rows, pr, headSha).None?
    ensures var (next, reply) := Next(rows, Insert(pr, headSha, baseSha, now));
            && reply == Queued(|rows|)
            && next[|rows|].status == Pending && Same(next[|rows|], pr, headSha)
            && (forall i :: 0 <= i < |next| && next[i].pr == pr && next[i].status == Pending ==> i == |rows|)
  {
  }

  /**
    The admitted base and the attempt count belong to the work a row is pending for: no step touches
    the base but a revive, which starts the row over with its own observation.
   */
  lemma ReviveStartsOver(rows: Table, step: Step, id: nat)
    requires id < |rows|
    ensures var row, next := rows[id], Next(rows, step).0[id];
            && (next.baseSha != row.baseSha ==> step.Revive? && Next(rows, step).1 == Queued(id))
            && (next.attempts < row.attempts ==> step.Revive? && Next(rows, step).1 == Queued(id))
            && (step.Revive? && Next(rows, step).1 == Queued(id) ==>
                  && Same(row, step.pr, step.headSha) && row.status in {Failed, Superseded}
                  && next.status == Pending && next.baseSha == step.baseSha && next.attempts == 0
                  && next.enqueuedAt == step.now && next.error == None && next.verdictId == None
                  && next.finishedAt == None && next.startedAt == None && next.generation == row.generation)
  {
  }

  /** cooloff_hold_remaining: seconds the sweep still waits on this SHA's failed row. */
  function HoldRemaining(rows: Table, pr: PrKey, headSha: string, now: int): (r: Option<int>)
    ensures r.Some? ==> 0 < r.value
  {
    var found := Lookup(rows, pr, headSha);
    if found.None? || rows[found.value].status != Failed || rows[found.value].finishedAt.None? then None
    else
      var remaining := FAILED_REVIVE_COOLOFF_SECONDS - (now - rows[found.value].finishedAt.value);
      if remaining > 0 then Some(remaining) else None
  }

  /**
    The hold explains exactly the sweep's refusals, except in the one instant
    when the wait is 3600 seconds old: the sweep still refuses, yet no hold is reported.
   */
  lemma HoldExplainsRefusalExceptAtTheBoundary(rows: Table, pr: PrKey, headSha: string, baseSha: string, now: int)
    requires Inv(rows)
    ensures var refused := CoolingOff(rows, pr, headSha, now);
            && (HoldRemaining(rows, pr, headSha, now).Some? <==>
                  refused && rows[Lookup(rows, pr, headSha).value].finishedAt.value + FAILED_REVIVE_COOLOFF_SECONDS != now)
            && (refused ==> Next(rows, Revive(pr, headSha, baseSha, "reconcile", now)) == (rows, NothingNew))
  {
    var found := Lookup(rows, pr, headSha);
    if found.Some? {
      assert forall i :: 0 <= i < |rows| && Same(rows[i], pr, headSha) ==> i == found.value;
    }
  }

  /** At exactly 3600 seconds the sweep refuses this row and no hold explains it. */
  lemma BoundaryRowIsRefusedWithoutHold(row: Row, now: int)
    requires row.status == Failed && row.finishedAt == Some(now - FAILED_REVIVE_COOLOFF_SECONDS)
    ensures HoldRemaining([row], row.pr, row.headSha, now) == None
    ensures Next([row], Revive(row.pr, row.headSha, row.baseSha, "reconcile", now)) == ([row], NothingNew)
    ensures Next([row], Revive(row.pr, row.headSha, row.baseSha, "reconcile", now + 1)).1 == Queued(0)
  {
    assert Same([row][0], row.pr, row.headSha);
  }

  // ------------------------------------------------------------ no starvation

  ghost predicate Ahead(rows: Table, i: nat, j: nat)
    requires j < |rows|
  {
    i < |rows| && rows[i].status == Pending && Before(rows, i, j)
  }

  ghost function AheadOf(rows: Table, j: nat): set<nat>
    requires j < |rows|
  {
    set i: nat | i < |rows| && Ahead(rows, i, j)
  }

  /** How many pending rows claim() would take before this one. */
  ghost function Rank(rows: Table, j: nat): nat
    requires j < |rows|
  {
    |AheadOf(rows, j)|
  }

  function TimeOf(step: Step, clock: int): int {
    if step.Release? then clock else step.now
  }

  /** Every step after the first `k` reads a clock later than anything before it. */
  ghost predicate Advancing(steps: seq<Step>, k: nat, clock: int)
    requires k <= |steps|
    decreases |steps| - k
  {
    k == |steps| || ((!steps[k].Release? ==> clock < steps[k].now) && Advancing(steps, k + 1, TimeOf(steps[k], clock)))
  }

  ghost predicate EnqueuedBy(rows: Table, clock: int) {
    forall i :: 0 <= i < |rows| ==> rows[i].enqueuedAt <= clock
  }

  /**
    One step against a row that stays pending: a claim takes one row from ahead
    of it, a release may put one back, and nothing else adds any.
   */
  lemma StepRank(rows: Table, step: Step, clock: int, j: nat)
    requires j < |rows| && EnqueuedBy(rows, clock)
    requires !step.Release? ==> clock < step.now
    requires rows[j].status == Pending && Next(rows, step).0[j].status == Pending
    ensures EnqueuedBy(Next(rows, step).0, TimeOf(step, clock))
    ensures Rank(Next(rows, step).0, j) + (if step.Claim? then 1 else 0)
         <= Rank(rows, j) + (if Next(rows, step).1 == Applied(true) && step.Release? then 1 else 0)
  {
    StepIsEnqueuedBy(rows, step, clock);
    ReleaseReplies(rows, step);
    hide Next, EnqueuedBy, AheadOf, Oldest;
    var was, left := AheadOf(rows, j), AheadOf(Next(rows, step).0, j);
    if step.Claim? {
      ClaimAhead(rows, step.now, j);
      SubsetCardinality(left, was - {Oldest(rows, |rows|).value});
    } else if step.Release? && Next(rows, step).1 == Applied(true) {
      ReleaseAhead(rows, step, j);
      SubsetCardinality(left, was + {step.id});
    } else {
      OthersAhead(rows, step, clock, j);
      SubsetCardinality(left, was);
    }
  }

  lemma ReleaseReplies(rows: Table, step: Step)
    ensures step.Release? ==> Next(rows, step).1.Applied?
  {
  }

  lemma StepIsEnqueuedBy(rows: Table, step: Step, clock: int)
    requires EnqueuedBy(rows, clock)
    requires !step.Release? ==> clock < step.now
    ensures EnqueuedBy(Next(rows, step).0, TimeOf(step, clock))
  {
  }

  /** The claimed row is one of those ahead, and is no longer. */
  lemma {:induction false} ClaimAhead(rows: Table, now: int, j: nat)
    requires j < |rows| && rows[j].status == Pending && Next(rows, Claim(now)).0[j].status == Pending
    ensures Oldest(rows, |rows|).Some? && Oldest(rows, |rows|).value in AheadOf(rows, j)
    ensures AheadOf(Next(rows, Claim(now)).0, j) <= AheadOf(rows, j) - {Oldest(rows, |rows|).value}
  {
  }

  lemma ReleaseAhead(rows: Table, step: Step, j: nat)
    requires step.Release? && j < |rows| && rows[j].status == Pending
    requires Next(rows, step).1 == Applied(true)
    ensures AheadOf(Next(rows, step).0, j) <= AheadOf(rows, j) + {step.id}
  {
  }

  /** No other step puts a row ahead of one that stays pending. */
  lemma OthersAhead(rows: Table, step: Step, clock: int, j: nat)
    requires j < |rows| && EnqueuedBy(rows, clock) && !step.Claim?
    requires step.Release? ==> Next(rows, step).1 == Applied(false)
    requires !step.Release? ==> clock < step.now
    requires rows[j].status == Pending && Next(rows, step).0[j].status == Pending
    ensures AheadOf(Next(rows, step).0, j) <= AheadOf(rows, j)
  {
    assert Next(rows, step).0[j] == rows[j];
  }

  /** Claims among the steps from `k` on. */
  ghost function ClaimsFrom(steps: seq<Step>, k: nat): nat
    requires k <= |steps|
    decreases |steps| - k
  {
    if k == |steps| then 0 else (if steps[k].Claim? then 1 else 0) + ClaimsFrom(steps, k + 1)
  }

  /** Releases that took effect among the steps from `k` on. */
  ghost function ReleasesFrom(rows: Table, steps: seq<Step>, k: nat): nat
    requires k <= |steps|
    decreases |steps| - k
  {
    if k == |steps| then 0
    else (if steps[k].Release? && ReplyAt(rows, steps, k) == Applied(true) then 1 else 0)
         + ReleasesFrom(rows, steps, k + 1)
  }

  /**
    No starvation. Over any stretch in which a row stays pending, the claims made
    are at most its rank at the start plus the releases in between.
   */
  lemma {:induction false} ClaimsWhileWaitingAreBounded(rows: Table, steps: seq<Step>, k: nat, clock: int, j: nat)
    requires k <= |steps| && j < |rows|
    requires EnqueuedBy(At(rows, steps, k), clock) && Advancing(steps, k, clock)
    requires forall m: nat :: k <= m <= |steps| ==> At(rows, steps, m)[j].status == Pending
    ensures ClaimsFrom(steps, k) + Rank(At(rows, steps, |steps|), j)
         <= Rank(At(rows, steps, k), j) + ReleasesFrom(rows, steps, k)
    decreases |steps| - k
  {
    hide Next, Rank, EnqueuedBy;
    if k < |steps| {
      assert At(rows, steps, k + 1) == Next(At(rows, steps, k), steps[k]).0;
      StepRank(At(rows, steps, k), steps[k], clock, j);
      ClaimsWhileWaitingAreBounded(rows, steps, k + 1, TimeOf(steps[k], clock), j);
    }
  }

  /** With no releases, one claim more than a row's rank always takes it out of the queue. */
  lemma RowIsServedWithinItsRank(rows: Table, steps: seq<Step>, clock: int, j: nat)
    requires j < |rows| && rows[j].status == Pending
    requires EnqueuedBy(rows, clock) && Advancing(steps, 0, clock)
    requires forall s :: s in steps ==> !s.Release?
    requires ClaimsFrom(steps, 0) > Rank(rows, j)
    ensures exists m: nat :: m <= |steps| && At(rows, steps, m)[j].status in {Running, Superseded}
  {
    if forall m: nat :: m <= |steps| ==> At(rows, steps, m)[j].status == Pending {
      ClaimsWhileWaitingAreBounded(rows, steps, 0, clock, j);
      NoReleases(rows, steps, 0);
      assert false;
    } else {
      var last: nat :| last <= |steps| && At(rows, steps, last)[j].status != Pending;
      var m := FirstDeparture(rows, steps, j, 0, last);
    }
  }

  lemma {:induction false} NoReleases(rows: Table, steps: seq<Step>, k: nat)
    requires k <= |steps| && forall s :: s in steps ==> !s.Release?
    ensures ReleasesFrom(rows, steps, k) == 0
    decreases |steps| - k
  {
    if k < |steps| {
      NoReleases(rows, steps, k + 1);
    }
  }

  lemma PendingLeavesByClaimOrSupersession(rows: Table, step: Step, j: nat)
    requires j < |rows| && rows[j].status == Pending
    ensures Next(rows, step).0[j].status in {Pending, Running, Superseded}
  {
  }

  lemma {:induction false} FirstDeparture(rows: Table, steps: seq<Step>, j: nat, k: nat, last: nat) returns (m: nat)
    requires j < |rows| && k < last <= |steps|
    requires At(rows, steps, k)[j].status == Pending && At(rows, steps, last)[j].status != Pending
    ensures m <= |steps| && At(rows, steps, m)[j].status in {Running, Superseded}
    decreases last - k
  {
    m := k + 1;
    assert At(rows, steps, m) == Next(At(rows, steps, k), steps[k]).0;
    PendingLeavesByClaimOrSupersession(At(rows, steps, k), steps[k], j);
    if At(rows, steps, m)[j].status == Pending {
      m := FirstDeparture(rows, steps, j, m, last);
    }
  }

  /** Why `release` is the exception: it puts a row back ahead of one that was already waiting. */
  lemma ReleaseOvertakes(held: Row, waiting: Row)
    requires held.status == Running && waiting.status == Pending && held.enqueuedAt <= waiting.enqueuedAt
    ensures Rank([held, waiting], 1) == 0
    ensures Rank(Next([held, waiting], Release(0, held.generation)).0, 1) == 1
  {
    var next := Next([held, waiting], Release(0, held.generation)).0;
    assert AheadOf([held, waiting], 1) == {};
    assert AheadOf(next, 1) == {0};
  }

  // -------------------------------------------------------- the attempt budget

  /** The steps under which the cooloff alone decides when a failed row comes back. */
  ghost predicate SweepOnly(rows: Table, steps: seq<Step>, k: nat, j: nat)
    requires k <= |steps| && j < |rows|
    decreases |steps| - k
  {
    k == |steps| ||
    (&& Shipped(steps[k])
     && (steps[k].Revive? && Same(At(rows, steps, k)[j], steps[k].pr, steps[k].headSha) ==> steps[k].trigger == "reconcile")
     && At(rows, steps, k)[j].status != Superseded
     && SweepOnly(rows, steps, k + 1, j))
  }

  /** Clock readings never go back, and none passes `end`. */
  ghost predicate Timed(steps: seq<Step>, k: nat, clock: int, end: int)
    requires k <= |steps|
    decreases |steps| - k
  {
    if k == |steps| then clock <= end
    else (!steps[k].Release? ==> clock <= steps[k].now) && Timed(steps, k + 1, TimeOf(steps[k], clock), end)
  }

  /** Failures recorded against row `j` from step `k` on. */
  ghost function FailuresFrom(rows: Table, steps: seq<Step>, k: nat, j: nat): nat
    requires k <= |steps|
    decreases |steps| - k
  {
    if k == |steps| then 0
    else (if steps[k].Fail? && steps[k].id == j && ReplyAt(rows, steps, k) == Applied(true) then 1 else 0)
         + FailuresFrom(rows, steps, k + 1, j)
  }

  /** Paid attempts a row can still burn by `end`: what is left of this arming, plus one arming an hour. */
  function Budget(row: Row, clock: int, end: int): int {
    if row.status == Failed && row.finishedAt.Some? then
      MAX_ATTEMPTS * ((end - Later(row.finishedAt.value, clock - FAILED_REVIVE_COOLOFF_SECONDS)) / FAILED_REVIVE_COOLOFF_SECONDS)
    else
      MAX_ATTEMPTS - row.attempts + MAX_ATTEMPTS * ((end - clock) / FAILED_REVIVE_COOLOFF_SECONDS)
  }

  function Later(a: int, b: int): int {
    if a < b then b else a
  }

  lemma HoursAreMonotone(a: int, b: int)
    requires a <= b
    ensures a / FAILED_REVIVE_COOLOFF_SECONDS <= b / FAILED_REVIVE_COOLOFF_SECONDS
    ensures (a + FAILED_REVIVE_COOLOFF_SECONDS) / FAILED_REVIVE_COOLOFF_SECONDS == a / FAILED_REVIVE_COOLOFF_SECONDS + 1
  {
  }

  lemma BudgetIsNotNegative(row: Row, clock: int, end: int)
    requires RowInv(row) && clock <= end
    requires row.status == Failed ==> row.finishedAt.value <= clock
    ensures Budget(row, clock, end) >= 0
  {
    HoursAreMonotone(0, end - clock);
    if row.status == Failed {
      HoursAreMonotone(0, end - Later(row.finishedAt.value, clock - FAILED_REVIVE_COOLOFF_SECONDS));
    }
  }

  /** What a sweep may do to a failed row: leave it, or re-arm it once the cooloff is over. */
  lemma FailedRowSpendsBudget(row: Row, next: Row, clock: int, now: int, end: int)
    requires RowInv(row) && row.status == Failed && row.finishedAt.value <= clock <= now <= end
    requires next == row || (next == Revived(row, next.baseSha, now) && Revivable(row, "reconcile", now))
    ensures Budget(next, now, end) <= Budget(row, clock, end)
  {
    var since := Later(row.finishedAt.value, clock - FAILED_REVIVE_COOLOFF_SECONDS);
    if next == row {
      HoursAreMonotone(end - Later(row.finishedAt.value, now - FAILED_REVIVE_COOLOFF_SECONDS), end - since);
    } else {
      HoursAreMonotone(end - now + FAILED_REVIVE_COOLOFF_SECONDS, end - since);
      HoursAreMonotone(end - now, end - now);
    }
  }

  /** Any other row: its budget only shrinks, and a failure spends one of it. */
  lemma LiveRowSpendsBudget(row: Row, next: Row, clock: int, now: int, end: int)
    requires RowInv(row) && row.status != Failed && next.status != Superseded && clock <= now <= end
    requires (next.attempts == row.attempts && next.status != Failed)
             || (next.attempts == row.attempts + 1 && RowInv(next) && (next.status == Failed ==> next.finishedAt == Some(now)))
    ensures Budget(next, now, end) + (next.attempts - row.attempts) <= Budget(row, clock, end)
  {
    HoursAreMonotone(end - now, end - clock);
    assert next.status == Failed ==> Later(now, now - FAILED_REVIVE_COOLOFF_SECONDS) == now;
  }

  lemma StepSpendsBudget(rows: Table, step: Step, clock: int, end: int, j: nat)
    requires j < |rows| && RowInv(rows[j]) && rows[j].status != Superseded && Shipped(step)
    requires rows[j].status == Failed ==> rows[j].finishedAt.value <= clock
    requires step.Revive? && Same(rows[j], step.pr, step.headSha) ==> step.trigger == "reconcile"
    requires !step.Release? ==> clock <= step.now
    requires TimeOf(step, clock) <= end
    requires Next(rows, step).0[j].status != Superseded
    ensures var next := Next(rows, step).0[j];
            && (next.status == Failed ==> next.finishedAt.value <= TimeOf(step, clock))
            && RowInv(next)
            && Budget(next, TimeOf(step, clock), end)
               + (if step.Fail? && step.id == j && Next(rows, step).1 == Applied(true) then 1 else 0)
               <= Budget(rows[j], clock, end)
  {
    hide Budget;
    var next, now := Next(rows, step).0[j], TimeOf(step, clock);
    if rows[j].status == Failed {
      FailedRowSpendsBudget(rows[j], next, clock, now, end);
    } else {
      LiveRowSpendsBudget(rows[j], next, clock, now, end);
    }
  }

  lemma {:induction false} FailuresFitTheBudget(rows: Table, steps: seq<Step>, k: nat, clock: int, end: int, j: nat)
    requires k <= |steps| && j < |rows|
    requires RowInv(At(rows, steps, k)[j]) && At(rows, steps, k)[j].status != Superseded
    requires At(rows, steps, k)[j].status == Failed ==> At(rows, steps, k)[j].finishedAt.value <= clock
    requires At(rows, steps, |steps|)[j].status != Superseded
    requires SweepOnly(rows, steps, k, j) && Timed(steps, k, clock, end)
    ensures FailuresFrom(rows, steps, k, j) <= Budget(At(rows, steps, k)[j], clock, end)
    decreases |steps| - k
  {
    hide Next, Budget, RowInv, Shipped;
    TimedEnds(steps, k, clock, end);
    if k == |steps| {
      BudgetIsNotNegative(At(rows, steps, k)[j], clock, end);
    } else {
      var now := TimeOf(steps[k], clock);
      TimedEnds(steps, k + 1, now, end);
      assert SweepOnly(rows, steps, k + 1, j);
      assert At(rows, steps, k + 1)[j].status != Superseded;
      StepSpendsBudget(At(rows, steps, k), steps[k], clock, end, j);
      FailuresFitTheBudget(rows, steps, k + 1, now, end, j);
    }
  }

  lemma {:induction false} TimedEnds(steps: seq<Step>, k: nat, clock: int, end: int)
    requires k <= |steps| && Timed(steps, k, clock, end)
    ensures clock <= end
    decreases |steps| - k
  {
    if k < |steps| {
      TimedEnds(steps, k + 1, TimeOf(steps[k], clock), end);
    }
  }

  lemma WholeBudget(row: Row, start: int, span: nat)
    requires RowInv(row) && (row.status == Failed ==> row.finishedAt.value <= start)
    ensures Budget(row, start, start + span) <= MAX_ATTEMPTS * (span / FAILED_REVIVE_COOLOFF_SECONDS + 1)
  {
    HoursAreMonotone(span, span);
    if row.status == Failed {
      HoursAreMonotone(start + span - Later(row.finishedAt.value, start - FAILED_REVIVE_COOLOFF_SECONDS),
                       span + FAILED_REVIVE_COOLOFF_SECONDS);
    }
  }

  /**
    The bill of a permanently broken PR: over `span` seconds in which a row is
    never superseded and only the sweep revives it, at most
    MAX_ATTEMPTS * (span / 3600 + 1) failures are recorded against it.
   */
  lemma FailuresPerCooloffWindow(rows: Table, steps: seq<Step>, start: int, span: nat, j: nat)
    requires Inv(rows) && j < |rows| && rows[j].status != Superseded
    requires rows[j].status == Failed ==> rows[j].finishedAt.value <= start
    requires At(rows, steps, |steps|)[j].status != Superseded
    requires SweepOnly(rows, steps, 0, j) && Timed(steps, 0, start, start + span)
    ensures FailuresFrom(rows, steps, 0, j) <= MAX_ATTEMPTS * (span / FAILED_REVIVE_COOLOFF_SECONDS + 1)
  {
    hide RowInv, SweepOnly, FailuresFrom, Timed, Budget, Same;
    assert RowInv(rows[j]);
    FailuresFitTheBudget(rows, steps, 0, start, start + span, j);
    WholeBudget(rows[j], start, span);
  }

  // ----------------------------------------------------------- the lease

  /** After a sweep with the default lease no running claim is older than it, and no attempt is spent. */
  lemma ReclaimClearsExpiredLeases(rows: Table, now: int, i: nat)
    requires Inv(rows) && i < |rows|
    ensures var next := Next(rows, Reclaim(STALL_LEASE_SECONDS, now)).0[i];
            && (next.status == Running ==> next.startedAt.value >= now - STALL_LEASE_SECONDS)
            && next.attempts == rows[i].attempts && next.generation == rows[i].generation
            && (next != rows[i] ==> rows[i].status == Running && next.status == Pending && next.enqueuedAt == now)
  {
  }

  // ------------------------------------------------------------ the module's API

  /** Attempts are neither lost nor invented: between revives they grow by exactly the failures recorded. */
  lemma {:induction false} AttemptsCountFailures(rows: Table, steps: seq<Step>, k: nat, j: nat)
    requires k <= |steps| && j < |At(rows, steps, k)|
    requires forall m: nat :: k <= m < |steps| ==> steps[m].Revive? ==> ReplyAt(rows, steps, m) != Queued(j)
    ensures j < |At(rows, steps, |steps|)|
    ensures At(rows, steps, |steps|)[j].attempts == At(rows, steps, k)[j].attempts + FailuresFrom(rows, steps, k, j)
    decreases |steps| - k
  {
    if k < |steps| {
      StepCountsFailure(At(rows, steps, k), steps[k], j);
      assert At(rows, steps, k + 1) == Next(At(rows, steps, k), steps[k]).0;
      hide Next;
      AttemptsCountFailures(rows, steps, k + 1, j);
    }
  }

  lemma StepCountsFailure(rows: Table, step: Step, j: nat)
    requires j < |rows| && (step.Revive? ==> Next(rows, step).1 != Queued(j))
    ensures Next(rows, step).0[j].attempts
         == rows[j].attempts + if step.Fail? && step.id == j && Next(rows, step).1 == Applied(true) then 1 else 0
  {
  }

  /** The table as its callers reach it: each method is one call, run with no other step inside it. */
  // ------------------------------------------------------------- what stays

  /** A row may change only as the subject of the step: nothing else in the table moves. */
  ghost predicate MayTouch(row: Row, id: nat, step: Step, reply: Reply) {
    match step
    case Insert(pr, headSha, _, _) => row.pr == pr && row.headSha != headSha && row.status == Pending
    case Revive(pr, headSha, _, _, _) => row.pr == pr && row.headSha == headSha && reply == Queued(id)
    case Claim(_) => reply.Claimed? && reply.id == id && row.status == Pending
    case Reclaim(olderThan, now) => row.status == Running && (row.startedAt.Some? ==> now - row.startedAt.value > olderThan)
    case _ => reply == Applied(true) && id == step.id && row.status == Running && row.generation == step.generation
  }

  /** A superseded row keeps everything but its status and finish time. */
  ghost predicate Retired(earlier: Row, later: Row, now: int) {
    && later.status == Superseded && later.finishedAt == Some(now)
    && earlier == later.(status := earlier.status, finishedAt := earlier.finishedAt)
  }

  /** Every step leaves every row but its own subjects exactly as it was. */
  lemma StepFrame(rows: Table, step: Step, id: nat)
    requires id < |rows|
    ensures Next(rows, step).0[id] != rows[id] ==> MayTouch(rows[id], id, step, Next(rows, step).1)
    ensures step.Insert? && Next(rows, step).0[id] != rows[id] ==> Retired(rows[id], Next(rows, step).0[id], step.now)
  {
  }

  /** The text, or its first 500 characters. */
  ghost predicate IsCutOf(kept: string, text: string) {
    kept <= text && |kept| <= 500 && (|kept| < 500 ==> kept == text)
  }

  class ReviewJobs {
    var rows: Table

    ghost predicate Valid()
      reads this
    {
      Inv(rows)
    }

    constructor ()
      ensures Valid() && rows == []
    {
      rows := [];
    }

    /** Insert first; on a collision revive, on the terms `trigger` decides. */
    method Enqueue(pr: PrKey, headSha: string, baseSha: string, trigger: string, now: int)
      returns (job: Result<Option<nat>, string>)
      requires Valid()
      modifies this
      ensures Valid()
      ensures job.Err? <==> baseSha == ""
      ensures job.Err? ==> rows == old(rows)
      ensures job.Ok? && Lookup(old(rows), pr, headSha).None? ==>
                rows == Next(old(rows), Insert(pr, headSha, baseSha, now)).0 && job.value == Some(|old(rows)|)
      ensures job.Ok? && Lookup(old(rows), pr, headSha).Some? ==>
                var (next, reply) := Next(old(rows), Revive(pr, headSha, baseSha, trigger, now));
                rows == next && job.value == if reply.Queued? then Some(reply.id) else None
      ensures job.Ok? && trigger != "reconcile" ==> Covered(rows, pr, headSha)
      ensures |old(rows)| <= |rows| && forall i :: 0 <= i < |old(rows)| && old(rows)[i].pr != pr ==> rows[i] == old(rows)[i]
    {
      if baseSha == "" {
        return Err("base_sha is required for new review work");
      }
      StepKeepsInv(rows, Insert(pr, headSha, baseSha, now));
      StepKeepsInv(rows, Revive(pr, headSha, baseSha, trigger, now));
      var found := Lookup(rows, pr, headSha);
      if found.None? {
        rows := InsertRow(rows, pr, headSha, baseSha, now);
        assert Same(rows[|rows| - 1], pr, headSha);
        return Ok(Some(|rows| - 1));
      }
      var row := rows[found.value];
      if Revivable(row, trigger, now) {
        rows := rows[found.value := row.(
          status := Pending, attempts := 0, error := None, enqueuedAt := now, startedAt := None,
          finishedAt := None, verdictId := None, baseSha := baseSha)];
        assert Same(rows[found.value], pr, headSha);
        return Ok(Some(found.value));
      }
      assert Same(rows[found.value], pr, headSha);
      return Ok(None);
    }

    method ClaimOldest(now: int) returns (token: Option<(nat, nat)>)
      requires Valid()
      modifies this
      ensures Valid()
      ensures rows == Next(old(rows), Claim(now)).0
      ensures token.None? <==> forall i :: 0 <= i < |rows| ==> old(rows)[i].status != Pending
      ensures token.Some? ==> Holds(rows, token.value.0, token.value.1) && rows[token.value.0].startedAt == Some(now)
      ensures token.Some? ==> old(rows)[token.value.0].status == Pending
                              && forall i :: 0 <= i < |rows| && old(rows)[i].status == Pending ==>
                                   i == token.value.0 || Before(old(rows), token.value.0, i)
    {
      StepKeepsInv(rows, Claim(now));
      var head := Oldest(rows, |rows|);
      if head.None? {
        return None;
      }
      var id, generation := head.value, rows[head.value].generation + 1;
      rows := rows[id := rows[id].(status := Running, startedAt := Some(now), generation := generation)];
      return Some((id, generation));
    }

    method ReclaimStalled(olderThan: nat, now: int)
      requires Valid()
      modifies this
      ensures Valid()
      ensures rows == Next(old(rows), Reclaim(olderThan, now)).0
      ensures forall i :: 0 <= i < |rows| ==> !Stalled(rows[i], olderThan, now)
    {
      StepKeepsInv(rows, Reclaim(olderThan, now));
      rows := ReclaimRows(rows, olderThan, now);
    }

    method ReleaseJob(id: nat, generation: nat) returns (held: bool)
      requires Valid()
      modifies this
      ensures Valid()
      ensures held == Holds(old(rows), id, generation)
      ensures rows == Next(old(rows), Release(id, generation)).0
      ensures !held ==> rows == old(rows)
      ensures held ==> rows[id].status == Pending && rows[id].enqueuedAt == old(rows)[id].enqueuedAt
                       && rows[id].attempts == old(rows)[id].attempts
    {
      StepKeepsInv(rows, Release(id, generation));
      held := Holds(rows, id, generation);
      if held {
        rows := rows[id := rows[id].(status := Pending, startedAt := None)];
      }
    }

    method CompleteJob(id: nat, generation: nat, verdictId: Option<int>, owes: bool, now: int) returns (held: bool)
      requires Valid()
      modifies this
      ensures Valid()
      ensures held == Holds(old(rows), id, generation)
      ensures rows == Next(old(rows), Complete(id, generation, verdictId, owes, now)).0
      ensures !held ==> rows == old(rows)
      ensures held ==> rows[id].status == Done && rows[id].owesComment == owes && rows[id].verdictId == verdictId
                       && rows[id].error == None && rows[id].finishedAt == Some(now)
    {
      StepKeepsInv(rows, Complete(id, generation, verdictId, owes, now));
      held := Holds(rows, id, generation);
      if held {
        rows := rows[id := rows[id].(status := Done, verdictId := verdictId, finishedAt := Some(now), error := None)];
        if owes {
          rows := rows[id := rows[id].(owesComment := true)];
        }
      }
    }

    method SupersedeJob(id: nat, generation: nat, now: int) returns (held: bool)
      requires Valid()
      modifies this
      ensures Valid()
      ensures held == Holds(old(rows), id, generation)
      ensures rows == Next(old(rows), Supersede(id, generation, now)).0
      ensures !held ==> rows == old(rows)
      ensures held ==> rows[id].status == Superseded && rows[id].finishedAt == Some(now)
    {
      StepKeepsInv(rows, Supersede(id, generation, now));
      held := Holds(rows, id, generation);
      if held {
        rows := rows[id := rows[id].(status := Superseded, finishedAt := Some(now))];
      }
    }

    method FailJob(id: nat, generation: nat, error: string, maxAttempts: nat, now: int) returns (held: bool)
      requires Valid()
      modifies this
      ensures maxAttempts == MAX_ATTEMPTS ==> Valid()
      ensures held == Holds(old(rows), id, generation)
      ensures rows == Next(old(rows), Fail(id, generation, error, maxAttempts, now)).0
      ensures !held ==> rows == old(rows)
      ensures held ==> (rows[id].status == Failed <==> old(rows)[id].attempts + 1 >= maxAttempts)
      ensures held ==> rows[id].error.Some? && IsCutOf(rows[id].error.value, error)
      ensures held ==> rows[id].attempts == old(rows)[id].attempts + 1
                       && rows[id].enqueuedAt == (if rows[id].status == Failed then old(rows)[id].enqueuedAt else now)
    {
      if maxAttempts == MAX_ATTEMPTS {
        StepKeepsInv(rows, Fail(id, generation, error, maxAttempts, now));
      }
      held := Holds(rows, id, generation);
      if held {
        var row := rows[id].(attempts := rows[id].attempts + 1, error := Some(Truncate(error, 500)), startedAt := None);
        if row.attempts >= maxAttempts {
          rows := rows[id := row.(status := Failed, finishedAt := Some(now))];
        } else {
          rows := rows[id := row.(status := Pending, enqueuedAt := now)];
        }
      }
    }
  }
}
