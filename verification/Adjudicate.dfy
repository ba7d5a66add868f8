/** Job rows and a revert map to one disposition each (api/doug/adjudicate.py). */
module Adjudicate {
  // Instants are seconds. `Commit.instant` is what `commit_instant` makes of the committer date: the
  // instant, or the text of the ValueError it raises.

  import opened Common
  import opened OutcomeJobs

  const TOLERANCE_DAYS: int := 1

  datatype Kind = Revert | Clean | Censored
  datatype CensorReason = BaseRef | Unreachable

  datatype Commit = Commit(sha: string, instant: Result<int, string>)

  datatype Detail = Detail(
    anchorSha: string,
    revertSha: Option<string>,
    revertInstant: Option<int>,
    windowStartsAt: int,
    windowEndsAt: int,
    baseRef: string,
    defaultBranch: Option<string>,
    censorReason: Option<CensorReason>)

  datatype Outcome = Outcome(identity: Identity, kind: Kind, detail: Detail)

  datatype Unadjudicable = Unadjudicable(job: Job, reason: string)

  datatype Adjudication = Adjudication(outcomes: seq<Outcome>, unadjudicable: seq<Unadjudicable>)

  type RevertMap = map<int, Commit>

  /** No revert is attributed, or its committer date parses. */
  predicate Adjudicable(job: Job, reverts: RevertMap) {
    job.identity.pr in reverts ==> reverts[job.identity.pr].instant.Ok?
  }

  function Classify(job: Job, revert: Option<Commit>, revertInstant: Option<int>, defaultBranch: Option<string>): Outcome {
    var endsAt := job.mergedAt + job.identity.windowDays * DAY;
    var startsAt := job.mergedAt - TOLERANCE_DAYS * DAY;
    var (kind, reason) :=
      if revertInstant.Some? && startsAt <= revertInstant.value <= endsAt then (Revert, None)
      else if defaultBranch.None? then (Censored, Some(Unreachable))
      else if Some(job.baseRef) != defaultBranch then (Censored, Some(BaseRef))
      else (Clean, None);
    Outcome(job.identity, kind,
            Detail(job.identity.mergeSha, if revert.Some? then Some(revert.value.sha) else None, revertInstant,
                   startsAt, endsAt, job.baseRef, defaultBranch, reason))
  }

  /** The row one adjudicable job gets. */
  function OutcomeOf(job: Job, reverts: RevertMap, defaultBranch: Option<string>): Outcome
    requires Adjudicable(job, reverts)
  {
    if job.identity.pr in reverts
    then Classify(job, Some(reverts[job.identity.pr]), Some(reverts[job.identity.pr].instant.value), defaultBranch)
    else Classify(job, None, None, defaultBranch)
  }

  /** Positions of the jobs that are (or are not) adjudicable, in order. */
  function Positions(jobs: seq<Job>, reverts: RevertMap, wanted: bool): (r: seq<nat>)
    ensures forall k :: 0 <= k < |r| ==> r[k] < |jobs| && Adjudicable(jobs[r[k]], reverts) == wanted
    ensures forall k, l :: 0 <= k < l < |r| ==> r[k] < r[l]
    ensures forall i :: 0 <= i < |jobs| && Adjudicable(jobs[i], reverts) == wanted ==> i in r
  {
    if |jobs| == 0 then []
    else
      var rest := Positions(jobs[..|jobs| - 1], reverts, wanted);
      if Adjudicable(jobs[|jobs| - 1], reverts) == wanted then rest + [|jobs| - 1] else rest
  }

  /** The rows to write: one for each adjudicable job, in order. */
  function Outcomes(jobs: seq<Job>, reverts: RevertMap, defaultBranch: Option<string>): (r: seq<Outcome>)
    ensures |r| == |Positions(jobs, reverts, true)|
  {
    var at := Positions(jobs, reverts, true);
    seq(|at|, k requires 0 <= k < |at| => OutcomeOf(jobs[at[k]], reverts, defaultBranch))
  }

  function RefusalOf(job: Job, reverts: RevertMap): Unadjudicable
    requires !Adjudicable(job, reverts)
  {
    Unadjudicable(job, reverts[job.identity.pr].instant.error)
  }

  /** The jobs to fail: every other one, in order. */
  function Refused(jobs: seq<Job>, reverts: RevertMap): (r: seq<Unadjudicable>)
    ensures |r| == |Positions(jobs, reverts, false)|
  {
    var at := Positions(jobs, reverts, false);
    seq(|at|, k requires 0 <= k < |at| => RefusalOf(jobs[at[k]], reverts))
  }

  /** Exactly one entry for each job, across the two lists. */
  lemma {:induction false} OneEntryPerJob(jobs: seq<Job>, reverts: RevertMap)
    ensures |Positions(jobs, reverts, true)| + |Positions(jobs, reverts, false)| == |jobs|
  {
    if |jobs| > 0 {
      OneEntryPerJob(jobs[..|jobs| - 1], reverts);
    }
  }

  lemma AppendedJob(jobs: seq<Job>, job: Job, reverts: RevertMap, defaultBranch: Option<string>)
    ensures Outcomes(jobs + [job], reverts, defaultBranch)
      == Outcomes(jobs, reverts, defaultBranch)
       + if Adjudicable(job, reverts) then [OutcomeOf(job, reverts, defaultBranch)] else []
  {
    assert (jobs + [job])[..|jobs|] == jobs;
  }

  lemma AppendedRefusal(jobs: seq<Job>, job: Job, reverts: RevertMap)
    ensures Refused(jobs + [job], reverts)
      == Refused(jobs, reverts) + if Adjudicable(job, reverts) then [] else [RefusalOf(job, reverts)]
  {
    assert (jobs + [job])[..|jobs|] == jobs;
  }

  lemma EmptyBatch(reverts: RevertMap, defaultBranch: Option<string>)
    ensures Outcomes([], reverts, defaultBranch) == [] && Refused([], reverts) == []
  {
  }

  /** What becomes of one job, by its revert alone. */
  lemma EntryFor(job: Job, reverts: RevertMap, defaultBranch: Option<string>)
    ensures var revert := if job.identity.pr in reverts then Some(reverts[job.identity.pr]) else None;
            if revert.Some? && revert.value.instant.Err?
            then !Adjudicable(job, reverts) && RefusalOf(job, reverts) == Unadjudicable(job, revert.value.instant.error)
            else Adjudicable(job, reverts) && OutcomeOf(job, reverts, defaultBranch)
                   == Classify(job, revert, if revert.Some? then Some(revert.value.instant.value) else None, defaultBranch)
  {
    hide Classify;
  }

  method AdjudicateBatch(jobs: seq<Job>, reverts: RevertMap, defaultBranch: Option<string>) returns (r: Adjudication)
    ensures r.outcomes == Outcomes(jobs, reverts, defaultBranch)
    ensures r.unadjudicable == Refused(jobs, reverts)
    ensures |r.outcomes| + |r.unadjudicable| == |jobs|
  {
    hide Classify, Outcomes, Refused, Adjudicable, OutcomeOf, RefusalOf, Positions;
    EmptyBatch(reverts, defaultBranch);
    var outcomes: seq<Outcome>, unadjudicable: seq<Unadjudicable> := [], [];
    for i := 0 to |jobs|
      invariant outcomes == Outcomes(jobs[..i], reverts, defaultBranch)
      invariant unadjudicable == Refused(jobs[..i], reverts)
    {
      AppendedJob(jobs[..i], jobs[i], reverts, defaultBranch);
      AppendedRefusal(jobs[..i], jobs[i], reverts);
      assert jobs[..i + 1] == jobs[..i] + [jobs[i]];
      var job := jobs[i];
      EntryFor(job, reverts, defaultBranch);
      var revert := if job.identity.pr in reverts then Some(reverts[job.identity.pr]) else None;
      if revert.Some? && revert.value.instant.Err? {
        unadjudicable := unadjudicable + [Unadjudicable(job, revert.value.instant.error)];
      } else {
        var instant := if revert.Some? then Some(revert.value.instant.value) else None;
        outcomes := outcomes + [Classify(job, revert, instant, defaultBranch)];
      }
    }
    assert jobs[..|jobs|] == jobs;
    OneEntryPerJob(jobs, reverts);
    r := Adjudication(outcomes, unadjudicable);
  }

  // ------------------------------------------------------ what a row means

  /**
    The same merge at two window lengths: refused together, a revert at the
    shorter is a revert at the longer, and where the longer sees none both rows
    carry the same disposition for the same reason.
   */
  lemma LongerWindowsOnlyAddReverts(shorter: Job, longer: Job, reverts: RevertMap, defaultBranch: Option<string>)
    requires longer == shorter.(identity := shorter.identity.(windowDays := longer.identity.windowDays))
    requires shorter.identity.windowDays <= longer.identity.windowDays
    ensures Adjudicable(shorter, reverts) == Adjudicable(longer, reverts)
    ensures Adjudicable(shorter, reverts) ==>
              var a, b := OutcomeOf(shorter, reverts, defaultBranch), OutcomeOf(longer, reverts, defaultBranch);
              && (a.kind == Revert ==> b.kind == Revert)
              && (b.kind != Revert ==> a.kind == b.kind && a.detail.censorReason == b.detail.censorReason)
              && a.detail.revertInstant == b.detail.revertInstant
              && a.detail.windowStartsAt == b.detail.windowStartsAt
  {
    assert shorter.identity.windowDays * DAY <= longer.identity.windowDays * DAY;
  }

  /** The reverting commit attributed to this job landed within its window, both bounds inclusive. */
  predicate RevertedInWindow(job: Job, reverts: RevertMap)
    requires Adjudicable(job, reverts)
  {
    && job.identity.pr in reverts
    && var lag := reverts[job.identity.pr].instant.value - job.mergedAt;
       -TOLERANCE_DAYS * DAY <= lag <= job.identity.windowDays * DAY
  }

  lemma KindOfRow(job: Job, reverts: RevertMap, branch: Option<string>)
    requires Adjudicable(job, reverts)
    ensures var row := OutcomeOf(job, reverts, branch);
            && (row.kind == Revert <==> RevertedInWindow(job, reverts))
            && (row.kind == Clean <==> !RevertedInWindow(job, reverts) && branch == Some(job.baseRef))
            && (row.kind == Censored <==> row.detail.censorReason.Some?)
            && (row.detail.censorReason == Some(Unreachable) <==> !RevertedInWindow(job, reverts) && branch.None?)
            && row.identity == job.identity
  {
  }

  /** A row carries what it was judged by: the merge, the window around it, the revert attributed to it, the branches. */
  lemma RowCarriesItsEvidence(job: Job, reverts: RevertMap, branch: Option<string>)
    requires Adjudicable(job, reverts)
    ensures var row := OutcomeOf(job, reverts, branch);
            && row.identity == job.identity && row.detail.anchorSha == job.identity.mergeSha
            && row.detail.baseRef == job.baseRef && row.detail.defaultBranch == branch
            && row.detail.windowEndsAt - job.mergedAt == job.identity.windowDays * DAY
            && job.mergedAt - row.detail.windowStartsAt == TOLERANCE_DAYS * DAY
            && (job.identity.pr in reverts ==>
                  row.detail.revertSha == Some(reverts[job.identity.pr].sha)
                  && row.detail.revertInstant == Some(reverts[job.identity.pr].instant.value))
            && (job.identity.pr !in reverts ==> row.detail.revertSha == None && row.detail.revertInstant == None)
  {
  }

  /** A published row can be checked by itself: its kind and reason follow from the evidence printed on it. */
  lemma RowExplainsItself(job: Job, reverts: RevertMap, branch: Option<string>)
    requires Adjudicable(job, reverts)
    ensures var row := OutcomeOf(job, reverts, branch);
            var d := row.detail;
            var inWindow := d.revertInstant.Some? && d.windowStartsAt <= d.revertInstant.value <= d.windowEndsAt;
            && (row.kind == Revert <==> inWindow)
            && (row.kind == Clean <==> !inWindow && d.defaultBranch == Some(d.baseRef))
            && (d.censorReason == Some(Unreachable) <==> !inWindow && d.defaultBranch == None)
            && (d.censorReason == Some(BaseRef) <==> !inWindow && d.defaultBranch.Some? && d.defaultBranch.value != d.baseRef)
            && (row.kind == Censored <==> d.censorReason.Some?)
  {
  }

  /** Which branch was cloned never moves a job between reverted and not, nor a date it is judged by. */
  lemma BranchOnlyCensors(job: Job, reverts: RevertMap, branch: Option<string>, other: Option<string>)
    requires Adjudicable(job, reverts)
    ensures var a, b := OutcomeOf(job, reverts, branch), OutcomeOf(job, reverts, other);
            && a.identity == b.identity && (a.kind == Revert <==> b.kind == Revert)
            && (a.kind == Clean && b.kind == Clean ==> branch == other)
            && (other.None? && a.kind != b.kind ==> a.kind == Clean && b.kind == Censored)
            && a.detail.revertInstant == b.detail.revertInstant && a.detail.windowStartsAt == b.detail.windowStartsAt
  {
    KindOfRow(job, reverts, branch);
    KindOfRow(job, reverts, other);
  }

  /**
    Attribution precedes censoring, over a whole batch: two runs of it against different clones publish
    the same reverts, and losing the clone turns clean rows into censored ones and
    does nothing else. So what was cloned can lower no published revert count.
   */
  lemma AttributionPrecedesCensoring(jobs: seq<Job>, reverts: RevertMap, branch: Option<string>, other: Option<string>)
    ensures var a, b := Outcomes(jobs, reverts, branch), Outcomes(jobs, reverts, other);
            && |a| == |b|
            && (forall k :: 0 <= k < |a| ==> a[k].identity == b[k].identity && (a[k].kind == Revert <==> b[k].kind == Revert))
            && (other.None? ==> forall k :: 0 <= k < |a| ==> b[k].kind == if a[k].kind == Revert then Revert else Censored)
            && forall w :: |PredatedIn(a, w)| == |PredatedIn(b, w)|
  {
    hide OutcomeOf, Adjudicable, RevertedInWindow;
    var a, b := Outcomes(jobs, reverts, branch), Outcomes(jobs, reverts, other);
    var at := Positions(jobs, reverts, true);
    forall k | 0 <= k < |at|
      ensures a[k].identity == b[k].identity && (a[k].kind == Revert <==> b[k].kind == Revert)
      ensures other.None? ==> b[k].kind == if a[k].kind == Revert then Revert else Censored
      ensures Predated(a[k]) <==> Predated(b[k])
    {
      BranchOnlyCensors(jobs[at[k]], reverts, branch, other);
      KindOfRow(jobs[at[k]], reverts, other);
    }
    forall w ensures PredatedIn(a, w) == PredatedIn(b, w) {
    }
  }

  /** The backtest's label filter, `(revert - merged).days >= -T`: Python floors towards minus infinity. */
  predicate KeptByDayFilter(merged: int, revert: int, toleranceDays: int) {
    (revert - merged) / DAY >= -toleranceDays
  }

  /** The exact lower bound and the floor-of-days filter keep the same labels, at every integer tolerance. */
  lemma ExactBoundEqualsDayFilter(merged: int, revert: int, toleranceDays: int)
    ensures merged - toleranceDays * DAY <= revert <==> KeptByDayFilter(merged, revert, toleranceDays)
  {
    var lag := revert - merged;
    assert lag == DAY * (lag / DAY) + lag % DAY;
  }

  /** A dropped label: attributed, but dated before the lower bound. */
  predicate Predated(outcome: Outcome) {
    outcome.detail.revertInstant.Some? && outcome.detail.revertInstant.value < outcome.detail.windowStartsAt
  }

  function Count(m: map<int, nat>, window: int): nat {
    if window in m then m[window] else 0
  }

  function PredatedIn(outcomes: seq<Outcome>, window: int): set<nat> {
    set i: nat | i < |outcomes| && Predated(outcomes[i]) && outcomes[i].identity.windowDays == window
  }

  lemma OneMorePredated(outcomes: seq<Outcome>, outcome: Outcome, window: int)
    ensures |PredatedIn(outcomes + [outcome], window)|
      == |PredatedIn(outcomes, window)| + if Predated(outcome) && outcome.identity.windowDays == window then 1 else 0
  {
    assert PredatedIn(outcomes + [outcome], window)
      == PredatedIn(outcomes, window)
       + if Predated(outcome) && outcome.identity.windowDays == window then {|outcomes| as nat} else {};
  }

  method PredatedReverts(outcomes: seq<Outcome>) returns (dropped: map<int, nat>)
    ensures forall w :: Count(dropped, w) == |PredatedIn(outcomes, w)|
    ensures forall w :: w in dropped <==> PredatedIn(outcomes, w) != {}
  {
    dropped := map[];
    for i := 0 to |outcomes|
      invariant forall w :: Count(dropped, w) == |PredatedIn(outcomes[..i], w)|
      invariant forall w :: w in dropped ==> dropped[w] > 0
    {
      var outcome := outcomes[i];
      var window := outcome.identity.windowDays;
      assert outcomes[..i + 1] == outcomes[..i] + [outcome];
      ghost var before := dropped;
      if Predated(outcome) {
        dropped := dropped[window := Count(dropped, window) + 1];
      }
      forall w ensures Count(dropped, w) == |PredatedIn(outcomes[..i + 1], w)| {
        assert Count(before, w) == |PredatedIn(outcomes[..i], w)|;
        OneMorePredated(outcomes[..i], outcome, w);
      }
    }
    assert outcomes[..|outcomes|] == outcomes;
    forall w ensures w in dropped <==> PredatedIn(outcomes, w) != {} {
      assert Count(dropped, w) == |PredatedIn(outcomes, w)|;
    }
  }

  /** A dropped label is never also a published miss, and the day filter is what dropped it. */
  lemma PredatedNeverOverlapsReverts(job: Job, reverts: RevertMap, defaultBranch: Option<string>)
    requires Adjudicable(job, reverts)
    ensures var row := OutcomeOf(job, reverts, defaultBranch);
            && !(Predated(row) && row.kind == Revert)
            && (row.detail.revertInstant.Some? ==>
                  (Predated(row) <==> !KeptByDayFilter(job.mergedAt, row.detail.revertInstant.value, TOLERANCE_DAYS)))
  {
    if OutcomeOf(job, reverts, defaultBranch).detail.revertInstant.Some? {
      ExactBoundEqualsDayFilter(job.mergedAt, OutcomeOf(job, reverts, defaultBranch).detail.revertInstant.value, TOLERANCE_DAYS);
    }
  }
}
