/** The backfill of missing 60-day outcome jobs, and its undoing (api/doug/outcome_backfill.py). */
module Backfill {
  // A guarded one-off repair gives every 14-day job its missing 60-day sibling; the rollback takes exactly
  // those rows away again.

  import opened Common
  import opened OutcomeJobs

  type Jobs = map<int, Job>

  const LONG_WINDOW: int := 60
  const SHORT_WINDOW: int := 14

  /** One line of the manifest: a row's id and identity. */
  datatype Entry = Entry(id: int, identity: Identity)

  datatype BackfillError =
    | MismatchedPairs | OrphanJobs | UnexpectedMissing | UnexpectedInserted
    | NotCleanAfter | ManifestNotWritten
    | InvalidManifest | ManifestRowsGone | ManifestRowsTouched | UnexpectedDeleted

  /** The table's own unique constraint. */
  ghost predicate Unique(jobs: Jobs) {
    forall k, l :: k in jobs && l in jobs && k != l ==> jobs[k].identity != jobs[l].identity
  }

  // -------------------------------------------------------------- the report

  predicate AreSiblings(short: Identity, long: Identity) {
    && short.windowDays == SHORT_WINDOW && long.windowDays == LONG_WINDOW
    && long == short.(windowDays := LONG_WINDOW)
  }

  predicate HasLong(jobs: Jobs, k: int)
    requires k in jobs
  {
    exists l :: l in jobs && AreSiblings(jobs[k].identity, jobs[l].identity)
  }

  predicate HasShort(jobs: Jobs, l: int)
    requires l in jobs
  {
    exists k :: k in jobs && AreSiblings(jobs[k].identity, jobs[l].identity)
  }

  function Eligible(jobs: Jobs, installations: set<int>): set<int> {
    set k | k in jobs && jobs[k].identity.windowDays == SHORT_WINDOW && jobs[k].identity.installation in installations
  }

  function Missing(jobs: Jobs, installations: set<int>): set<int> {
    set k | k in Eligible(jobs, installations) && !HasLong(jobs, k)
  }

  function Overdue(jobs: Jobs, installations: set<int>, now: int): set<int> {
    set k | k in Missing(jobs, installations) && jobs[k].mergedAt <= now - LONG_WINDOW * DAY
  }

  function Orphans(jobs: Jobs, installations: set<int>): set<int> {
    set l | l in jobs && jobs[l].identity.windowDays == LONG_WINDOW && jobs[l].identity.installation in installations
            && !HasShort(jobs, l)
  }

  predicate Differs(short: Job, long: Job) {
    short.mergedAt != long.mergedAt || short.baseRef != long.baseRef || long.dueAt != short.mergedAt + LONG_WINDOW * DAY
  }

  function Mismatches(jobs: Jobs, installations: set<int>): set<(int, int)> {
    set k, l | k in Eligible(jobs, installations) && l in jobs
               && AreSiblings(jobs[k].identity, jobs[l].identity) && Differs(jobs[k], jobs[l]) :: (k, l)
  }

  datatype Report = Report(eligible: nat, existing: nat, missing: nat, overdue: nat, orphans: nat, mismatches: nat)

  function Inspect(jobs: Jobs, installations: set<int>, now: int): Report {
    Report(
      |Eligible(jobs, installations)|,
      |set k | k in Eligible(jobs, installations) && HasLong(jobs, k)|,
      |Missing(jobs, installations)|,
      |Overdue(jobs, installations, now)|,
      |Orphans(jobs, installations)|,
      |Mismatches(jobs, installations)|)
  }

  /** Every eligible job has its sibling or misses it. */
  lemma ReportPartitionsEligible(jobs: Jobs, installations: set<int>, now: int)
    ensures var r := Inspect(jobs, installations, now); r.existing + r.missing == r.eligible && r.overdue <= r.missing
  {
    var have := set k | k in Eligible(jobs, installations) && HasLong(jobs, k);
    assert have + Missing(jobs, installations) == Eligible(jobs, installations);
    assert have !! Missing(jobs, installations);
    SubsetCardinality(Overdue(jobs, installations, now), Missing(jobs, installations));
  }

  /** The conditions the repair insists on before it writes. */
  ghost predicate CleanBefore(jobs: Jobs, installations: set<int>, expected: int) {
    Mismatches(jobs, installations) == {} && Orphans(jobs, installations) == {} && |Missing(jobs, installations)| == expected
  }

  // ------------------------------------------------- the audit, column by column

  /** Two rows of one merged pull request, the one watched for 14 days and the other for 60. */
  ghost predicate SameMerge(short: Identity, long: Identity) {
    && short.windowDays == 14 && long.windowDays == 60 && short.installation == long.installation
    && short.repo == long.repo && short.pr == long.pr && short.mergeSha == long.mergeSha
  }

  lemma SiblingsAreOneMerge(short: Identity, long: Identity)
    ensures AreSiblings(short, long) <==> SameMerge(short, long)
  {
  }

  /** What the three audits look for. */
  lemma AuditMeans(jobs: Jobs, installations: set<int>, k: int, l: int)
    ensures k in Missing(jobs, installations) <==>
              && k in jobs && jobs[k].identity.windowDays == 14 && jobs[k].identity.installation in installations
              && forall j :: j in jobs ==> !SameMerge(jobs[k].identity, jobs[j].identity)
    ensures (k, l) in Mismatches(jobs, installations) <==>
              && k in jobs && l in jobs && jobs[k].identity.installation in installations
              && SameMerge(jobs[k].identity, jobs[l].identity)
              && !(jobs[l].mergedAt == jobs[k].mergedAt && jobs[l].baseRef == jobs[k].baseRef && jobs[l].dueAt - jobs[k].mergedAt == 60 * 86_400)
    ensures l in Orphans(jobs, installations) <==>
              && l in jobs && jobs[l].identity.windowDays == 60 && jobs[l].identity.installation in installations
              && forall j :: j in jobs ==> !SameMerge(jobs[j].identity, jobs[l].identity)
  {
    forall j, i | j in jobs && i in jobs ensures AreSiblings(jobs[i].identity, jobs[j].identity) <==> SameMerge(jobs[i].identity, jobs[j].identity) {
      SiblingsAreOneMerge(jobs[i].identity, jobs[j].identity);
    }
    hide AreSiblings, SameMerge;
  }

  /** A row no worker has been near: waiting, never tried, never claimed. */
  lemma UntouchedMeans(job: Job)
    ensures Untouched(job) <==>
              job == Job(job.identity, job.mergedAt, job.baseRef, job.dueAt, job.createdAt, Pending, 0, 0, None, None, None)
  {
  }

  // ------------------------------------------------------------ the repair

  /** The job a missing sibling becomes. */
  function LongJob(short: Job): Job {
    NewJob(short.identity.(windowDays := LONG_WINDOW), short.mergedAt, short.baseRef, short.mergedAt + LONG_WINDOW * DAY, short.createdAt)
  }

  predicate Untouched(job: Job) {
    && job.status == Pending && job.attempts == 0 && job.generation == 0
    && job.startedAt == None && job.finishedAt == None && job.error == None
  }

  predicate Distinct<T(==)>(s: seq<T>) {
    forall i, j :: 0 <= i < j < |s| ==> s[i] != s[j]
  }

  /** Old rows stand; row `manifest[i]` is new and is the sibling job `from[i]` missed. */
  ghost predicate Inserted(before: Jobs, after: Jobs, from: seq<int>, manifest: seq<Entry>) {
    && |from| == |manifest| && Distinct(from)
    && (forall i :: 0 <= i < |from| ==> from[i] in before)
    && (forall k :: k in before ==> k in after && after[k] == before[k])
    && (forall i :: 0 <= i < |manifest| ==> IsSibling(before, after, from[i], manifest[i]))
    && (forall i, j :: 0 <= i < j < |manifest| ==> manifest[i].id != manifest[j].id)
    && (forall k :: k in after && k !in before ==> InManifest(manifest, k))
  }

  ghost predicate IsSibling(before: Jobs, after: Jobs, source: int, e: Entry) {
    && source in before && e.id in after && e.id !in before
    && after[e.id] == LongJob(before[source]) && e.identity == after[e.id].identity
  }

  ghost predicate InManifest(manifest: seq<Entry>, id: int) {
    exists i :: 0 <= i < |manifest| && manifest[i].id == id
  }

  /** Each missing sibling once. */
  ghost predicate Repaired(before: Jobs, after: Jobs, installations: set<int>, from: seq<int>, manifest: seq<Entry>) {
    && Inserted(before, after, from, manifest) && |from| == |manifest|
    && (forall k :: k in from <==> k in Missing(before, installations))
  }

  lemma OneMoreInserted(before: Jobs, after: Jobs, from: seq<int>, manifest: seq<Entry>, k: int, id: int)
    requires Inserted(before, after, from, manifest)
    requires k in before && k !in from && id !in after
    ensures var job := LongJob(before[k]);
            Inserted(before, after[id := job], from + [k], manifest + [Entry(id, job.identity)])
  {
    hide LongJob;
    var job := LongJob(before[k]);
    var more, rows := after[id := job], manifest + [Entry(id, job.identity)];
    forall j | j in more && j !in before ensures InManifest(rows, j) {
      if j == id {
        assert rows[|manifest|].id == j;
      } else {
        InLonger(manifest, rows[|manifest|], j);
      }
    }
    hide InManifest;
    forall i | 0 <= i < |rows| ensures IsSibling(before, more, (from + [k])[i], rows[i]) {
      if i < |manifest| {
        assert IsSibling(before, after, from[i], manifest[i]);
      }
    }
    hide IsSibling;
    NewIdsDiffer(after, manifest, Entry(id, job.identity));
  }

  ghost predicate SameMembers(s: seq<int>, members: set<int>) {
    forall k :: k in s <==> k in members
  }

  lemma OneMoreMember(s: seq<int>, members: set<int>, k: int)
    requires SameMembers(s, members)
    ensures k in s <==> k in members
    ensures SameMembers(s + [k], members + {k})
  {
  }

  lemma MembersAre(s: seq<int>, members: set<int>)
    ensures SameMembers([], {})
    ensures SameMembers(s, members) ==> forall k :: k in s <==> k in members
  {
  }

  lemma InLonger(manifest: seq<Entry>, e: Entry, id: int)
    requires InManifest(manifest, id)
    ensures InManifest(manifest + [e], id)
  {
    var i :| 0 <= i < |manifest| && manifest[i].id == id;
    assert (manifest + [e])[i].id == id;
  }

  lemma NewIdsDiffer(after: Jobs, manifest: seq<Entry>, e: Entry)
    requires forall i :: 0 <= i < |manifest| ==> manifest[i].id in after
    requires forall i, j :: 0 <= i < j < |manifest| ==> manifest[i].id != manifest[j].id
    requires e.id !in after
    ensures forall i, j :: 0 <= i < j < |manifest + [e]| ==> (manifest + [e])[i].id != (manifest + [e])[j].id
  {
  }

  /** Each new row watches the same merge for 60 days, is due when they are over, and waits untouched. */
  lemma NewRowMeans(before: Jobs, after: Jobs, from: seq<int>, manifest: seq<Entry>, i: nat)
    requires Inserted(before, after, from, manifest) && i < |manifest|
    ensures manifest[i].id in after && manifest[i].id !in before && from[i] in before
    ensures var short, long := before[from[i]], after[manifest[i].id];
            && long.identity == manifest[i].identity && long.identity.windowDays == 60
            && long.identity == short.identity.(windowDays := 60)
            && long.mergedAt == short.mergedAt && long.baseRef == short.baseRef && long.createdAt == short.createdAt
            && long.dueAt - short.mergedAt == 60 * 86_400 && Untouched(long)
  {
    assert IsSibling(before, after, from[i], manifest[i]);
  }

  // ---------------------------------------- the audit afterwards never fails

  /** A new row is the sibling of the short job it was made from, which had none. */
  lemma NewPair(before: Jobs, after: Jobs, installations: set<int>, from: seq<int>, manifest: seq<Entry>, i: nat)
    requires Repaired(before, after, installations, from, manifest) && i < |manifest|
    ensures i < |from| && from[i] in before && from[i] in after && after[from[i]] == before[from[i]] && from[i] in Missing(before, installations)
    ensures !HasLong(before, from[i])
    ensures manifest[i].id in after && after[manifest[i].id] == LongJob(before[from[i]])
    ensures AreSiblings(before[from[i]].identity, after[manifest[i].id].identity)
  {
    var k := from[i];
    assert k in from && k in before && k in after && k in Missing(before, installations);
    assert k in Eligible(before, installations);
  }

  lemma NewRow(before: Jobs, after: Jobs, installations: set<int>, from: seq<int>, manifest: seq<Entry>, id: int)
    returns (i: nat)
    requires Repaired(before, after, installations, from, manifest) && id in after && id !in before
    ensures i < |manifest| && manifest[i].id == id && |from| == |manifest|
    ensures i < |from| && from[i] in before && from[i] in after && after[from[i]] == before[from[i]] && from[i] in Missing(before, installations)
    ensures !HasLong(before, from[i])
    ensures after[id] == LongJob(before[from[i]]) && AreSiblings(before[from[i]].identity, after[id].identity)
  {
    i :| 0 <= i < |manifest| && manifest[i].id == id;
    NewPair(before, after, installations, from, manifest, i);
  }

  lemma OldRow(before: Jobs, after: Jobs, installations: set<int>, from: seq<int>, manifest: seq<Entry>, id: int)
    requires Repaired(before, after, installations, from, manifest) && id in before
    ensures id in after && after[id] == before[id]
  {
  }

  lemma ShortIsOld(before: Jobs, after: Jobs, installations: set<int>, from: seq<int>, manifest: seq<Entry>, k: int)
    requires Repaired(before, after, installations, from, manifest) && k in Eligible(after, installations)
    ensures k in before && after[k] == before[k] && k in Eligible(before, installations)
  {
    if k !in before {
      var i := NewRow(before, after, installations, from, manifest, k);
    }
  }

  lemma NothingIsMissing(before: Jobs, after: Jobs, installations: set<int>, from: seq<int>, manifest: seq<Entry>)
    requires Repaired(before, after, installations, from, manifest)
    ensures Missing(after, installations) == {}
  {
    hide Inserted;
    forall k | k in Eligible(after, installations) ensures HasLong(after, k) {
      ShortIsOld(before, after, installations, from, manifest, k);
      if k in Missing(before, installations) {
        var i :| 0 <= i < |from| && from[i] == k;
        NewPair(before, after, installations, from, manifest, i);
      } else {
        var l :| l in before && AreSiblings(before[k].identity, before[l].identity);
        OldRow(before, after, installations, from, manifest, l);
      }
    }
  }

  lemma NothingIsOrphaned(before: Jobs, after: Jobs, installations: set<int>, from: seq<int>, manifest: seq<Entry>)
    requires Repaired(before, after, installations, from, manifest) && Orphans(before, installations) == {}
    ensures Orphans(after, installations) == {}
  {
    hide Repaired;
    forall l | l in after && after[l].identity.windowDays == LONG_WINDOW && after[l].identity.installation in installations
      ensures HasShort(after, l)
    {
      if l in before {
        assert l !in Orphans(before, installations);
        OldRow(before, after, installations, from, manifest, l);
        assert HasShort(before, l);
        var k :| k in before && AreSiblings(before[k].identity, before[l].identity);
        OldRow(before, after, installations, from, manifest, k);
      } else {
        var i := NewRow(before, after, installations, from, manifest, l);
      }
    }
  }

  lemma NothingIsMismatched(before: Jobs, after: Jobs, installations: set<int>, from: seq<int>, manifest: seq<Entry>)
    requires Unique(before) && Repaired(before, after, installations, from, manifest) && Mismatches(before, installations) == {}
    ensures Mismatches(after, installations) == {}
  {
    hide Repaired;
    forall k, l | k in Eligible(after, installations) && l in after && AreSiblings(after[k].identity, after[l].identity)
      ensures !Differs(after[k], after[l])
    {
      ShortIsOld(before, after, installations, from, manifest, k);
      if l in before {
        OldRow(before, after, installations, from, manifest, l);
        assert (k, l) !in Mismatches(before, installations);
      } else {
        var i := NewRow(before, after, installations, from, manifest, l);
        assert k == from[i];
      }
    }
  }

  lemma NewDiffers(before: Jobs, after: Jobs, installations: set<int>, from: seq<int>, manifest: seq<Entry>, k: int, l: int)
    requires Unique(before) && Repaired(before, after, installations, from, manifest)
    requires k in after && l in after && k != l && l !in before
    ensures after[k].identity != after[l].identity
  {
    hide Repaired;
    var j := NewRow(before, after, installations, from, manifest, l);
    var f := from[j];
    if k in before {
      OldRow(before, after, installations, from, manifest, k);
      assert !HasLong(before, f);
      assert !AreSiblings(before[f].identity, before[k].identity);
    } else {
      var i := NewRow(before, after, installations, from, manifest, k);
      var e := from[i];
      if after[k].identity == after[l].identity {
        assert e == f;
        SameSource(before, after, installations, from, manifest, i, j);
      }
    }
  }

  lemma SameSource(before: Jobs, after: Jobs, installations: set<int>, from: seq<int>, manifest: seq<Entry>, i: nat, j: nat)
    requires Repaired(before, after, installations, from, manifest) && i < |manifest| && j < |manifest| && from[i] == from[j]
    ensures i == j
  {
  }

  lemma RepairStaysUnique(before: Jobs, after: Jobs, installations: set<int>, from: seq<int>, manifest: seq<Entry>)
    requires Unique(before) && Repaired(before, after, installations, from, manifest)
    ensures Unique(after)
  {
    hide Repaired;
    forall k, l | k in after && l in after && k != l ensures after[k].identity != after[l].identity {
      if l !in before {
        NewDiffers(before, after, installations, from, manifest, k, l);
      } else if k !in before {
        NewDiffers(before, after, installations, from, manifest, l, k);
      } else {
        OldRow(before, after, installations, from, manifest, k);
        OldRow(before, after, installations, from, manifest, l);
      }
    }
  }

  /** A repair that was clean before is clean after, and its new jobs are due exactly when the report said overdue. */
  lemma CleanAfter(before: Jobs, after: Jobs, installations: set<int>, from: seq<int>, manifest: seq<Entry>, now: int)
    requires Unique(before) && Repaired(before, after, installations, from, manifest)
    requires Mismatches(before, installations) == {} && Orphans(before, installations) == {}
    ensures Missing(after, installations) == {} && Mismatches(after, installations) == {} && Orphans(after, installations) == {}
    ensures Unique(after)
    ensures forall i :: 0 <= i < |manifest| ==> Untouched(after[manifest[i].id])
    ensures forall i :: 0 <= i < |manifest| ==> (after[manifest[i].id].dueAt <= now <==> from[i] in Overdue(before, installations, now))
  {
    NothingIsMissing(before, after, installations, from, manifest);
    NothingIsMismatched(before, after, installations, from, manifest);
    NothingIsOrphaned(before, after, installations, from, manifest);
    RepairStaysUnique(before, after, installations, from, manifest);
    forall i | 0 <= i < |manifest|
      ensures Untouched(after[manifest[i].id])
      ensures after[manifest[i].id].dueAt <= now <==> from[i] in Overdue(before, installations, now)
    {
      NewPair(before, after, installations, from, manifest, i);
      var k := from[i];
      assert k in Missing(before, installations);
    }
  }

  // ----------------------------------------------------------- the rollback

  predicate WellFormed(manifest: seq<Entry>, expected: int) {
    && |manifest| == expected && Distinct(manifest)
    && forall i :: 0 <= i < |manifest| ==> manifest[i].identity.windowDays == LONG_WINDOW
  }

  /** The stored rows a manifest names exactly. */
  function Named(jobs: Jobs, manifest: seq<Entry>): set<int> {
    set k | k in jobs && Entry(k, jobs[k].identity) in manifest
  }

  function NamedUntouched(jobs: Jobs, manifest: seq<Entry>): set<int> {
    set k | k in Named(jobs, manifest) && Untouched(jobs[k])
  }

  predicate Stands(jobs: Jobs, e: Entry) {
    e.id in jobs && jobs[e.id].identity == e.identity
  }

  predicate StandsUntouched(jobs: Jobs, e: Entry) {
    Stands(jobs, e) && Untouched(jobs[e.id])
  }

  function Ids(manifest: seq<Entry>): set<int> {
    set e | e in manifest :: e.id
  }

  function Without(jobs: Jobs, ids: set<int>): Jobs {
    map k | k in jobs && k !in ids :: jobs[k]
  }

  /** Counting the named rows decides whether every line of the manifest still stands. */
  lemma CountDecides(jobs: Jobs, manifest: seq<Entry>, ids: set<int>)
    requires Distinct(manifest) && ids <= Named(jobs, manifest)
    ensures |ids| == |manifest| <==> forall e :: e in manifest ==> Stands(jobs, e) && e.id in ids
  {
    var lines := set e | e in manifest;
    var standing := set e | e in lines && Stands(jobs, e) && e.id in ids;
    var entryOf := map k | k in ids :: Entry(k, jobs[k].identity);
    DistinctCount(manifest);
    forall e | e in standing ensures exists k :: k in ids && entryOf[k] == e {
      assert entryOf[e.id] == e;
    }
    forall k | k in ids ensures entryOf[k] in standing {
      assert Stands(jobs, entryOf[k]);
    }
    BijectionCardinality(ids, standing, entryOf);
    if |ids| == |manifest| {
      FullSubset(standing, lines);
      assert forall e :: e in manifest ==> e in standing;
    }
    if forall e :: e in manifest ==> Stands(jobs, e) && e.id in ids {
      assert standing == lines;
    }
  }

  lemma NothingInserted(jobs: Jobs)
    ensures Inserted(jobs, jobs, [], [])
  {
  }

  lemma InsertedLengths(before: Jobs, after: Jobs, from: seq<int>, manifest: seq<Entry>)
    requires Inserted(before, after, from, manifest)
    ensures |from| == |manifest|
  {
  }

  lemma MissingIsStored(jobs: Jobs, installations: set<int>, k: int)
    requires k in Missing(jobs, installations)
    ensures k in jobs
  {
    assert k in Eligible(jobs, installations);
  }

  /** One write to one row, by whoever else uses the table. */
  datatype Write = Put(id: int, job: Job) | Remove(id: int)

  function Written(jobs: Jobs, w: Write): Jobs {
    match w
    case Put(id, job) => jobs[id := job]
    case Remove(id) => map k | k in jobs && k != id :: jobs[k]
  }

  function WrittenAll(jobs: Jobs, work: seq<Write>): Jobs {
    if work == [] then jobs else Written(WrittenAll(jobs, work[..|work| - 1]), work[|work| - 1])
  }

  class Table {
    var jobs: Jobs
    var nextId: int
    const installations: set<int>

    ghost predicate Valid()
      reads this
    {
      Unique(jobs) && forall k :: k in jobs ==> k < nextId
    }

    constructor (jobs: Jobs, nextId: int, installations: set<int>)
      requires Unique(jobs) && forall k :: k in jobs ==> k < nextId
      ensures Valid() && this.jobs == jobs && this.installations == installations
    {
      this.jobs := jobs;
      this.nextId := nextId;
      this.installations := installations;
    }

    /** The insert-select: one row per missing sibling, in whatever order the database visits them. */
    method InsertMissing() returns (ghost from: seq<int>, manifest: seq<Entry>)
      requires Valid()
      modifies this
      ensures Valid() && Repaired(old(jobs), jobs, installations, from, manifest)
      ensures |manifest| == |Missing(old(jobs), installations)| && nextId == old(nextId) + |manifest|
      ensures forall e :: e in manifest ==> old(nextId) <= e.id < nextId
    {
      hide Unique, LongJob, Inserted, Missing, SameMembers;
      NothingInserted(jobs);
      ghost var before := jobs;
      var source, todo := jobs, Missing(jobs, installations);
      ghost var done: set<int> := {};
      from, manifest := [], [];
      MembersAre(from, done);
      while exists k :: k in todo
        invariant source == before && todo + done == Missing(before, installations) && todo !! done
        invariant SameMembers(from, done) && |manifest| == |done|
        invariant Inserted(before, jobs, from, manifest)
        invariant forall k :: k in jobs ==> k < nextId
        invariant nextId == old(nextId) + |manifest|
        invariant forall i :: 0 <= i < |manifest| ==> old(nextId) <= manifest[i].id < nextId
        decreases todo
      {
        var k :| k in todo;
        MissingIsStored(before, installations, k);
        var job := LongJob(source[k]);
        OneMoreMember(from, done, k);
        OneMoreInserted(before, jobs, from, manifest, k, nextId);
        jobs := jobs[nextId := job];
        manifest := manifest + [Entry(nextId, job.identity)];
        from := from + [k];
        nextId := nextId + 1;
        todo, done := todo - {k}, done + {k};
      }
      assert done == Missing(before, installations);
      MembersAre(from, done);
      InsertedLengths(before, jobs, from, manifest);
      RepairStaysUnique(before, jobs, installations, from, manifest);
    }

    /** `writable` is whether the manifest file can be created and synced. */
    method Apply(expected: int, writable: bool, now: int) returns (r: Result<seq<Entry>, BackfillError>, ghost from: seq<int>)
      requires Valid()
      modifies this
      ensures Valid()
      ensures r.Ok? <==> writable && CleanBefore(old(jobs), installations, expected)
      ensures r.Err? ==> jobs == old(jobs)
      ensures r.Err? ==>
                r.error == if Mismatches(old(jobs), installations) != {} then MismatchedPairs
                           else if Orphans(old(jobs), installations) != {} then OrphanJobs
                           else if |Missing(old(jobs), installations)| != expected then UnexpectedMissing
                           else ManifestNotWritten
      ensures r.Ok? ==> Repaired(old(jobs), jobs, installations, from, r.value) && |r.value| == expected
      ensures r.Ok? ==> forall e :: e in r.value ==> old(nextId) <= e.id < old(nextId) + expected
      ensures r.Ok? ==> Missing(jobs, installations) == {} && Mismatches(jobs, installations) == {} && Orphans(jobs, installations) == {}
    {
      hide Unique, Inserted, Missing, Mismatches, Orphans;
      from := [];
      var before := jobs;
      var report := Inspect(jobs, installations, now);
      if report.mismatches != 0 {
        return Err(MismatchedPairs), from;
      }
      if report.orphans != 0 {
        return Err(OrphanJobs), from;
      }
      if report.missing != expected {
        return Err(UnexpectedMissing), from;
      }
      var manifest;
      from, manifest := InsertMissing();
      CleanAfter(before, jobs, installations, from, manifest, now);
      var after := Inspect(jobs, installations, now);
      var clean := after.missing == 0 && after.mismatches == 0 && after.orphans == 0
                   && forall i :: 0 <= i < |manifest| ==> manifest[i].id in jobs && Untouched(jobs[manifest[i].id]);
      InsertedStand(before, jobs, from, manifest);
      if |manifest| != expected || !clean || !writable {
        jobs := before;
        return Err(if |manifest| != expected then UnexpectedInserted
                   else if !clean then NotCleanAfter
                   else ManifestNotWritten), from;
      }
      return Ok(manifest), from;
    }

    /** All of the manifest's rows if every one stands untouched, otherwise none. */
    method Rollback(manifest: seq<Entry>, expected: int) returns (r: Result<nat, BackfillError>)
      requires Valid()
      modifies this`jobs
      ensures Valid()
      ensures r.Ok? <==> WellFormed(manifest, expected) && forall e :: e in manifest ==> StandsUntouched(old(jobs), e)
      ensures r.Err? ==> jobs == old(jobs)
      ensures r.Err? ==>
                r.error == if !WellFormed(manifest, expected) then InvalidManifest
                           else if exists e :: e in manifest && !Stands(old(jobs), e) then ManifestRowsGone
                           else ManifestRowsTouched
      ensures r.Ok? ==> r.value == |manifest| && jobs == Without(old(jobs), Ids(manifest))
    {
      if !WellFormed(manifest, expected) {
        return Err(InvalidManifest);
      }
      hide Untouched;
      var named := Named(jobs, manifest);
      CountDecides(jobs, manifest, named);
      if |named| != |manifest| {
        return Err(ManifestRowsGone);
      }
      var untouched := NamedUntouched(jobs, manifest);
      CountDecides(jobs, manifest, untouched);
      if |untouched| != |manifest| {
        return Err(ManifestRowsTouched);
      }
      jobs := Without(jobs, untouched);
      return Ok(|untouched|);
    }

    /** Any other writer's row; the table refuses one that would break its unique constraint. */
    method Accept(w: Write) returns (accepted: bool)
      requires Valid()
      modifies this
      ensures Valid()
      ensures accepted <==> Unique(Written(old(jobs), w))
      ensures jobs == if accepted then Written(old(jobs), w) else old(jobs)
    {
      accepted := w.Put? ==> forall k :: k in jobs && k != w.id ==> jobs[k].identity != w.job.identity;
      AcceptedStaysUnique(jobs, w);
      if accepted {
        jobs := Written(jobs, w);
        nextId := if nextId <= w.id then w.id + 1 else nextId;
      }
    }

    /** A stretch of other writers' work; `done` is what the table accepted of it. */
    method Work(work: seq<Write>) returns (ghost done: seq<Write>)
      requires Valid()
      modifies this
      ensures Valid() && jobs == WrittenAll(old(jobs), done)
      ensures done == AcceptedOf(old(jobs), work)
    {
      hide Unique, Written;
      done := [];
      for i := 0 to |work|
        invariant Valid() && jobs == WrittenAll(old(jobs), done)
        invariant done == AcceptedOf(old(jobs), work[..i])
      {
        assert work[..i + 1][..i] == work[..i];
        var accepted := Accept(work[i]);
        if accepted {
          WrittenOneMore(old(jobs), done, work[i]);
          done := done + [work[i]];
        }
      }
      assert work[..|work|] == work;
    }
  }

  /** What the table accepts of a stretch of writes: each is judged by the rows the accepted ones left. */
  ghost function AcceptedOf(jobs: Jobs, work: seq<Write>): (done: seq<Write>)
    ensures forall k :: 0 <= k < |done| ==> done[k] in work
  {
    if work == [] then []
    else
      var done, last := AcceptedOf(jobs, work[..|work| - 1]), work[|work| - 1];
      if Unique(Written(WrittenAll(jobs, done), last)) then done + [last] else done
  }

  lemma WrittenOneMore(jobs: Jobs, work: seq<Write>, w: Write)
    ensures WrittenAll(jobs, work + [w]) == Written(WrittenAll(jobs, work), w)
  {
    assert (work + [w])[..|work|] == work;
  }

  lemma AcceptedStaysUnique(jobs: Jobs, w: Write)
    requires Unique(jobs)
    ensures Unique(Written(jobs, w)) <==> (w.Put? ==> forall k :: k in jobs && k != w.id ==> jobs[k].identity != w.job.identity)
  {
    var after := Written(jobs, w);
    if w.Put? && Unique(after) {
      forall k | k in jobs && k != w.id ensures jobs[k].identity != w.job.identity {
        assert k in after && w.id in after && after[k] == jobs[k] && after[w.id] == w.job;
      }
    }
  }

  lemma InsertedStand(before: Jobs, after: Jobs, from: seq<int>, manifest: seq<Entry>)
    requires Inserted(before, after, from, manifest)
    ensures forall i :: 0 <= i < |manifest| ==> StandsUntouched(after, manifest[i])
    ensures WellFormed(manifest, |manifest|)
  {
  }

  // ------------------------------------------ what others did in between

  /** A history of the table in which nobody touches the manifest's rows. */
  ghost predicate OthersOnly(history: seq<Jobs>, manifest: seq<Entry>) {
    && history != []
    && forall i, e :: 0 < i < |history| && e in manifest && e.id in history[i - 1] ==>
         e.id in history[i] && history[i][e.id] == history[i - 1][e.id]
  }

  lemma {:induction false} OthersKeepManifest(history: seq<Jobs>, manifest: seq<Entry>, n: nat, e: Entry)
    requires OthersOnly(history, manifest) && n < |history| && e in manifest && StandsUntouched(history[0], e)
    ensures StandsUntouched(history[n], e)
  {
    if n > 0 {
      OthersKeepManifest(history, manifest, n - 1, e);
    }
  }

  /** A manifest is acted on when it has the expected number of different lines, all of the long window. */
  lemma WellFormedMeans(manifest: seq<Entry>, expected: int)
    ensures WellFormed(manifest, expected) <==>
              && |manifest| == expected
              && (forall i, j :: 0 <= i < j < |manifest| ==> manifest[i] != manifest[j])
              && (forall e :: e in manifest ==> e.identity.windowDays == 60)
  {
  }

  /** A write touches its own row only: put there as given, or gone. */
  lemma WrittenMeans(jobs: Jobs, w: Write, k: int)
    ensures k != w.id ==> (k in Written(jobs, w) <==> k in jobs) && (k in jobs ==> Written(jobs, w)[k] == jobs[k])
    ensures w.Put? ==> w.id in Written(jobs, w) && Written(jobs, w)[w.id] == w.job
    ensures w.Remove? ==> w.id !in Written(jobs, w)
  {
  }

  /** The manifest names exactly the rows the backfill added. */
  lemma ManifestIsWhatWasAdded(before: Jobs, after: Jobs, from: seq<int>, manifest: seq<Entry>)
    requires Inserted(before, after, from, manifest)
    ensures Ids(manifest) == after.Keys - before.Keys
    ensures Without(after, Ids(manifest)) == before
  {
    var ids := Ids(manifest);
    forall k ensures k in ids <==> k in after && k !in before {
      if k in ids {
        var e :| e in manifest && e.id == k;
      }
      if k in after && k !in before {
        var i :| 0 <= i < |manifest| && manifest[i].id == k;
        assert manifest[i] in manifest;
      }
    }
    forall k ensures k in Without(after, ids) <==> k in before
             ensures k in before ==> Without(after, ids)[k] == before[k] {
    }
  }

  /**
    After any history in which nobody touches the backfill's rows a rollback succeeds, and what it leaves
    is the last table without exactly the rows the backfill added: nothing else of that table changes.
   */
  lemma RollbackUndoesApply(before: Jobs, installations: set<int>, from: seq<int>, manifest: seq<Entry>, history: seq<Jobs>)
    requires OthersOnly(history, manifest) && Repaired(before, history[0], installations, from, manifest)
    ensures WellFormed(manifest, |manifest|)
    ensures forall e :: e in manifest ==> StandsUntouched(history[|history| - 1], e)
    ensures Ids(manifest) == history[0].Keys - before.Keys && Without(history[0], Ids(manifest)) == before
    ensures var last := history[|history| - 1];
            var left := Without(last, Ids(manifest));
            && left.Keys == last.Keys - (history[0].Keys - before.Keys)
            && (forall k :: k in left ==> left[k] == last[k])
            && (forall k :: k in before && k in last && last[k] == before[k] ==> k in left && left[k] == before[k])
  {
    InsertedStand(before, history[0], from, manifest);
    ManifestIsWhatWasAdded(before, history[0], from, manifest);
    forall e | e in manifest ensures StandsUntouched(history[|history| - 1], e) {
      OthersKeepManifest(history, manifest, |history| - 1, e);
    }
    hide Inserted, StandsUntouched, OthersOnly;
    var last, ids := history[|history| - 1], Ids(manifest);
    forall k ensures k in Without(last, ids) <==> k in last && k !in ids
             ensures k in before ==> k !in ids {
    }
  }

  // --------------------------------------- the table the others' work had made

  lemma WriteCommutes(jobs: Jobs, w: Write, ids: set<int>)
    requires w.id !in ids
    ensures Without(Written(jobs, w), ids) == Written(Without(jobs, ids), w)
    ensures forall k :: k in ids ==> (k in jobs <==> k in Written(jobs, w)) && (k in jobs ==> Written(jobs, w)[k] == jobs[k])
  {
    var a, b := Without(Written(jobs, w), ids), Written(Without(jobs, ids), w);
    forall k ensures k in a <==> k in b
             ensures k in a && k in b ==> a[k] == b[k] {
    }
  }

  /** Writes to other rows do the same work whether the backfill's rows stand beside them or not. */
  lemma {:induction false} WorkCommutes(jobs: Jobs, work: seq<Write>, ids: set<int>)
    requires forall k :: 0 <= k < |work| ==> work[k].id !in ids
    ensures Without(WrittenAll(jobs, work), ids) == WrittenAll(Without(jobs, ids), work)
    ensures forall k :: k in ids ==>
              var after := WrittenAll(jobs, work); (k in jobs <==> k in after) && (k in jobs ==> after[k] == jobs[k])
  {
    if work != [] {
      var front, w := work[..|work| - 1], work[|work| - 1];
      WorkCommutes(jobs, front, ids);
      WriteCommutes(WrittenAll(jobs, front), w, ids);
      hide Without, Written;
    }
  }

  /**
    Apply, any work of others on other rows, rollback: the table is the one that work alone would have
    made of the table before.
   */
  lemma RollbackLeavesTheOthersWork(before: Jobs, after: Jobs, installations: set<int>, from: seq<int>, manifest: seq<Entry>, work: seq<Write>)
    requires Repaired(before, after, installations, from, manifest)
    requires forall k :: 0 <= k < |work| ==> work[k].id !in Ids(manifest)
    ensures WellFormed(manifest, |manifest|)
    ensures forall e :: e in manifest ==> StandsUntouched(WrittenAll(after, work), e)
    ensures Without(WrittenAll(after, work), Ids(manifest)) == WrittenAll(before, work)
  {
    var ids := Ids(manifest);
    InsertedStand(before, after, from, manifest);
    ManifestIsWhatWasAdded(before, after, from, manifest);
    WorkCommutes(after, work, ids);
    forall e | e in manifest ensures StandsUntouched(WrittenAll(after, work), e) {
      assert e.id in ids;
      assert StandsUntouched(after, e);
    }
  }

  /**
    Apply, then others at work on other rows, then rollback: what is left is what their work, as far as
    the table accepted it, makes of the table before; with no work it is the table before.
   */
  method ApplyThenRollback(table: Table, expected: int, now: int, work: seq<Write>)
    returns (ghost after: Jobs, ghost done: seq<Write>)
    requires table.Valid() && CleanBefore(table.jobs, table.installations, expected)
    requires forall w :: w in work ==> !(table.nextId <= w.id < table.nextId + expected)
    modifies table
    ensures forall k :: k in old(table.jobs) ==> k in after && after[k] == old(table.jobs)[k]
    ensures |after.Keys - old(table.jobs).Keys| == expected && done == AcceptedOf(after, work)
    ensures table.Valid() && table.jobs == WrittenAll(old(table.jobs), done)
    ensures work == [] ==> table.jobs == old(table.jobs)
  {
    hide CleanBefore, Repaired, StandsUntouched, Unique;
    ghost var before := table.jobs;
    var applied, from := table.Apply(expected, true, now);
    after := table.jobs;
    AddedRows(before, after, table.installations, from, applied.value);
    done := table.Work(work);
    forall k | 0 <= k < |done| ensures done[k].id !in Ids(applied.value) {
      OtherRow(applied.value, done[k], old(table.nextId), expected);
    }
    RollbackLeavesTheOthersWork(before, after, table.installations, from, applied.value, done);
    var undone := table.Rollback(applied.value, expected);
  }

  lemma AddedRows(before: Jobs, after: Jobs, installations: set<int>, from: seq<int>, manifest: seq<Entry>)
    requires Repaired(before, after, installations, from, manifest)
    ensures forall k :: k in before ==> k in after && after[k] == before[k]
    ensures |after.Keys - before.Keys| == |manifest|
  {
    ManifestIsWhatWasAdded(before, after, from, manifest);
    IdsCount(manifest);
  }

  lemma {:induction false} IdsCount(manifest: seq<Entry>)
    requires forall i, j :: 0 <= i < j < |manifest| ==> manifest[i].id != manifest[j].id
    ensures |Ids(manifest)| == |manifest|
  {
    if manifest == [] {
      assert Ids(manifest) == {};
    } else {
      var front, last := manifest[..|manifest| - 1], manifest[|manifest| - 1];
      IdsCount(front);
      assert last.id !in Ids(front);
      assert Ids(manifest) == Ids(front) + {last.id};
    }
  }

  lemma OtherRow(manifest: seq<Entry>, w: Write, from: int, expected: int)
    requires forall e :: e in manifest ==> from <= e.id < from + expected
    requires !(from <= w.id < from + expected)
    ensures w.id !in Ids(manifest)
  {
  }
}
