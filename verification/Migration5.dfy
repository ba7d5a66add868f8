/** Migration 5 (api/doug/migrations.py): one verdict per App identity. */
module Migration5 {
  // Five repair statements and an index. Every statement commits alone, so instances may crash, restart
  // and run it side by side.

  import opened Common

  datatype Verdict = Verdict(installation: Option<int>, repo: Option<int>, pull: int, sha: Option<string>, tier: string)

  /** The tables the migration touches (`coverages` is the table of reads); dependents and jobs map a row to the verdict it refers to. */
  datatype Tables = Tables(
    verdicts: map<int, Verdict>,
    jobs: map<int, Option<int>>,
    findings: map<int, int>,
    coverages: map<int, int>,
    deviations: map<int, int>,
    indexed: bool)

  // ------------------------------------------------------------ the identity

  predicate IsApp(v: Verdict) {
    v.installation.Some? && v.tier != "external"
  }

  /** GROUP BY: a missing value equals a missing value. */
  predicate SameGroup(a: Verdict, b: Verdict) {
    a.installation == b.installation && a.repo == b.repo && a.pull == b.pull && a.sha == b.sha
  }

  /** A join on the identity columns: a missing value equals nothing. */
  predicate Joins(a: Verdict, b: Verdict) {
    && a.installation.Some? && a.repo.Some? && a.sha.Some?
    && SameGroup(a, b)
  }

  /** SQL's equality: true of two present, equal values and of nothing else. */
  ghost predicate SqlEquals<T>(a: Option<T>, b: Option<T>) {
    a.Some? && b.Some? && a.value == b.value
  }

  /** Grouping compares the four columns as they are; joining compares them as SQL does. */
  lemma GroupsAndJoins(a: Verdict, b: Verdict)
    ensures SameGroup(a, b) <==> (a.installation, a.repo, a.pull, a.sha) == (b.installation, b.repo, b.pull, b.sha)
    ensures Joins(a, b) <==> SqlEquals(a.installation, b.installation) && SqlEquals(a.repo, b.repo) && a.pull == b.pull && SqlEquals(a.sha, b.sha)
    ensures IsApp(a) <==> a.installation != None && !(a.tier == "external")
  {
  }

  function MinOf(s: set<int>): (m: int)
    requires exists x :: x in s
    ensures m in s && forall x :: x in s ==> m <= x
  {
    HasMin(s);
    var m :| m in s && forall x :: x in s ==> m <= x;
    m
  }

  lemma HasMin(s: set<int>)
    requires exists x :: x in s
    ensures exists m :: m in s && forall x :: x in s ==> m <= x
  {
    var x :| x in s;
    var m := LeastBelow(s, x);
  }

  lemma {:induction false} LeastBelow(s: set<int>, x: int) returns (m: int)
    requires x in s
    ensures m in s && m <= x && forall y :: y in s ==> m <= y
  {
    m := x;
    if exists y :: y in s && y < x {
      var y :| y in s && y < x;
      m := LeastBelow(s - {x}, y);
      forall z | z in s ensures m <= z {
        if z != x {
          assert z in s - {x};
        }
      }
    }
  }

  /** The ids of this verdict's group. */
  function Group(verdicts: map<int, Verdict>, v: Verdict): set<int> {
    set k | k in verdicts && IsApp(verdicts[k]) && SameGroup(verdicts[k], v)
  }

  /** The extras: App verdicts that are not the first of their group. */
  function Extras(verdicts: map<int, Verdict>): set<int> {
    set k | k in verdicts && IsApp(verdicts[k]) && k != MinOfGroup(verdicts, k)
  }

  function MinOfGroup(verdicts: map<int, Verdict>, k: int): (m: int)
    requires k in verdicts && IsApp(verdicts[k])
    ensures m in Group(verdicts, verdicts[k]) && forall x :: x in Group(verdicts, verdicts[k]) ==> m <= x
  {
    assert k in Group(verdicts, verdicts[k]);
    MinOf(Group(verdicts, verdicts[k]))
  }

  /** The subquery that finds a job's keeper. */
  function Keeper(verdicts: map<int, Verdict>, id: int): Option<int> {
    if id !in verdicts || !IsApp(verdicts[id]) then None
    else
      var matches := set k | k in verdicts && IsApp(verdicts[k]) && Joins(verdicts[id], verdicts[k]);
      if exists k :: k in matches then Some(MinOf(matches)) else None
  }

  // ---------------------------------------------------------- the statements

  function Repointed(verdicts: map<int, Verdict>, jobs: map<int, Option<int>>): map<int, Option<int>> {
    map j | j in jobs ::
      if jobs[j].Some? && jobs[j].value in Extras(verdicts) then Keeper(verdicts, jobs[j].value) else jobs[j]
  }

  function Pruned(verdicts: map<int, Verdict>, rows: map<int, int>): map<int, int> {
    map r | r in rows && rows[r] !in Extras(verdicts) :: rows[r]
  }

  function Deduped(verdicts: map<int, Verdict>): map<int, Verdict> {
    map k | k in verdicts && k !in Extras(verdicts) :: verdicts[k]
  }

  const STATEMENTS: nat := 6

  /** The tables after one statement. */
  function After(t: Tables, statement: nat): Tables
    requires statement < STATEMENTS
  {
    if statement == 0 then t.(jobs := Repointed(t.verdicts, t.jobs))
    else if statement == 1 then t.(findings := Pruned(t.verdicts, t.findings))
    else if statement == 2 then t.(coverages := Pruned(t.verdicts, t.coverages))
    else if statement == 3 then t.(deviations := Pruned(t.verdicts, t.deviations))
    else if statement == 4 then t.(verdicts := Deduped(t.verdicts))
    else t.(indexed := true)
  }

  /** Every reference names a stored verdict. */
  ghost predicate References(t: Tables) {
    && (forall j :: j in t.jobs && t.jobs[j].Some? ==> t.jobs[j].value in t.verdicts)
    && (forall r :: r in t.findings ==> t.findings[r] in t.verdicts)
    && (forall r :: r in t.coverages ==> t.coverages[r] in t.verdicts)
    && (forall r :: r in t.deviations ==> t.deviations[r] in t.verdicts)
  }

  function FirstStatements(n: nat): (r: set<nat>)
    ensures forall s: nat :: s in r <==> s < n
  {
    if n == 0 then {} else FirstStatements(n - 1) + {n - 1}
  }

  /** What the unique index demands: no two App verdicts agree on four present columns. */
  ghost predicate Unique(verdicts: map<int, Verdict>) {
    forall k, l :: k in verdicts && l in verdicts && k != l && IsApp(verdicts[k]) && IsApp(verdicts[l]) ==>
      !Joins(verdicts[k], verdicts[l])
  }

  /** Tables the database accepts. */
  ghost predicate Sound(t: Tables) {
    References(t) && (t.indexed ==> Unique(t.verdicts))
  }

  // ------------------------------------------------------------- the repairs

  lemma GroupIsShared(verdicts: map<int, Verdict>, k: int, l: int)
    requires k in verdicts && l in verdicts && SameGroup(verdicts[k], verdicts[l])
    ensures Group(verdicts, verdicts[k]) == Group(verdicts, verdicts[l])
  {
    forall x ensures x in Group(verdicts, verdicts[k]) <==> x in Group(verdicts, verdicts[l]) {
    }
  }

  /** The first of a group is kept, and is the first of every member's group. */
  lemma FirstIsKept(verdicts: map<int, Verdict>, k: int)
    requires k in verdicts && IsApp(verdicts[k])
    ensures var m := MinOfGroup(verdicts, k);
            m in verdicts && IsApp(verdicts[m]) && SameGroup(verdicts[m], verdicts[k]) && MinOfGroup(verdicts, m) == m && m !in Extras(verdicts)
  {
    GroupIsShared(verdicts, k, MinOfGroup(verdicts, k));
  }

  /** One App verdict is left per group: the one with the lowest id, and every other row is untouched. */
  lemma OneVerdictPerIdentity(verdicts: map<int, Verdict>, k: int)
    requires k in verdicts
    ensures IsApp(verdicts[k]) ==> (k in Deduped(verdicts) <==> forall l :: l in Group(verdicts, verdicts[k]) ==> k <= l)
    ensures IsApp(verdicts[k]) ==> exists m :: Group(Deduped(verdicts), verdicts[k]) == {m} && m in Group(verdicts, verdicts[k])
    ensures !IsApp(verdicts[k]) ==> k in Deduped(verdicts)
    ensures k in Deduped(verdicts) ==> Deduped(verdicts)[k] == verdicts[k]
  {
    if IsApp(verdicts[k]) {
      var m, left := MinOfGroup(verdicts, k), Deduped(verdicts);
      FirstIsKept(verdicts, k);
      assert k in Group(verdicts, verdicts[k]);
      if k == m {
        assert forall l :: l in Group(verdicts, verdicts[k]) ==> k <= l;
      }
      forall l | l in Group(left, verdicts[k]) ensures l == m {
        GroupIsShared(verdicts, k, l);
        FirstIsKept(verdicts, l);
      }
      assert Group(left, verdicts[k]) == {m};
      assert m in Group(verdicts, verdicts[k]);
    }
  }

  /** The index can be built. */
  lemma DedupedIsUnique(verdicts: map<int, Verdict>)
    ensures Unique(Deduped(verdicts)) && Extras(Deduped(verdicts)) == {}
  {
    var left := Deduped(verdicts);
    forall k, l | k in left && l in left && IsApp(left[k]) && IsApp(left[l]) && SameGroup(left[k], left[l]) ensures k == l {
      GroupIsShared(verdicts, k, l);
      OneVerdictPerIdentity(verdicts, k);
      OneVerdictPerIdentity(verdicts, l);
      assert k in Group(verdicts, verdicts[k]) && l in Group(verdicts, verdicts[k]);
    }
    forall k | k in left && IsApp(left[k]) ensures k == MinOfGroup(left, k) {
      assert MinOfGroup(left, k) in Group(left, left[k]);
    }
  }

  /** A job of an extra goes to its group's keeper, or loses its verdict when an identity column is missing. */
  lemma KeeperIsFirst(verdicts: map<int, Verdict>, id: int)
    requires id in Extras(verdicts)
    ensures Keeper(verdicts, id)
         == if verdicts[id].repo.Some? && verdicts[id].sha.Some? then Some(MinOfGroup(verdicts, id)) else None
    ensures Keeper(verdicts, id).Some? ==> Keeper(verdicts, id).value in verdicts && Keeper(verdicts, id).value !in Extras(verdicts)
  {
    var v := verdicts[id];
    var matches := set k | k in verdicts && IsApp(verdicts[k]) && Joins(v, verdicts[k]);
    FirstIsKept(verdicts, id);
    if v.repo.Some? && v.sha.Some? {
      forall x ensures x in matches <==> x in Group(verdicts, v) {
      }
      assert matches == Group(verdicts, v);
    } else {
      assert matches == {};
    }
  }

  // ----------------------------------------------- statements done in any order

  /** The tables once exactly these statements have run on `t`, whatever the order and repetition. */
  function Done(t: Tables, done: set<nat>): Tables {
    Tables(
      if 4 in done then Deduped(t.verdicts) else t.verdicts,
      if 0 in done then Repointed(t.verdicts, t.jobs) else t.jobs,
      if 1 in done then Pruned(t.verdicts, t.findings) else t.findings,
      if 2 in done then Pruned(t.verdicts, t.coverages) else t.coverages,
      if 3 in done then Pruned(t.verdicts, t.deviations) else t.deviations,
      5 in done || t.indexed)
  }

  /** Nothing is deleted from under its dependents, and nothing is indexed with duplicates left. */
  ghost predicate InOrder(done: set<nat>) {
    (4 in done ==> {0, 1, 2, 3} <= done) && (5 in done ==> 4 in done)
  }

  lemma RepointedIsStable(verdicts: map<int, Verdict>, jobs: map<int, Option<int>>)
    ensures Repointed(verdicts, Repointed(verdicts, jobs)) == Repointed(verdicts, jobs)
    ensures Repointed(Deduped(verdicts), Repointed(verdicts, jobs)) == Repointed(verdicts, jobs)
    ensures forall j :: j in Repointed(verdicts, jobs) && Repointed(verdicts, jobs)[j].Some? ==>
              Repointed(verdicts, jobs)[j].value !in Extras(verdicts)
  {
    hide Extras, Keeper;
    var again := Repointed(verdicts, jobs);
    DedupedIsUnique(verdicts);
    forall j | j in again && again[j].Some? ensures again[j].value !in Extras(verdicts) {
      if jobs[j].Some? && jobs[j].value in Extras(verdicts) {
        KeeperIsFirst(verdicts, jobs[j].value);
      }
    }
  }

  lemma PrunedIsStable(verdicts: map<int, Verdict>, rows: map<int, int>)
    ensures Pruned(verdicts, Pruned(verdicts, rows)) == Pruned(verdicts, rows)
    ensures Pruned(Deduped(verdicts), Pruned(verdicts, rows)) == Pruned(verdicts, rows)
  {
    hide Extras;
    DedupedIsUnique(verdicts);
  }

  lemma DedupedIsStable(verdicts: map<int, Verdict>)
    ensures Deduped(Deduped(verdicts)) == Deduped(verdicts)
  {
    hide Extras;
    DedupedIsUnique(verdicts);
  }

  /** Running a statement again, or out of turn, only adds it to those done. */
  lemma OneMoreDone(t: Tables, done: set<nat>, statement: nat)
    requires statement < STATEMENTS && InOrder(done) && InOrder(done + {statement})
    ensures After(Done(t, done), statement) == Done(t, done + {statement})
  {
    hide Repointed, Pruned, Deduped;
    if statement == 0 {
      RepointedIsStable(t.verdicts, t.jobs);
    } else if statement == 1 {
      PrunedIsStable(t.verdicts, t.findings);
    } else if statement == 2 {
      PrunedIsStable(t.verdicts, t.coverages);
    } else if statement == 3 {
      PrunedIsStable(t.verdicts, t.deviations);
    } else {
      DedupedIsStable(t.verdicts);
    }
  }

  lemma DoneIsSound(t: Tables, done: set<nat>)
    requires Sound(t) && InOrder(done)
    ensures Sound(Done(t, done))
  {
    JobsStayValid(t, done);
    hide Repointed, Pruned, Deduped, Unique;
    DedupedIsUnique(t.verdicts);
  }

  lemma JobsStayValid(t: Tables, done: set<nat>)
    requires References(t) && InOrder(done)
    ensures var after := Done(t, done);
            forall j :: j in after.jobs && after.jobs[j].Some? ==> after.jobs[j].value in after.verdicts
  {
    hide Extras, Keeper;
    RepointedIsStable(t.verdicts, t.jobs);
    forall j | j in t.jobs && t.jobs[j].Some? && t.jobs[j].value in Extras(t.verdicts)
      ensures Keeper(t.verdicts, t.jobs[j].value).Some? ==> Keeper(t.verdicts, t.jobs[j].value).value in t.verdicts
    {
      KeeperIsFirst(t.verdicts, t.jobs[j].value);
    }
  }

  // ------------------------------------ instances that crash, restart and race

  /** `next[p]` is the statement instance `p` is about to run; `done` records what has run at all. */
  datatype Machine = Machine(tables: Tables, next: map<nat, nat>, done: set<nat>)

  datatype Event =
    | Start(instance: nat)   // also a restart after a crash: from the first statement
    | Step(instance: nat)

  function Next(m: Machine, e: Event): Machine {
    match e
    case Start(p) => m.(next := m.next[p := 0])
    case Step(p) =>
      if p in m.next && m.next[p] < STATEMENTS then
        Machine(After(m.tables, m.next[p]), m.next[p := m.next[p] + 1], m.done + {m.next[p]})
      else m
  }

  function Run(m: Machine, events: seq<Event>): Machine {
    if events == [] then m else Next(Run(m, events[..|events| - 1]), events[|events| - 1])
  }

  function Begin(t: Tables): Machine {
    Machine(t, map[], {})
  }

  ghost predicate Follows(t: Tables, m: Machine) {
    && m.tables == Done(t, m.done) && InOrder(m.done)
    && (forall p :: p in m.next ==> m.next[p] <= STATEMENTS)
    && (forall p, s: nat :: p in m.next && s < m.next[p] ==> s in m.done)
  }

  lemma NextFollows(t: Tables, m: Machine, e: Event)
    requires Follows(t, m)
    ensures Follows(t, Next(m, e))
  {
    hide Done, After;
    if e.Step? && e.instance in m.next && m.next[e.instance] < STATEMENTS {
      assert forall s: nat :: s < m.next[e.instance] ==> s in m.done;
      OneMoreDone(t, m.done, m.next[e.instance]);
    }
  }

  /** Whatever the interleaving and the crashes: the tables depend only on which statements have run. */
  lemma {:induction false} EveryRunFollows(t: Tables, events: seq<Event>)
    ensures Follows(t, Run(Begin(t), events))
  {
    if events == [] {
      assert Done(t, {}) == t;
    } else {
      EveryRunFollows(t, events[..|events| - 1]);
      NextFollows(t, Run(Begin(t), events[..|events| - 1]), events[|events| - 1]);
    }
  }

  function StepsOf(events: seq<Event>, p: nat): nat {
    if events == [] then 0
    else StepsOf(events[..|events| - 1], p) + if events[|events| - 1] == Step(p) then 1 else 0
  }

  /** Whatever others do meanwhile, an instance that is not restarted runs a statement a step, and ends after six. */
  lemma {:induction false} InstanceGoesOn(m: Machine, events: seq<Event>, p: nat)
    requires p in m.next && m.next[p] == 0 && forall k :: 0 <= k < |events| ==> events[k] != Start(p)
    ensures p in Run(m, events).next
    ensures Run(m, events).next[p] == if StepsOf(events, p) < STATEMENTS then StepsOf(events, p) else STATEMENTS
    ensures forall s: nat :: s < Run(m, events).next[p] ==> s in Run(m, events).done
  {
    hide After;
    if events != [] {
      InstanceGoesOn(m, events[..|events| - 1], p);
    }
  }

  /** No statement is ever refused: references and the index hold in every state of every run. */
  lemma EveryStateIsSound(t: Tables, events: seq<Event>)
    requires Sound(t)
    ensures Sound(Run(Begin(t), events).tables)
  {
    EveryRunFollows(t, events);
    DoneIsSound(t, Run(Begin(t), events).done);
  }

  function All(): set<nat> { {0, 1, 2, 3, 4, 5} }

  ghost predicate Finished(m: Machine) {
    exists p :: p in m.next && m.next[p] == STATEMENTS
  }

  /** Once any instance has finished, the tables are those of one undisturbed run. */
  lemma FinishedRunsAgree(t: Tables, events: seq<Event>)
    requires Finished(Run(Begin(t), events))
    ensures Run(Begin(t), events).tables == Done(t, All())
  {
    var m := Run(Begin(t), events);
    EveryRunFollows(t, events);
    var p :| p in m.next && m.next[p] == STATEMENTS;
    assert forall s: nat :: s < STATEMENTS ==> s in m.done;
    assert {0, 1, 2, 3, 4, 5} <= m.done;
    assert Done(t, m.done) == Done(t, All());
  }

  /** The repaired tables: one verdict per identity, dependents of kept verdicts whole, jobs on keepers. */
  lemma RepairIsExact(t: Tables)
    requires Sound(t)
    ensures var end := Done(t, All());
            && Sound(end) && end.indexed && end.verdicts == Deduped(t.verdicts) && end.jobs.Keys == t.jobs.Keys
            && (forall j :: j in t.jobs ==>
                  end.jobs[j] == if t.jobs[j].None? || t.jobs[j].value !in Extras(t.verdicts) then t.jobs[j]
                                 else if t.verdicts[t.jobs[j].value].repo.None? || t.verdicts[t.jobs[j].value].sha.None? then None
                                 else Some(MinOfGroup(t.verdicts, t.jobs[j].value)))
            && (forall r :: r in end.findings <==> r in t.findings && t.findings[r] in end.verdicts)
            && (forall r :: r in end.coverages <==> r in t.coverages && t.coverages[r] in end.verdicts)
            && (forall r :: r in end.deviations <==> r in t.deviations && t.deviations[r] in end.verdicts)
  {
    var end := Done(t, All());
    DoneIsSound(t, All());
    forall j | j in t.jobs && t.jobs[j].Some? && t.jobs[j].value in Extras(t.verdicts)
      ensures end.jobs[j] == if t.verdicts[t.jobs[j].value].repo.None? || t.verdicts[t.jobs[j].value].sha.None? then None
                             else Some(MinOfGroup(t.verdicts, t.jobs[j].value))
    {
      KeeperIsFirst(t.verdicts, t.jobs[j].value);
    }
  }

  /** A job whose verdict lacks a repository id loses it, although the verdict's group has a keeper. */
  lemma MissingColumnLosesTheVerdict(v: Verdict)
    requires IsApp(v) && v.repo.None?
    ensures var t := Tables(map[1 := v, 2 := v], map[5 := Some(2)], map[], map[], map[], false);
            var end := Done(t, All());
            Sound(t) && end.verdicts == map[1 := v] && end.jobs[5] == None
  {
    var verdicts := map[1 := v, 2 := v];
    var t := Tables(verdicts, map[5 := Some(2)], map[], map[], map[], false);
    assert Group(verdicts, v) == {1, 2};
    assert MinOfGroup(verdicts, 1) == 1 == MinOfGroup(verdicts, 2);
    assert Extras(verdicts) == {2};
    KeeperIsFirst(verdicts, 2);
    assert Deduped(verdicts) == map[1 := v];
  }

  // --------------------------------------- beside the revision still serving

  /** While a rollout lasts, the old revision goes on inserting between the statements. */
  datatype Rollout = Rollout(tables: Tables, next: map<nat, nat>)

  datatype Dependent = Findings | Coverages | Deviations

  datatype Traffic =
    | Instance(event: Event)
    | AddVerdict(id: int, verdict: Verdict)
    | SetJob(job: int, verdictRef: Option<int>)
    | AddDependent(table: Dependent, row: int, verdictId: int)

  ghost predicate RefersToExtra(t: Tables) {
    var extras := Extras(t.verdicts);
    || (exists j :: j in t.jobs && t.jobs[j].Some? && t.jobs[j].value in extras)
    || (exists r :: r in t.findings && t.findings[r] in extras)
    || (exists r :: r in t.coverages && t.coverages[r] in extras)
    || (exists r :: r in t.deviations && t.deviations[r] in extras)
  }

  /** The database refuses to delete a verdict from under a row, and to index duplicates. */
  ghost predicate Refused(t: Tables, statement: nat) {
    (statement == 4 && RefersToExtra(t)) || (statement == 5 && !Unique(t.verdicts))
  }

  function WithDependent(t: Tables, table: Dependent, row: int, verdictId: int): Tables {
    match table
    case Findings => t.(findings := t.findings[row := verdictId])
    case Coverages => t.(coverages := t.coverages[row := verdictId])
    case Deviations => t.(deviations := t.deviations[row := verdictId])
  }

  /** A refused statement ends its instance, which may start again; a refused insert changes nothing. */
  ghost function NextTraffic(m: Rollout, e: Traffic): Rollout {
    match e
    case Instance(Start(p)) => m.(next := m.next[p := 0])
    case Instance(Step(p)) =>
      if p !in m.next || m.next[p] >= STATEMENTS then m
      else if Refused(m.tables, m.next[p]) then m.(next := m.next - {p})
      else Rollout(After(m.tables, m.next[p]), m.next[p := m.next[p] + 1])
    case AddVerdict(id, v) =>
      if id in m.tables.verdicts || (m.tables.indexed && !Unique(m.tables.verdicts[id := v])) then m
      else m.(tables := m.tables.(verdicts := m.tables.verdicts[id := v]))
    case SetJob(j, v) =>
      if v.Some? && v.value !in m.tables.verdicts then m else m.(tables := m.tables.(jobs := m.tables.jobs[j := v]))
    case AddDependent(table, row, v) =>
      if v !in m.tables.verdicts then m else m.(tables := WithDependent(m.tables, table, row, v))
  }

  ghost function RunTraffic(m: Rollout, events: seq<Traffic>): Rollout {
    if events == [] then m else NextTraffic(RunTraffic(m, events[..|events| - 1]), events[|events| - 1])
  }

  /** The tables are sound, and an instance that has finished has built the index. */
  ghost predicate Served(m: Rollout) {
    Sound(m.tables) && forall p :: p in m.next ==> m.next[p] <= STATEMENTS && (m.next[p] == STATEMENTS ==> m.tables.indexed)
  }

  /** The tables a write asks for. */
  function Wanted(t: Tables, e: Traffic): Tables
    requires !e.Instance?
  {
    match e
    case AddVerdict(id, v) => t.(verdicts := t.verdicts[id := v])
    case SetJob(j, v) => t.(jobs := t.jobs[j := v])
    case AddDependent(table, row, v) => WithDependent(t, table, row, v)
  }

  /** The service's write is stored exactly when it takes no verdict's id and its result is sound. */
  lemma WriteIsAcceptedExactlyWhen(m: Rollout, e: Traffic)
    requires Served(m) && !e.Instance?
    ensures NextTraffic(m, e).next == m.next
    ensures NextTraffic(m, e).tables
         == if Sound(Wanted(m.tables, e)) && (e.AddVerdict? ==> e.id !in m.tables.verdicts) then Wanted(m.tables, e) else m.tables
  {
    hide Unique;
    match e
    case AddVerdict(id, v) =>
      if id !in m.tables.verdicts {
        VerdictIsServed(m.tables, id, v);
      }
      hide References;
    case SetJob(j, v) =>
      ReferenceIsServed(m.tables, j, v, Findings, 0, 0);
      assert Wanted(m.tables, e).jobs[j] == v;
    case AddDependent(table, row, v) =>
      ReferenceIsServed(m.tables, 0, None, table, row, v);
      DependentRefers(m.tables, table, row, v);
      hide References;
  }

  lemma DependentRefers(t: Tables, table: Dependent, row: int, v: int)
    ensures References(WithDependent(t, table, row, v)) ==> v in t.verdicts
  {
    var w := WithDependent(t, table, row, v);
    match table
    case Findings => assert w.findings[row] == v;
    case Coverages => assert w.coverages[row] == v;
    case Deviations => assert w.deviations[row] == v;
  }

  lemma AcceptedStatementIsSound(t: Tables, statement: nat)
    requires Sound(t) && statement < STATEMENTS && !Refused(t, statement)
    ensures Sound(After(t, statement)) && (t.indexed ==> After(t, statement).indexed)
  {
    hide Deduped, Pruned, Repointed, Unique, References, RefersToExtra;
    if statement == 0 {
      OneStatementIsSound(t);
    } else if statement == 4 {
      DeleteIsSound(t);
    } else if statement < 4 {
      PruneIsSound(t, statement);
    } else {
      assert References(After(t, 5)) by { RefersAlike(t, After(t, 5)); }
    }
  }

  lemma RefersAlike(t: Tables, after: Tables)
    requires References(t) && after == t.(indexed := true)
    ensures References(after)
  {
  }

  lemma PruneIsSound(t: Tables, statement: nat)
    requires References(t) && 1 <= statement <= 3
    ensures References(After(t, statement))
  {
    hide Pruned;
    PrunedStays(t.verdicts, if statement == 1 then t.findings else if statement == 2 then t.coverages else t.deviations);
  }

  lemma PrunedStays(verdicts: map<int, Verdict>, rows: map<int, int>)
    ensures forall r :: r in Pruned(verdicts, rows) ==> r in rows && Pruned(verdicts, rows)[r] == rows[r]
  {
    hide Extras;
  }

  lemma DeleteIsSound(t: Tables)
    requires References(t) && !RefersToExtra(t)
    ensures References(After(t, 4)) && Unique(After(t, 4).verdicts)
  {
    hide Extras, Unique;
    DedupedIsUnique(t.verdicts);
  }

  lemma OneStatementIsSound(t: Tables)
    requires Sound(t)
    ensures Sound(After(t, 0))
  {
    assert After(t, 0) == Done(t, {0});
    DoneIsSound(t, {0});
  }

  lemma VerdictIsServed(t: Tables, id: int, v: Verdict)
    requires References(t) && id !in t.verdicts
    ensures References(t.(verdicts := t.verdicts[id := v]))
  {
  }

  lemma ReferenceIsServed(t: Tables, job: int, v: Option<int>, table: Dependent, row: int, verdictId: int)
    requires References(t)
    ensures v.None? || v.value in t.verdicts ==> References(t.(jobs := t.jobs[job := v]))
    ensures verdictId in t.verdicts ==> References(WithDependent(t, table, row, verdictId))
  {
  }

  lemma NextIsServed(m: Rollout, e: Traffic)
    requires Served(m)
    ensures Served(NextTraffic(m, e))
    ensures m.tables.indexed ==> NextTraffic(m, e).tables.indexed
  {
    hide References, Unique, After, Refused;
    match e
    case Instance(Start(p)) =>
    case Instance(Step(p)) =>
      if p in m.next && m.next[p] < STATEMENTS && !Refused(m.tables, m.next[p]) {
        AcceptedStatementIsSound(m.tables, m.next[p]);
        LastBuildsTheIndex(m.tables);
      }
    case AddVerdict(id, v) =>
      if id !in m.tables.verdicts {
        VerdictIsServed(m.tables, id, v);
      }
    case SetJob(j, v) => ReferenceIsServed(m.tables, j, v, Findings, 0, 0);
    case AddDependent(table, row, v) => ReferenceIsServed(m.tables, 0, None, table, row, v);
  }

  lemma LastBuildsTheIndex(t: Tables)
    ensures After(t, STATEMENTS - 1).indexed
  {
  }

  /** Under any traffic the tables stay sound; from the first finished instance on, identities stay unique. */
  lemma {:induction false} EveryRolloutIsSound(t: Tables, events: seq<Traffic>)
    requires Sound(t)
    ensures Served(RunTraffic(Rollout(t, map[]), events))
    ensures t.indexed ==> RunTraffic(Rollout(t, map[]), events).tables.indexed
  {
    if events != [] {
      var front := RunTraffic(Rollout(t, map[]), events[..|events| - 1]);
      EveryRolloutIsSound(t, events[..|events| - 1]);
      NextIsServed(front, events[|events| - 1]);
      hide Served, NextTraffic;
    }
  }

  /** Instance `p` from its start, undisturbed, through its first `n` statements. */
  function Alone(p: nat, n: nat): seq<Traffic> {
    if n == 0 then [Instance(Start(p))] else Alone(p, n - 1) + [Instance(Step(p))]
  }

  lemma AloneIsNotRefused(t: Tables, n: nat)
    requires Sound(t) && n < STATEMENTS
    ensures !Refused(Done(t, FirstStatements(n)), n)
  {
    if n == 4 {
      RepointedIsStable(t.verdicts, t.jobs);
      hide Extras, Keeper;
    } else if n == 5 {
      DedupedIsUnique(t.verdicts);
      hide Extras;
    }
  }

  lemma OneMoreFirst(t: Tables, n: nat)
    requires n < STATEMENTS
    ensures After(Done(t, FirstStatements(n)), n) == Done(t, FirstStatements(n + 1))
  {
    hide Done, After;
    OneMoreDone(t, FirstStatements(n), n);
    assert FirstStatements(n + 1) == FirstStatements(n) + {n};
  }

  lemma StepTaken(m: Rollout, p: nat, n: nat)
    requires p in m.next && m.next[p] == n < STATEMENTS
    ensures var after := NextTraffic(m, Instance(Step(p)));
            !Refused(m.tables, n) ==> after.tables == After(m.tables, n) && p in after.next && after.next[p] == n + 1
  {
    hide Refused, After;
  }

  lemma AloneStep(m: Rollout, p: nat, n: nat)
    requires n > 0
    ensures RunTraffic(m, Alone(p, n)) == NextTraffic(RunTraffic(m, Alone(p, n - 1)), Instance(Step(p)))
  {
    hide NextTraffic;
    var all := Alone(p, n);
    assert all[..|all| - 1] == Alone(p, n - 1) && all[|all| - 1] == Instance(Step(p));
  }

  lemma {:induction false} AloneSoFar(m: Rollout, p: nat, n: nat)
    requires Served(m) && n <= STATEMENTS
    ensures var after := RunTraffic(m, Alone(p, n));
            after.tables == Done(m.tables, FirstStatements(n)) && p in after.next && after.next[p] == n
  {
    hide *;
    if n == 0 {
      AloneStarts(m, p);
    } else {
      AloneSoFar(m, p, n - 1);
      AloneStep(m, p, n);
      StepTaken(RunTraffic(m, Alone(p, n - 1)), p, n - 1);
      ServedIsSound(m);
      AloneIsNotRefused(m.tables, n - 1);
      OneMoreFirst(m.tables, n - 1);
    }
  }

  lemma AloneStarts(m: Rollout, p: nat)
    ensures var after := RunTraffic(m, Alone(p, 0));
            after.tables == Done(m.tables, FirstStatements(0)) && p in after.next && after.next[p] == 0
  {
    NothingDone(m.tables);
    assert Alone(p, 0)[..0] == [];
    assert RunTraffic(m, []) == m;
    hide Done;
  }

  lemma ServedIsSound(m: Rollout)
    requires Served(m)
    ensures Sound(m.tables)
  {
  }

  /**
    Whatever the traffic left behind, an instance that then runs undisturbed finishes, and repairs the
    tables as it found them exactly.
   */
  lemma QuietRerunRepairs(t: Tables, events: seq<Traffic>, p: nat)
    requires Sound(t)
    ensures var m := RunTraffic(Rollout(t, map[]), events);
            var after := RunTraffic(m, Alone(p, STATEMENTS));
            p in after.next && after.next[p] == STATEMENTS && after.tables == Done(m.tables, All())
  {
    var m := RunTraffic(Rollout(t, map[]), events);
    EveryRolloutIsSound(t, events);
    AloneSoFar(m, p, STATEMENTS);
    assert FirstStatements(STATEMENTS) == All();
  }

  // ------------------------------------------------------ one instance at work

  /** One instance's view of apply(): the statements one transaction each, then the version's own row. */
  class Ledger {
    var tables: Tables
    var recorded: bool

    constructor (tables: Tables)
      ensures this.tables == tables && !recorded
    {
      this.tables := tables;
      recorded := false;
    }

    method Execute(statement: nat)
      requires statement < STATEMENTS
      modifies this`tables
      ensures tables == After(old(tables), statement)
    {
      tables := After(tables, statement);
    }

    /** `stop` is the statement the instance crashes before, if any. */
    method Apply(stop: nat) returns (applied: bool)
      modifies this
      ensures applied <==> !old(recorded) && stop >= STATEMENTS
      ensures recorded <==> old(recorded) || applied
      ensures old(recorded) ==> tables == old(tables)
      ensures applied ==> tables == Done(old(tables), All())
      ensures !old(recorded) && !applied ==> tables == Done(old(tables), FirstStatements(stop))
    {
      hide Done, After;
      if recorded {
        return false;
      }
      ghost var t, done: set<nat> := tables, {};
      NothingDone(t);
      var statement := 0;
      while statement < STATEMENTS && statement < stop
        invariant statement <= STATEMENTS && statement <= stop && !recorded
        invariant done == FirstStatements(statement)
        invariant tables == Done(t, done)
      {
        OneMoreDone(t, done, statement);
        Execute(statement);
        done := done + {statement};
        statement := statement + 1;
      }
      if statement < STATEMENTS {
        return false;
      }
      assert done == All();
      recorded := true;
      return true;
    }
  }

  lemma NothingDone(t: Tables)
    ensures Done(t, {}) == t
  {
  }

  /** A crash before any statement, then a full rerun, ends like a run that never crashed. */
  method CrashThenRerun(ledger: Ledger, stop: nat) returns (applied: bool)
    requires !ledger.recorded && stop < STATEMENTS
    modifies ledger
    ensures applied && ledger.tables == Done(old(ledger.tables), All())
  {
    ghost var t := ledger.tables;
    var first := ledger.Apply(stop);
    applied := ledger.Apply(STATEMENTS);
    RerunCompletes(t, stop);
  }

  lemma RerunCompletes(t: Tables, stop: nat)
    requires stop < STATEMENTS
    ensures Done(Done(t, FirstStatements(stop)), All()) == Done(t, All())
  {
    RepointedIsStable(t.verdicts, t.jobs);
    PrunedIsStable(t.verdicts, t.findings);
    PrunedIsStable(t.verdicts, t.coverages);
    PrunedIsStable(t.verdicts, t.deviations);
    DedupedIsStable(t.verdicts);
    hide Repointed, Pruned, Deduped;
  }
}
