/** The append-only adjudication log: one live head per finding, and its writer. */
module AdjudicationLog {
  // Resolving heads is api/doug/example_pack_eval.py, the compare-then-append writer
  // api/doug/example_pack_service.py. An adjudication id is a content hash, here any injective function
  // of the record's body.

  import opened Common

  datatype Target = Target(packHash: string, runId: string, findingId: string)

  datatype Disposition = Disproved | VerifiedActionable | VerifiedAcceptedNonactionable | Unknown

  datatype Body = Body(
    target: Target,
    disposition: Disposition,
    evidence: seq<string>,
    verifierReceipts: seq<string>,
    adjudicator: string,
    adjudicatedAt: int,
    supersedes: Option<string>)

  datatype Record = Record(id: string, body: Body)

  datatype ContractError = DuplicateId | MissingTarget | CrossFinding | SupersessionCycle | TwoLiveHeads

  // ------------------------------------------------------- what is accepted

  ghost predicate UniqueIds(log: seq<Record>) {
    forall i, j :: 0 <= i < j < |log| ==> log[i].id != log[j].id
  }

  /** Every correction names a stored record of the same finding. */
  ghost predicate Linked(log: seq<Record>) {
    forall i :: 0 <= i < |log| && log[i].body.supersedes.Some? ==> HasParent(log, log[i])
  }

  ghost predicate HasParent(log: seq<Record>, r: Record)
    requires r.body.supersedes.Some?
  {
    exists p :: p in log && p.id == r.body.supersedes.value && p.body.target == r.body.target
  }

  /** The records by id; where ids repeat, the last one. */
  function ById(log: seq<Record>): (m: map<string, Record>)
    ensures forall id :: id in m ==> m[id] in log && m[id].id == id
  {
    if log == [] then map[] else ById(log[..|log| - 1])[log[|log| - 1].id := log[|log| - 1]]
  }

  lemma {:induction false} ByIdHasEvery(log: seq<Record>, i: nat)
    requires i < |log|
    ensures log[i].id in ById(log)
  {
    if i < |log| - 1 {
      ByIdHasEvery(log[..|log| - 1], i);
    }
  }

  lemma {:induction false} ByIdFinds(log: seq<Record>, r: Record)
    requires UniqueIds(log) && r in log
    ensures r.id in ById(log) && ById(log)[r.id] == r
  {
    var last := log[|log| - 1];
    if r != last {
      assert r in log[..|log| - 1];
      ByIdFinds(log[..|log| - 1], r);
    }
  }

  /** The record reached by following `supersedes` n times, if the links go that far. */
  ghost function Ancestor(m: map<string, Record>, id: string, n: nat): Option<string>
    decreases n
  {
    if n == 0 then Some(id)
    else if id !in m || m[id].body.supersedes.None? then None
    else Ancestor(m, m[id].body.supersedes.value, n - 1)
  }

  /** Following `supersedes` from here comes to an end. */
  ghost predicate Rooted(m: map<string, Record>, id: string) {
    exists n: nat :: Ancestor(m, id, n).None?
  }

  ghost predicate Acyclic(log: seq<Record>) {
    forall r :: r in log ==> Rooted(ById(log), r.id)
  }

  /** In the log, and superseded by nothing in it. */
  ghost predicate Live(log: seq<Record>, r: Record) {
    r in log && forall s :: s in log ==> s.body.supersedes != Some(r.id)
  }

  ghost predicate OneLiveHead(log: seq<Record>) {
    forall r, s :: Live(log, r) && Live(log, s) && r.body.target == s.body.target ==> r == s
  }

  ghost predicate Accepted(log: seq<Record>) {
    UniqueIds(log) && Linked(log) && Acyclic(log) && OneLiveHead(log)
  }

  // ------------------------------------------------- following links is sound

  lemma {:induction false} AncestorsCompose(m: map<string, Record>, id: string, a: nat, b: nat)
    requires Ancestor(m, id, a).Some?
    ensures Ancestor(m, id, a + b) == Ancestor(m, Ancestor(m, id, a).value, b)
    decreases a
  {
    if a > 0 {
      AncestorsCompose(m, m[id].body.supersedes.value, a - 1, b);
    }
  }

  lemma {:induction false} NoAncestorBeyondTheRoot(m: map<string, Record>, id: string, a: nat, b: nat)
    requires a <= b && Ancestor(m, id, a).None?
    ensures Ancestor(m, id, b).None?
    decreases a
  {
    if id in m && m[id].body.supersedes.Some? {
      NoAncestorBeyondTheRoot(m, m[id].body.supersedes.value, a - 1, b - 1);
    }
  }

  /** A record that is its own ancestor is never rooted. */
  lemma {:induction false} CycleIsNotRooted(m: map<string, Record>, id: string, n: nat, k: nat)
    requires n > 0 && Ancestor(m, id, n) == Some(id)
    ensures Ancestor(m, id, k).Some?
  {
    if k < n {
      if Ancestor(m, id, k).None? {
        NoAncestorBeyondTheRoot(m, id, k, n);
      }
    } else {
      AncestorsCompose(m, id, n, k - n);
      CycleIsNotRooted(m, id, n, k - n);
    }
  }

  lemma ParentRooted(m: map<string, Record>, id: string)
    requires id in m && m[id].body.supersedes.Some?
    ensures Rooted(m, id) <==> Rooted(m, m[id].body.supersedes.value)
  {
    var p := m[id].body.supersedes.value;
    if Rooted(m, p) {
      var n: nat :| Ancestor(m, p, n).None?;
      assert Ancestor(m, id, n + 1).None?;
    }
    if Rooted(m, id) {
      var n: nat :| Ancestor(m, id, n).None?;
      assert Ancestor(m, p, n - 1).None?;
    }
  }

  /** Some positive number of links leads from one id to another. */
  ghost predicate LeadsTo(m: map<string, Record>, from: string, to: string) {
    exists n: nat :: n > 0 && Ancestor(m, from, n) == Some(to)
  }

  lemma LeadsFurther(m: map<string, Record>, from: string, to: string)
    requires to in m && m[to].body.supersedes.Some?
    requires from == to || LeadsTo(m, from, to)
    ensures LeadsTo(m, from, m[to].body.supersedes.value)
  {
    var n: nat := 0;
    if from != to {
      n :| n > 0 && Ancestor(m, from, n) == Some(to);
    }
    AncestorsCompose(m, from, n, 1);
    assert Ancestor(m, to, 1) == Some(m[to].body.supersedes.value);
    assert Ancestor(m, from, n + 1) == Some(m[to].body.supersedes.value);
  }

  // ------------------------------------------------------------- the resolver

  /** `visit`: depth-first along `supersedes`, with the visiting and visited sets of the search. */
  method Visit(m: map<string, Record>, visiting: set<string>, visited: set<string>, id: string)
    returns (acyclic: bool, seen: set<string>)
    requires id in m && visiting <= m.Keys
    requires forall x :: x in m && m[x].body.supersedes.Some? ==> m[x].body.supersedes.value in m
    requires forall x :: x in visited ==> Rooted(m, x)
    requires forall x :: x in visiting ==> LeadsTo(m, x, id)
    ensures acyclic <==> Rooted(m, id)
    ensures acyclic ==> visited <= seen && id in seen && forall x :: x in seen ==> Rooted(m, x)
    decreases m.Keys - visiting
  {
    if id in visited {
      return true, visited;
    }
    if id in visiting {
      forall n: nat ensures Ancestor(m, id, n).Some? {
        var k: nat :| k > 0 && Ancestor(m, id, k) == Some(id);
        CycleIsNotRooted(m, id, k, n);
      }
      return false, visited;
    }
    var parent := m[id].body.supersedes;
    if parent.None? {
      assert Ancestor(m, id, 1).None?;
      return true, visited + {id};
    }
    ParentRooted(m, id);
    forall x | x in visiting + {id} ensures LeadsTo(m, x, parent.value) {
      LeadsFurther(m, x, id);
    }
    acyclic, seen := Visit(m, visiting + {id}, visited, parent.value);
    seen := seen + {id};
  }

  lemma AppendedId(log: seq<Record>, r: Record)
    requires UniqueIds(log)
    ensures UniqueIds(log + [r]) <==> r.id !in ById(log)
    ensures ById(log + [r]) == ById(log)[r.id := r]
  {
    assert (log + [r])[..|log|] == log;
    if r.id in ById(log) {
      var i :| 0 <= i < |log| && log[i] == ById(log)[r.id];
      assert (log + [r])[i].id == (log + [r])[|log|].id;
    } else {
      forall i | 0 <= i < |log| ensures log[i].id in ById(log) {
        ByIdHasEvery(log, i);
      }
    }
  }

  lemma DuplicateInPrefix(log: seq<Record>, n: nat)
    requires n <= |log| && !UniqueIds(log[..n])
    ensures !UniqueIds(log)
  {
  }

  lemma NothingIndexed(log: seq<Record>)
    ensures UniqueIds(log[..0]) && ById(log[..0]) == map[]
  {
  }

  lemma IndexOneMore(log: seq<Record>, i: nat)
    requires i < |log| && UniqueIds(log[..i])
    ensures UniqueIds(log[..i + 1]) <==> log[i].id !in ById(log[..i])
    ensures ById(log[..i + 1]) == ById(log[..i])[log[i].id := log[i]]
  {
    hide *;
    AppendedId(log[..i], log[i]);
    assert log[..i + 1] == log[..i] + [log[i]];
  }

  /** The first loop: records keyed by id, or the duplicate. */
  method Index(log: seq<Record>) returns (m: Option<map<string, Record>>)
    ensures m.Some? <==> UniqueIds(log)
    ensures m.Some? ==> m.value == ById(log)
  {
    NothingIndexed(log);
    hide *;
    var records: map<string, Record> := map[];
    for i := 0 to |log|
      invariant UniqueIds(log[..i]) && records == ById(log[..i])
    {
      IndexOneMore(log, i);
      if log[i].id in records {
        DuplicateInPrefix(log, i + 1);
        return None;
      }
      records := records[log[i].id := log[i]];
    }
    assert log[..|log|] == log;
    return Some(records);
  }

  lemma ParentIsIndexed(log: seq<Record>, r: Record)
    requires UniqueIds(log) && r.body.supersedes.Some?
    ensures var m := ById(log);
            HasParent(log, r) <==> r.body.supersedes.value in m && m[r.body.supersedes.value].body.target == r.body.target
  {
    if HasParent(log, r) {
      var p :| p in log && p.id == r.body.supersedes.value && p.body.target == r.body.target;
      ByIdFinds(log, p);
    }
  }

  /** The second loop: every supersession target is stored and is of the same finding. */
  method CheckLinks(log: seq<Record>, m: map<string, Record>) returns (error: Option<ContractError>)
    requires UniqueIds(log) && m == ById(log)
    ensures error.None? <==> Linked(log)
    ensures error == Some(MissingTarget) ==> exists r :: r in log && r.body.supersedes.Some? && r.body.supersedes.value !in m
    ensures error.None? || error.value in {MissingTarget, CrossFinding}
  {
    hide ById;
    for i := 0 to |log|
      invariant forall k :: 0 <= k < i && log[k].body.supersedes.Some? ==> HasParent(log, log[k])
    {
      var supersedes := log[i].body.supersedes;
      if supersedes.Some? {
        ParentIsIndexed(log, log[i]);
        if supersedes.value !in m {
          assert log[i] in log;
          return Some(MissingTarget);
        }
        if m[supersedes.value].body.target != log[i].body.target {
          return Some(CrossFinding);
        }
      }
    }
    return None;
  }

  lemma LinksStayInside(log: seq<Record>, id: string)
    requires Linked(log) && id in ById(log) && ById(log)[id].body.supersedes.Some?
    ensures ById(log)[id].body.supersedes.value in ById(log)
  {
    var i :| 0 <= i < |log| && log[i] == ById(log)[id];
    assert HasParent(log, log[i]);
    var p :| p in log && p.id == log[i].body.supersedes.value;
    var k :| 0 <= k < |log| && log[k] == p;
    ByIdHasEvery(log, k);
  }

  /** The third loop: no supersession cycle. */
  method CheckCycles(log: seq<Record>, m: map<string, Record>) returns (acyclic: bool)
    requires m == ById(log) && Linked(log)
    ensures acyclic <==> Acyclic(log)
  {
    forall x | x in m && m[x].body.supersedes.Some? ensures m[x].body.supersedes.value in m {
      LinksStayInside(log, x);
    }
    hide ById, Linked, Rooted;
    var visited: set<string> := {};
    for i := 0 to |log|
      invariant forall x :: x in visited ==> Rooted(m, x)
      invariant forall k :: 0 <= k < i ==> Rooted(m, log[k].id)
    {
      ByIdHasEvery(log, i);
      assert log[i] in log;
      acyclic, visited := Visit(m, {}, visited, log[i].id);
      if !acyclic {
        return false;
      }
    }
    return true;
  }

  function Superseded(log: seq<Record>): set<string> {
    set i | 0 <= i < |log| && log[i].body.supersedes.Some? :: log[i].body.supersedes.value
  }

  /** The last loop: the live records, one for each finding. */
  method CollectHeads(log: seq<Record>) returns (heads: Option<map<Target, Record>>)
    ensures heads.Some? <==> OneLiveHead(log)
    ensures heads.Some? ==> forall t :: t in heads.value ==> Live(log, heads.value[t]) && heads.value[t].body.target == t
    ensures heads.Some? ==> forall r :: Live(log, r) ==> r.body.target in heads.value
  {
    var superseded := Superseded(log);
    var resolved: map<Target, Record> := map[];
    for i := 0 to |log|
      invariant forall t :: t in resolved ==> Live(log, resolved[t]) && resolved[t].body.target == t
      invariant forall k :: 0 <= k < i && Live(log, log[k]) ==>
                  log[k].body.target in resolved && resolved[log[k].body.target] == log[k]
    {
      if log[i].id !in superseded {
        var t := log[i].body.target;
        if t in resolved && resolved[t] != log[i] {
          return None;
        }
        resolved := resolved[t := log[i]];
      }
    }
    forall r | Live(log, r) ensures r.body.target in resolved && resolved[r.body.target] == r {
      var k :| 0 <= k < |log| && log[k] == r;
    }
    return Some(resolved);
  }

  /**
    One live head for each finding, or the first contract the log breaks.
    `Heads` says which records the result holds.
   */
  method Resolve(log: seq<Record>) returns (r: Result<map<Target, Record>, ContractError>)
    ensures r.Ok? <==> Accepted(log)
    ensures r.Ok? ==> Heads(log, r.value)
    ensures r == Err(DuplicateId) <==> !UniqueIds(log)
    ensures r == Err(SupersessionCycle) <==> UniqueIds(log) && Linked(log) && !Acyclic(log)
    ensures r == Err(TwoLiveHeads) <==> UniqueIds(log) && Linked(log) && Acyclic(log) && !OneLiveHead(log)
  {
    var records := Index(log);
    if records.None? {
      return Err(DuplicateId);
    }
    var error := CheckLinks(log, records.value);
    if error.Some? {
      return Err(error.value);
    }
    var acyclic := CheckCycles(log, records.value);
    if !acyclic {
      return Err(SupersessionCycle);
    }
    var heads := CollectHeads(log);
    if heads.None? {
      return Err(TwoLiveHeads);
    }
    return Ok(heads.value);
  }

  /** The map holds exactly the live records, by finding. */
  ghost predicate Heads(log: seq<Record>, heads: map<Target, Record>) {
    && (forall t :: t in heads ==> Live(log, heads[t]) && heads[t].body.target == t)
    && (forall r :: Live(log, r) ==> r.body.target in heads)
  }

  // ------------------------------------------------- accepted means one chain each

  ghost predicate Mentions(log: seq<Record>, t: Target) {
    exists r :: r in log && r.body.target == t
  }

  /** Exactly this finding's records, first to last, each superseding the one before it. */
  ghost predicate IsChain(log: seq<Record>, t: Target, chain: seq<Record>) {
    && |chain| > 0
    && (forall r :: r in chain <==> r in log && r.body.target == t)
    && (forall k, l :: 0 <= k < l < |chain| ==> chain[k] != chain[l])
    && chain[0].body.supersedes == None
    && (forall k :: 0 < k < |chain| ==> chain[k].body.supersedes == Some(chain[k - 1].id))
  }

  /** One single chain for every finding the log mentions. */
  ghost predicate SingleChains(log: seq<Record>) {
    forall t :: Mentions(log, t) ==> exists chain :: IsChain(log, t, chain)
  }

  /** A record's ancestors from the root down to itself; `n` links suffice to pass the root. */
  ghost function Lineage(m: map<string, Record>, r: Record, n: nat): (chain: seq<Record>)
    requires r.id in m && m[r.id] == r
    requires forall x :: x in m && m[x].body.supersedes.Some? ==> m[x].body.supersedes.value in m
    requires forall x :: x in m ==> m[x].id == x
    requires Ancestor(m, r.id, n).None?
    ensures |chain| > 0 && chain[|chain| - 1] == r
    ensures chain[0].body.supersedes.None?
    ensures forall k :: 0 < k < |chain| ==> chain[k].body.supersedes == Some(chain[k - 1].id)
    ensures forall k :: 0 <= k < |chain| ==> chain[k].id in m && m[chain[k].id] == chain[k]
    decreases n
  {
    if r.body.supersedes.None? then [r]
    else Lineage(m, m[r.body.supersedes.value], n - 1) + [r]
  }

  /** Links never leave the finding, so a lineage is all of one finding. */
  lemma {:induction false} LineageKeepsTarget(log: seq<Record>, chain: seq<Record>, k: nat)
    requires UniqueIds(log) && Linked(log) && IsLineage(log, chain) && k < |chain|
    ensures chain[k].body.target == chain[|chain| - 1].body.target
    decreases |chain| - k
  {
    if k + 1 < |chain| {
      LineageKeepsTarget(log, chain, k + 1);
    }
  }

  /** From a record to the one that supersedes it: same finding, and everything below stays below. */
  lemma ClimbOne(log: seq<Record>, r: Record, child: Record, below: set<string>)
    requires Accepted(log) && r in log && child in log && child.body.supersedes == Some(r.id)
    requires forall x :: x in below ==> LeadsTo(ById(log), r.id, x)
    ensures child.body.target == r.body.target
    ensures r.id in ById(log) && r.id !in below
    ensures forall x :: x in below + {r.id} ==> LeadsTo(ById(log), child.id, x)
  {
    ByIdFinds(log, child);
    ByIdFinds(log, r);
    RootedIsNotItsOwnAncestor(ById(log), r.id);
    forall x | x in below + {r.id} ensures LeadsTo(ById(log), child.id, x) {
      ChildLeadsTo(ById(log), child, x);
    }
  }

  ghost predicate IsLineage(log: seq<Record>, chain: seq<Record>) {
    && |chain| > 0 && chain[0].body.supersedes.None?
    && (forall k :: 0 <= k < |chain| ==> chain[k] in log)
    && (forall k :: 0 < k < |chain| ==> chain[k].body.supersedes == Some(chain[k - 1].id))
  }

  lemma ParentIsBeneath(log: seq<Record>, chain: seq<Record>, child: Record, r: Record)
    requires UniqueIds(log) && IsLineage(log, chain) && child in chain && r in log && child.body.supersedes == Some(r.id)
    ensures r in chain
  {
    var k :| 0 <= k < |chain| && chain[k] == child;
    ByIdFinds(log, r);
    ByIdFinds(log, chain[k - 1]);
  }

  /**
    Every record of the head's finding lies on the head's lineage: climb from it to
    what supersedes it, never meeting a record twice, until the head is reached.
   */
  lemma {:induction false} RecordLiesOnChain(log: seq<Record>, chain: seq<Record>, r: Record, below: set<string>)
    requires Accepted(log) && r in log && IsLineage(log, chain)
    requires Live(log, chain[|chain| - 1]) && r.body.target == chain[|chain| - 1].body.target
    requires below <= ById(log).Keys && forall x :: x in below ==> LeadsTo(ById(log), r.id, x)
    ensures r in chain
    decreases ById(log).Keys - below
  {
    hide ById, LeadsTo, Rooted;
    if Live(log, r) {
      assert r == chain[|chain| - 1];
    } else {
      var child :| child in log && child.body.supersedes == Some(r.id);
      ClimbOne(log, r, child, below);
      RecordLiesOnChain(log, chain, child, below + {r.id});
      ParentIsBeneath(log, chain, child, r);
    }
  }

  lemma RootedIsNotItsOwnAncestor(m: map<string, Record>, id: string)
    requires Rooted(m, id)
    ensures !LeadsTo(m, id, id)
  {
    var n: nat :| Ancestor(m, id, n).None?;
    forall k: nat | k > 0 ensures Ancestor(m, id, k) != Some(id) {
      if Ancestor(m, id, k) == Some(id) {
        CycleIsNotRooted(m, id, k, n);
      }
    }
  }

  lemma ChildLeadsTo(m: map<string, Record>, child: Record, x: string)
    requires child.id in m && m[child.id] == child && child.body.supersedes.Some?
    requires child.body.supersedes.value == x || LeadsTo(m, child.body.supersedes.value, x)
    ensures LeadsTo(m, child.id, x)
  {
    var n: nat := 0;
    if child.body.supersedes.value != x {
      n :| n > 0 && Ancestor(m, child.body.supersedes.value, n) == Some(x);
    }
    assert Ancestor(m, child.id, n + 1) == Some(x);
  }

  /** Following `supersedes` down from a stored record gives its lineage. */
  lemma HasLineage(log: seq<Record>, head: Record) returns (chain: seq<Record>)
    requires UniqueIds(log) && Linked(log) && Rooted(ById(log), head.id) && head in log
    ensures IsLineage(log, chain) && chain[|chain| - 1] == head
  {
    hide UniqueIds, Linked, Lineage, Ancestor;
    var m := ById(log);
    ByIdFinds(log, head);
    forall x | x in m && m[x].body.supersedes.Some? ensures m[x].body.supersedes.value in m {
      LinksStayInside(log, x);
    }
    var n: nat :| Ancestor(m, head.id, n).None?;
    chain := Lineage(m, head, n);
  }

  /** An accepted log's head carries the whole chain of its finding. */
  lemma HeadCarriesChain(log: seq<Record>, head: Record) returns (chain: seq<Record>)
    requires Accepted(log) && Live(log, head)
    ensures IsChain(log, head.body.target, chain) && chain[|chain| - 1] == head
  {
    assert head in log && Rooted(ById(log), head.id);
    hide UniqueIds, Linked, Rooted, Acyclic, OneLiveHead, IsLineage, Live, ById, IsChain;
    chain := HasLineage(log, head);
    LineageIsChain(log, head, chain);
  }

  lemma LineageIsChain(log: seq<Record>, head: Record, chain: seq<Record>)
    requires Accepted(log) && Live(log, head) && IsLineage(log, chain) && chain[|chain| - 1] == head
    ensures IsChain(log, head.body.target, chain)
  {
    hide Rooted, Acyclic, OneLiveHead;
    forall k | 0 <= k < |chain| ensures chain[k].body.target == head.body.target {
      LineageKeepsTarget(log, chain, k);
    }
    forall r | r in log && r.body.target == head.body.target ensures r in chain {
      RecordLiesOnChain(log, chain, r, {});
    }
    forall k, l | 0 <= k < l < |chain| ensures chain[k] != chain[l] {
      LineageIsDistinct(log, chain, k, l);
    }
  }

  /** Equal records at two places would stay equal all the way down to the root. */
  lemma {:induction false} LineageIsDistinct(log: seq<Record>, chain: seq<Record>, k: nat, l: nat)
    requires UniqueIds(log) && IsLineage(log, chain) && k < l < |chain|
    ensures chain[k] != chain[l]
  {
    assert chain[l].body.supersedes == Some(chain[l - 1].id);
    if k > 0 && chain[k] == chain[l] {
      ByIdFinds(log, chain[k - 1]);
      ByIdFinds(log, chain[l - 1]);
      LineageIsDistinct(log, chain, k - 1, l - 1);
    }
  }

  /** Every finding an accepted log mentions has a live head. */
  lemma {:induction false} ClimbToHead(log: seq<Record>, r: Record, below: set<string>) returns (head: Record)
    requires Accepted(log) && r in log
    requires below <= ById(log).Keys && forall x :: x in below ==> LeadsTo(ById(log), r.id, x)
    ensures Live(log, head) && head.body.target == r.body.target
    decreases ById(log).Keys - below
  {
    hide ById, LeadsTo, Rooted;
    if Live(log, r) {
      return r;
    }
    var child :| child in log && child.body.supersedes == Some(r.id);
    ClimbOne(log, r, child, below);
    head := ClimbToHead(log, child, below + {r.id});
  }

  /** In a log of single chains, each record's chain position bounds its depth. */
  lemma {:induction false} ChainIsRooted(log: seq<Record>, t: Target, chain: seq<Record>, k: nat)
    requires UniqueIds(log) && IsChain(log, t, chain) && k < |chain|
    ensures Ancestor(ById(log), chain[k].id, k + 1).None?
  {
    assert chain[k] in log;
    ByIdFinds(log, chain[k]);
    if k > 0 {
      ChainIsRooted(log, t, chain, k - 1);
    }
  }

  lemma LastIsLive(log: seq<Record>, t: Target, chain: seq<Record>)
    requires UniqueIds(log) && SingleChains(log) && IsChain(log, t, chain)
    ensures Live(log, chain[|chain| - 1])
    ensures forall k :: 0 <= k < |chain| - 1 ==> !Live(log, chain[k])
  {
    var last := chain[|chain| - 1];
    assert last in chain;
    forall s | s in log ensures s.body.supersedes != Some(last.id) {
      if s.body.supersedes == Some(last.id) {
        assert Mentions(log, s.body.target);
        var other :| IsChain(log, s.body.target, other);
        var k :| 0 <= k < |other| && other[k] == s;
        assert other[k - 1] in other;
        ByIdFinds(log, other[k - 1]);
        ByIdFinds(log, last);
        var j :| 0 <= j < |chain| && chain[j] == s;
        assert chain[j - 1] in chain;
        ByIdFinds(log, chain[j - 1]);
      }
    }
    forall k | 0 <= k < |chain| - 1 ensures !Live(log, chain[k]) {
      assert chain[k + 1] in chain;
    }
  }

  lemma SingleChainsAreAccepted(log: seq<Record>)
    requires UniqueIds(log) && SingleChains(log)
    ensures Accepted(log)
  {
    forall r | r in log
      ensures Rooted(ById(log), r.id)
      ensures r.body.supersedes.Some? ==> HasParent(log, r)
      ensures Live(log, r) ==> forall s :: Live(log, s) && s.body.target == r.body.target ==> s == r
    {
      assert Mentions(log, r.body.target);
      var chain :| IsChain(log, r.body.target, chain);
      assert r in chain;
      var k :| 0 <= k < |chain| && chain[k] == r;
      ChainIsRooted(log, r.body.target, chain, k);
      if k > 0 {
        assert chain[k - 1] in chain;
      }
      LastIsLive(log, r.body.target, chain);
      forall s | Live(log, s) && s.body.target == r.body.target && Live(log, r) ensures s == r {
        assert s in chain;
      }
    }
    forall i | 0 <= i < |log| && log[i].body.supersedes.Some? ensures HasParent(log, log[i]) {
      assert log[i] in log;
    }
  }

  /**
    The resolver accepts a set of records exactly when each finding's records form
    one single chain under `supersedes`, and resolves each finding to its chain's last record.
   */
  lemma AcceptedMeansSingleChains(log: seq<Record>)
    ensures Accepted(log) <==> UniqueIds(log) && SingleChains(log)
    ensures Accepted(log) ==> forall heads, t, chain ::
              Heads(log, heads) && IsChain(log, t, chain) ==> t in heads && heads[t] == chain[|chain| - 1]
  {
    if Accepted(log) {
      forall t | Mentions(log, t) ensures exists chain :: IsChain(log, t, chain) {
        var r :| r in log && r.body.target == t;
        var head := ClimbToHead(log, r, {});
        var chain := HeadCarriesChain(log, head);
      }
      forall heads, t, chain | Heads(log, heads) && IsChain(log, t, chain)
        ensures t in heads && heads[t] == chain[|chain| - 1]
      {
        LastIsLive(log, t, chain);
        assert chain[|chain| - 1] in chain;
      }
    } else if UniqueIds(log) && SingleChains(log) {
      SingleChainsAreAccepted(log);
    }
  }

  // ----------------------------------------------------- compare, then append

  ghost predicate Injective(hash: Body -> string) {
    forall a, b :: hash(a) == hash(b) ==> a == b
  }

  /** Every stored id is the content hash of its record, as validation on read requires. */
  ghost predicate WellHashed(log: seq<Record>, hash: Body -> string) {
    forall r :: r in log ==> r.id == hash(r.body)
  }

  /** The id a caller must name to write: this finding's head, or none before its first record. */
  ghost predicate IsCurrent(log: seq<Record>, t: Target, current: Option<string>) {
    if current.None? then !Mentions(log, t)
    else exists head :: Live(log, head) && head.body.target == t && head.id == current.value
  }

  /** A record that supersedes the current head cannot already be stored. */
  lemma CreatedIsNew(log: seq<Record>, hash: Body -> string, body: Body)
    requires Accepted(log) && Injective(hash) && WellHashed(log, hash)
    requires IsCurrent(log, body.target, body.supersedes)
    ensures forall r :: r in log ==> r.id != hash(body)
  {
    forall r | r in log ensures r.id != hash(body) {
      if r.id == hash(body) {
        assert r.body == body;
        assert body.supersedes.None? ==> Mentions(log, r.body.target);
      }
    }
  }

  /** The chain of a finding, or nothing where the log never mentions it. */
  ghost function ChainOf(log: seq<Record>, t: Target): (chain: seq<Record>)
    requires SingleChains(log)
    ensures Mentions(log, t) ==> IsChain(log, t, chain)
    ensures !Mentions(log, t) ==> chain == []
  {
    if Mentions(log, t) then (var chain :| IsChain(log, t, chain); chain) else []
  }

  lemma ChainEndsAtCurrent(log: seq<Record>, t: Target, chain: seq<Record>, current: Option<string>)
    requires Accepted(log) && IsCurrent(log, t, current)
    requires if Mentions(log, t) then IsChain(log, t, chain) else chain == []
    ensures current == if chain == [] then None else Some(chain[|chain| - 1].id)
  {
    assert current.Some? <==> Mentions(log, t);
    if Mentions(log, t) {
      AcceptedMeansSingleChains(log);
      LastIsLive(log, t, chain);
      assert chain[|chain| - 1] in chain;
    }
  }

  /** A write lengthens its own finding's chain by one. */
  lemma OwnChainAfterAppend(log: seq<Record>, created: Record, chain: seq<Record>)
    requires forall r :: r in log ==> r.id != created.id
    requires if Mentions(log, created.body.target) then IsChain(log, created.body.target, chain) else chain == []
    requires created.body.supersedes == if chain == [] then None else Some(chain[|chain| - 1].id)
    ensures IsChain(log + [created], created.body.target, chain + [created])
  {
    var next, t := log + [created], created.body.target;
    forall r ensures r in chain + [created] <==> r in next && r.body.target == t {
      assert r in chain + [created] <==> r in chain || r == created;
      assert r in next <==> r in log || r == created;
      assert r in log && r.body.target == t ==> Mentions(log, t);
    }
    forall k | 0 <= k < |chain| ensures chain[k] != created {
      assert chain[k] in chain;
    }
  }

  /** A write leaves every other finding's chain as it was. */
  lemma OtherChainAfterAppend(log: seq<Record>, created: Record, t: Target, chain: seq<Record>)
    requires t != created.body.target && IsChain(log, t, chain)
    ensures IsChain(log + [created], t, chain)
  {
    forall r ensures r in chain <==> r in log + [created] && r.body.target == t {
      assert r in log + [created] <==> r in log || r == created;
    }
  }

  lemma ChainsAfterAppend(log: seq<Record>, created: Record, t: Target) returns (chain: seq<Record>)
    requires Accepted(log) && SingleChains(log) && IsCurrent(log, created.body.target, created.body.supersedes)
    requires forall r :: r in log ==> r.id != created.id
    requires Mentions(log + [created], t)
    ensures chain == ChainOf(log, t) + if t == created.body.target then [created] else []
    ensures IsChain(log + [created], t, chain)
  {
    hide IsChain, Accepted, SingleChains;
    chain := ChainOf(log, t) + if t == created.body.target then [created] else [];
    if t == created.body.target {
      ChainEndsAtCurrent(log, t, ChainOf(log, t), created.body.supersedes);
      OwnChainAfterAppend(log, created, ChainOf(log, t));
    } else {
      var r :| r in log + [created] && r.body.target == t;
      assert r in log;
      assert Mentions(log, t);
      OtherChainAfterAppend(log, created, t, ChainOf(log, t));
      assert chain == ChainOf(log, t);
    }
  }

  /** A write keeps the log accepted and makes the new record its finding's head, touching no other head. */
  lemma AppendKeepsAccepted(log: seq<Record>, created: Record)
    requires Accepted(log) && IsCurrent(log, created.body.target, created.body.supersedes)
    requires forall r :: r in log ==> r.id != created.id
    ensures Accepted(log + [created]) && Live(log + [created], created)
    ensures forall heads, later :: Heads(log, heads) && Heads(log + [created], later) ==>
              later == heads[created.body.target := created]
  {
    var next, mine := log + [created], created.body.target;
    AcceptedMeansSingleChains(log);
    forall t | Mentions(next, t) ensures exists chain :: IsChain(next, t, chain) {
      var chain := ChainsAfterAppend(log, created, t);
    }
    SingleChainsAreAccepted(next);
    assert created in next && Mentions(next, mine);
    var chain := ChainsAfterAppend(log, created, mine);
    LastIsLive(next, mine, chain);
    forall heads, later | Heads(log, heads) && Heads(next, later)
      ensures later == heads[mine := created]
    {
      HeadsAfterAppend(log, created, heads, later);
    }
  }

  /** A result map covers exactly the findings mentioned, each by the end of its chain. */
  lemma HeadsAreChainEnds(log: seq<Record>, heads: map<Target, Record>, t: Target)
    requires Accepted(log) && SingleChains(log) && Heads(log, heads)
    ensures t in heads <==> Mentions(log, t)
    ensures t in heads ==> var chain := ChainOf(log, t); chain != [] && heads[t] == chain[|chain| - 1]
  {
    if t in heads {
      assert heads[t] in log && Mentions(log, t);
    }
    if Mentions(log, t) {
      LastIsLive(log, t, ChainOf(log, t));
      assert ChainOf(log, t)[|ChainOf(log, t)| - 1] in ChainOf(log, t);
    }
  }

  lemma MentionsAfterAppend(log: seq<Record>, created: Record, t: Target)
    ensures Mentions(log + [created], t) <==> Mentions(log, t) || t == created.body.target
  {
    assert created in log + [created];
    assert forall r :: r in log + [created] <==> r in log || r == created;
  }

  lemma SameEnd(log: seq<Record>, t: Target, a: seq<Record>, b: seq<Record>)
    requires Accepted(log) && SingleChains(log) && IsChain(log, t, a) && IsChain(log, t, b)
    ensures a != [] && b != [] && a[|a| - 1] == b[|b| - 1]
  {
    LastIsLive(log, t, a);
    LastIsLive(log, t, b);
    assert a[|a| - 1] in a && b[|b| - 1] in b;
  }

  lemma ChainOfAfterAppend(log: seq<Record>, created: Record, t: Target)
    requires Accepted(log) && SingleChains(log) && IsCurrent(log, created.body.target, created.body.supersedes)
    requires forall r :: r in log ==> r.id != created.id
    requires Accepted(log + [created]) && SingleChains(log + [created])
    requires Mentions(log + [created], t)
    ensures var chain := ChainOf(log, t) + if t == created.body.target then [created] else [];
            chain != [] && ChainOf(log + [created], t)[|ChainOf(log + [created], t)| - 1] == chain[|chain| - 1]
  {
    hide IsCurrent, Accepted, SingleChains, IsChain;
    var chain := ChainsAfterAppend(log, created, t);
    SameEnd(log + [created], t, chain, ChainOf(log + [created], t));
  }

  lemma HeadsAfterAppend(log: seq<Record>, created: Record, heads: map<Target, Record>, later: map<Target, Record>)
    requires Accepted(log) && IsCurrent(log, created.body.target, created.body.supersedes)
    requires forall r :: r in log ==> r.id != created.id
    requires Accepted(log + [created]) && Heads(log, heads) && Heads(log + [created], later)
    ensures later == heads[created.body.target := created]
  {
    AcceptedMeansSingleChains(log);
    AcceptedMeansSingleChains(log + [created]);
    hide *;
    forall t ensures t in later <==> t in heads || t == created.body.target
             ensures t in later ==> later[t] == heads[created.body.target := created][t]
    {
      MentionsAfterAppend(log, created, t);
      HeadsAreChainEnds(log, heads, t);
      HeadsAreChainEnds(log + [created], later, t);
      if Mentions(log + [created], t) {
        ChainOfAfterAppend(log, created, t);
      }
    }
  }

  datatype WriteError = Unsupported | UnknownPack | UnknownFinding | StaleHead | Unresolvable(error: ContractError)

  datatype Pack = Pack(packHash: string, runId: string, findings: seq<string>)

  /** The first pack of the cohort with this hash. */
  function PackFor(packs: seq<Pack>, packHash: string): (r: Option<Pack>)
    ensures r.Some? ==> r.value in packs && r.value.packHash == packHash
    ensures r.None? <==> forall p :: p in packs ==> p.packHash != packHash
  {
    if packs == [] then None
    else if packs[0].packHash == packHash then Some(packs[0])
    else
      assert packs == [packs[0]] + packs[1..];
      PackFor(packs[1..], packHash)
  }

  // ------------------------------------------------- writers side by side

  /** A write to one finding changes no other finding's current record. */
  lemma OtherCurrentAfterAppend(log: seq<Record>, created: Record, t: Target, current: Option<string>)
    requires Accepted(log) && IsCurrent(log, created.body.target, created.body.supersedes)
    requires forall r :: r in log ==> r.id != created.id
    requires t != created.body.target
    ensures IsCurrent(log, t, current) <==> IsCurrent(log + [created], t, current)
  {
    var next := log + [created];
    MentionsAfterAppend(log, created, t);
    assert forall r :: r in next <==> r in log || r == created;
    if current.Some? {
      forall head: Record | head in log && head.body.target == t ensures Live(log, head) <==> Live(next, head) {
        SupersededIsOwn(log, created, head);
        LiveAfterAppend(log, created, head);
      }
    }
  }

  /** What a new record supersedes is of its own finding. */
  lemma SupersededIsOwn(log: seq<Record>, created: Record, head: Record)
    requires Accepted(log) && IsCurrent(log, created.body.target, created.body.supersedes)
    requires head in log && head.body.target != created.body.target
    ensures created.body.supersedes != Some(head.id)
  {
    if created.body.supersedes.Some? {
      var own :| Live(log, own) && own.body.target == created.body.target && own.id == created.body.supersedes.value;
      SameIdSameRecord(log, own, head);
    }
  }

  lemma SameIdSameRecord(log: seq<Record>, a: Record, b: Record)
    requires UniqueIds(log) && a in log && b in log
    ensures a.id == b.id ==> a == b
  {
    var i :| 0 <= i < |log| && log[i] == a;
    var j :| 0 <= j < |log| && log[j] == b;
    assert i != j ==> log[i].id != log[j].id;
  }

  lemma LiveAfterAppend(log: seq<Record>, created: Record, head: Record)
    requires head in log && created.body.supersedes != Some(head.id)
    ensures Live(log, head) <==> Live(log + [created], head)
  {
    assert forall r :: r in log + [created] <==> r in log || r == created;
  }

  /** The lock is on one finding of one pack. */
  datatype Lock = Lock(packHash: string, findingId: string)

  function LockOf(t: Target): Lock {
    Lock(t.packHash, t.findingId)
  }

  /** The stored log, and for each lock held the record its holder is about to store. */
  datatype Writers = Writers(log: seq<Record>, writing: map<Lock, Record>)

  datatype Event =
    | Begin(body: Body)     // lock, read the log, compare the head: `body.supersedes` is what the caller expects
    | Store(lock: Lock)     // append and unlock
    | Abandon(lock: Lock)   // the writer dies; its lock goes with it

  /** The record a writer that holds the finding's lock is about to store, if its head is still current. */
  ghost function Next(w: Writers, e: Event, hash: Body -> string): Writers {
    match e
    case Begin(body) =>
      if LockOf(body.target) !in w.writing && IsCurrent(w.log, body.target, body.supersedes)
      then w.(writing := w.writing[LockOf(body.target) := Record(hash(body), body)])
      else w
    case Store(lock) =>
      if lock in w.writing then Writers(w.log + [w.writing[lock]], w.writing - {lock}) else w
    case Abandon(lock) => w.(writing := w.writing - {lock})
  }

  /** The log is accepted, and every record about to be stored still names its finding's current head. */
  ghost predicate Sound(w: Writers, hash: Body -> string) {
    && Accepted(w.log) && WellHashed(w.log, hash)
    && forall lock :: lock in w.writing ==> Ready(w.log, lock, w.writing[lock], hash)
  }

  ghost predicate Ready(log: seq<Record>, lock: Lock, r: Record, hash: Body -> string) {
    r.id == hash(r.body) && LockOf(r.body.target) == lock && IsCurrent(log, r.body.target, r.body.supersedes)
  }

  lemma StoreKeepsReady(log: seq<Record>, created: Record, lock: Lock, r: Record, hash: Body -> string)
    requires Injective(hash) && Accepted(log) && WellHashed(log, hash)
    requires Ready(log, LockOf(created.body.target), created, hash) && Ready(log, lock, r, hash)
    requires lock != LockOf(created.body.target)
    ensures Ready(log + [created], lock, r, hash)
  {
    CreatedIsNew(log, hash, created.body);
    OtherCurrentAfterAppend(log, created, r.body.target, r.body.supersedes);
  }

  lemma StoreIsSound(log: seq<Record>, created: Record, hash: Body -> string)
    requires Injective(hash) && Accepted(log) && WellHashed(log, hash)
    requires Ready(log, LockOf(created.body.target), created, hash)
    ensures Accepted(log + [created]) && WellHashed(log + [created], hash) && Live(log + [created], created)
  {
    CreatedIsNew(log, hash, created.body);
    AppendKeepsAccepted(log, created);
    assert forall r :: r in log + [created] <==> r in log || r == created;
  }

  lemma NextIsSound(w: Writers, e: Event, hash: Body -> string)
    requires Injective(hash) && Sound(w, hash)
    ensures Sound(Next(w, e, hash), hash)
  {
    if e.Store? && e.lock in w.writing {
      hide Accepted, WellHashed, Ready, Injective;
      var created := w.writing[e.lock];
      ReadyHasItsLock(w.log, e.lock, created, hash);
      StoreIsSound(w.log, created, hash);
      forall lock | lock in w.writing && lock != e.lock ensures Ready(w.log + [created], lock, w.writing[lock], hash) {
        StoreKeepsReady(w.log, created, lock, w.writing[lock], hash);
      }
    }
  }

  lemma ReadyHasItsLock(log: seq<Record>, lock: Lock, r: Record, hash: Body -> string)
    requires Ready(log, lock, r, hash)
    ensures LockOf(r.body.target) == lock
  {
  }

  ghost function Run(events: seq<Event>, hash: Body -> string): Writers {
    if events == [] then Writers([], map[]) else Next(Run(events[..|events| - 1], hash), events[|events| - 1], hash)
  }

  /** However writers on different findings interleave, and die, the stored log is accepted. */
  lemma {:induction false} EveryInterleavingIsAccepted(events: seq<Event>, hash: Body -> string)
    requires Injective(hash)
    ensures Sound(Run(events, hash), hash)
  {
    hide Accepted;
    if events == [] {
      NothingIsAccepted();
    } else {
      EveryInterleavingIsAccepted(events[..|events| - 1], hash);
      NextIsSound(Run(events[..|events| - 1], hash), events[|events| - 1], hash);
    }
  }

  lemma NothingIsAccepted()
    ensures Accepted([])
  {
    assert SingleChains([]);
    AcceptedMeansSingleChains([]);
  }

  /**
    A head compared against one log and stored into a later one is still the head: whatever others stored
    in between, the new record becomes its finding's result and no other result changes.
   */
  lemma StoreLands(events: seq<Event>, lock: Lock, hash: Body -> string, heads: map<Target, Record>, later: map<Target, Record>)
    requires Injective(hash) && lock in Run(events, hash).writing
    requires Heads(Run(events, hash).log, heads) && Heads(Next(Run(events, hash), Store(lock), hash).log, later)
    ensures var w := Run(events, hash);
            later == heads[w.writing[lock].body.target := w.writing[lock]]
  {
    var w := Run(events, hash);
    EveryInterleavingIsAccepted(events, hash);
    var created := w.writing[lock];
    assert Ready(w.log, lock, created, hash);
    CreatedIsNew(w.log, hash, created.body);
    AppendKeepsAccepted(w.log, created);
  }

  /** While a finding's lock is held nobody else begins on it. */
  lemma HeldLockKeepsOut(w: Writers, body: Body, hash: Body -> string)
    requires LockOf(body.target) in w.writing
    ensures Next(w, Begin(body), hash) == w
  {
  }

  /** Two writers on different findings, both between reading and storing at once, both land, in either order. */
  lemma BothWritersLand(a: Body, b: Body, hash: Body -> string)
    requires a.supersedes == None && b.supersedes == None && LockOf(a.target) != LockOf(b.target)
    ensures var both := [Begin(a), Begin(b)];
            && Run(both + [Store(LockOf(a.target)), Store(LockOf(b.target))], hash).log == [Record(hash(a), a), Record(hash(b), b)]
            && Run(both + [Store(LockOf(b.target)), Store(LockOf(a.target))], hash).log == [Record(hash(b), b), Record(hash(a), a)]
  {
    var began := BothBegin(a, b, hash);
    RunOneMore([Begin(a), Begin(b)], Store(LockOf(a.target)), hash);
    RunOneMore([Begin(a), Begin(b)] + [Store(LockOf(a.target))], Store(LockOf(b.target)), hash);
    RunOneMore([Begin(a), Begin(b)], Store(LockOf(b.target)), hash);
    RunOneMore([Begin(a), Begin(b)] + [Store(LockOf(b.target))], Store(LockOf(a.target)), hash);
    hide Run;
    var x, y := Store(LockOf(a.target)), Store(LockOf(b.target));
    assert [Begin(a), Begin(b)] + [x, y] == [Begin(a), Begin(b)] + [x] + [y];
    assert [Begin(a), Begin(b)] + [y, x] == [Begin(a), Begin(b)] + [y] + [x];
  }

  lemma BothBegin(a: Body, b: Body, hash: Body -> string) returns (w: Writers)
    requires a.supersedes == None && b.supersedes == None && LockOf(a.target) != LockOf(b.target)
    ensures w == Run([Begin(a), Begin(b)], hash)
    ensures w == Writers([], map[LockOf(a.target) := Record(hash(a), a), LockOf(b.target) := Record(hash(b), b)])
  {
    RunOneMore([], Begin(a), hash);
    RunOneMore([Begin(a)], Begin(b), hash);
    assert [] + [Begin(a)] == [Begin(a)] && [Begin(a)] + [Begin(b)] == [Begin(a), Begin(b)];
    NothingIsCurrent(a.target);
    NothingIsCurrent(b.target);
    hide IsCurrent;
    w := Run([Begin(a), Begin(b)], hash);
  }

  lemma NothingIsCurrent(t: Target)
    ensures IsCurrent([], t, None)
  {
  }

  lemma RunOneMore(events: seq<Event>, e: Event, hash: Body -> string)
    ensures Run(events + [e], hash) == Next(Run(events, hash), e, hash)
  {
    hide Next;
    assert (events + [e])[..|events|] == events;
  }

  /** The service over one cohort; other writers hold the other locks. */
  class ExamplePackService {
    const hash: Body -> string
    const packs: seq<Pack>
    var log: seq<Record>
    var writing: map<Lock, Record>

    ghost function Model(): Writers
      reads this
    {
      Writers(log, writing)
    }

    ghost predicate Valid()
      reads this
    {
      Injective(hash) && Sound(Model(), hash)
    }

    constructor (hash: Body -> string, packs: seq<Pack>)
      requires Injective(hash)
      ensures Valid() && Model() == Writers([], map[]) && this.hash == hash && this.packs == packs
    {
      this.hash, this.packs, log, writing := hash, packs, [], map[];
      new;
      NothingIsAccepted();
    }

    method CurrentHead(target: Target, ghost expected: Option<string>) returns (current: Option<string>)
      requires Valid()
      ensures IsCurrent(log, target, expected) <==> expected == current
    {
      hide Accepted, IsCurrent, WellHashed, Injective;
      var effective := Resolve(log);
      current := if target in effective.value then Some(effective.value[target].id) else None;
      CurrentIsUnique(log, effective.value, target, expected);
    }

    /** With the finding's lock just taken: read the log, compare the head, and build the record to store. */
    method BeginWrite(packHash: string, findingId: string, disposition: Disposition, evidence: seq<string>,
                      verifierReceipts: seq<string>, expected: Option<string>, adjudicator: string, now: int)
      returns (r: Result<Record, WriteError>)
      requires Valid() && Lock(packHash, findingId) !in writing
      modifies this`writing
      ensures Valid()
      ensures r.Err? ==> writing == old(writing) && !r.error.Unresolvable?
      ensures r == Err(Unsupported) <==> disposition != Unknown && evidence == [] && verifierReceipts == []
      ensures r == Err(UnknownPack) <==> r != Err(Unsupported) && PackFor(packs, packHash).None?
      ensures r == Err(UnknownFinding) <==> r != Err(Unsupported) && PackFor(packs, packHash).Some?
                                            && findingId !in PackFor(packs, packHash).value.findings
      ensures r.Ok? || r == Err(StaleHead) ==>
                && PackFor(packs, packHash).Some? && findingId in PackFor(packs, packHash).value.findings
                && (r.Ok? <==> IsCurrent(log, Target(packHash, PackFor(packs, packHash).value.runId, findingId), expected))
      ensures r.Ok? ==> Model() == Next(old(Model()), Begin(r.value.body), hash) && Lock(packHash, findingId) in writing
                        && writing[Lock(packHash, findingId)] == r.value
      ensures r.Ok? ==> r.value.id == hash(r.value.body)
                        && r.value.body == Body(Target(packHash, PackFor(packs, packHash).value.runId, findingId), disposition,
                                                evidence, verifierReceipts, adjudicator, now, expected)
    {
      if disposition != Unknown && evidence == [] && verifierReceipts == [] {
        return Err(Unsupported);
      }
      var pack := PackFor(packs, packHash);
      if pack.None? {
        return Err(UnknownPack);
      }
      if findingId !in pack.value.findings {
        return Err(UnknownFinding);
      }
      hide IsCurrent, Injective, Sound, PackFor;
      var target := Target(packHash, pack.value.runId, findingId);
      var currentId := CurrentHead(target, expected);
      if expected != currentId {
        return Err(StaleHead);
      }
      var body := Body(target, disposition, evidence, verifierReceipts, adjudicator, now, currentId);
      NextIsSound(Model(), Begin(body), hash);
      var created := Record(hash(body), body);
      writing := writing[Lock(packHash, findingId) := created];
      return Ok(created);
    }

    /** Append the record and let the lock go, whatever others have stored meanwhile. */
    method StoreWrite(lock: Lock) returns (created: Record)
      requires Valid() && lock in writing
      modifies this
      ensures Valid() && Model() == Next(old(Model()), Store(lock), hash)
      ensures created == old(writing)[lock] && log == old(log) + [created] && Live(log, created)
    {
      hide Accepted, WellHashed, Injective;
      NextIsSound(Model(), Store(lock), hash);
      created := writing[lock];
      ReadyHasItsLock(log, lock, created, hash);
      StoreIsSound(log, created, hash);
      log, writing := log + [created], writing - {lock};
    }

    /** A call nobody else interleaves with: append one live record, or change nothing. */
    method Adjudicate(packHash: string, findingId: string, disposition: Disposition, evidence: seq<string>,
                      verifierReceipts: seq<string>, expected: Option<string>, adjudicator: string, now: int)
      returns (r: Result<Record, WriteError>)
      requires Valid() && Lock(packHash, findingId) !in writing
      modifies this
      ensures Valid() && writing == old(writing)
      ensures r.Err? ==> log == old(log) && !r.error.Unresolvable?
      ensures r == Err(Unsupported) <==> disposition != Unknown && evidence == [] && verifierReceipts == []
      ensures r == Err(UnknownPack) <==> r != Err(Unsupported) && PackFor(packs, packHash).None?
      ensures r == Err(UnknownFinding) <==> r != Err(Unsupported) && PackFor(packs, packHash).Some?
                                            && findingId !in PackFor(packs, packHash).value.findings
      ensures r.Ok? || r == Err(StaleHead) ==> PackFor(packs, packHash).Some? && findingId in PackFor(packs, packHash).value.findings
      ensures r.Ok? || r == Err(StaleHead) ==>
                (r.Ok? <==> IsCurrent(old(log), Target(packHash, PackFor(packs, packHash).value.runId, findingId), expected))
      ensures r.Ok? ==> log == old(log) + [r.value] && Live(log, r.value) && r.value.body.supersedes == expected
      ensures r.Ok? ==> r.value.id == hash(r.value.body)
                        && r.value.body == Body(Target(packHash, PackFor(packs, packHash).value.runId, findingId), disposition,
                                                evidence, verifierReceipts, adjudicator, now, expected)
    {
      hide Accepted, WellHashed, Injective, IsCurrent;
      r := BeginWrite(packHash, findingId, disposition, evidence, verifierReceipts, expected, adjudicator, now);
      if r.Ok? {
        var created := StoreWrite(Lock(packHash, findingId));
        assert writing == old(writing);
      }
    }
  }

  lemma CurrentIsUnique(log: seq<Record>, heads: map<Target, Record>, t: Target, current: Option<string>)
    requires Accepted(log) && Heads(log, heads)
    ensures IsCurrent(log, t, current) <==> current == if t in heads then Some(heads[t].id) else None
  {
    AcceptedMeansSingleChains(log);
    HeadsAreChainEnds(log, heads, t);
    assert t in heads ==> Live(log, heads[t]);
  }

  /**
    Compare-and-append: once a write that named a head has landed, no later write
    can name that same head, so two writers who saw one head never both succeed.
   */
  lemma NamedHeadNeverReturns(before: seq<Record>, later: seq<Record>, created: Record)
    requires Accepted(before) && Accepted(later)
    requires IsCurrent(before, created.body.target, created.body.supersedes)
    requires before + [created] <= later
    ensures !IsCurrent(later, created.body.target, created.body.supersedes)
  {
    assert created in before + [created];
    assert created in later;
    assert Mentions(later, created.body.target);
  }
}
