/** The finding diff between two reads of one pull request (api/doug/convergence.py). */
module Convergence {
  // Who matches whom, what the hunk evidence licenses, and what the counts add up to.

  import opened Common

  /** `pattern` is the canonical pattern of a reader finding; `attribution` is empty when there is none. */
  datatype Finding = Finding(pattern: Option<string>, file: Option<string>, attribution: seq<string>)

  type Index = map<string, seq<string>>

  datatype Read = Read(hunks: Option<Index>, unseen: seq<string>, dropped: seq<string>, cut: Option<string>)

  datatype Identity = Identity(pattern: string, file: string)

  datatype Side = Prior | Later

  datatype Reason =
    | IdentityIncomplete | FileUncovered | Settled
    | NoHunkIndex | LeftDiff | NotReconfirmed | EditedNotVerified

  datatype State = Persisted | Resolved | New | Unknown(reason: Reason) | Excluded | Matched

  datatype Basis = ByConstruction | AttributedSurviving

  datatype Delta = Unchanged | ChangedElsewhere

  datatype Classification = Classification(
    side: Side,
    finding: Finding,
    state: State,
    basis: Option<Basis>,
    delta: Option<Delta>,
    codeChanged: Option<bool>)

  function Plain(side: Side, row: Finding, state: State): Classification {
    Classification(side, row, state, None, None, None)
  }

  function IdentityOf(row: Finding): Option<Identity> {
    if row.pattern.Some? && row.file.Some? then Some(Identity(row.pattern.value, row.file.value)) else None
  }

  function Unmatchable(side: Side, row: Finding): Classification {
    Plain(side, row, if row.pattern.None? then Excluded else Unknown(IdentityIncomplete))
  }

  // ---------------------------------------------------------------- evidence

  function IndexOf(read: Option<Read>): Option<Index> {
    if read.None? then None else read.value.hunks
  }

  function HunksOf(index: Index, file: string): multiset<string> {
    if file in index then multiset(index[file]) else multiset{}
  }

  function CodeChanged(file: string, prior: Option<Read>, later: Option<Read>): Option<bool> {
    if IndexOf(prior).None? || IndexOf(later).None? then None
    else Some(HunksOf(IndexOf(prior).value, file) != HunksOf(IndexOf(later).value, file))
  }

  predicate Uncovered(file: string, later: Option<Read>) {
    later.None? || file in later.value.unseen || file in later.value.dropped || later.value.cut == Some(file)
  }

  /** Whether an absence proves nothing; `settled` is what the later verdict itself disproved. */
  function Abstention(id: Identity, settled: set<Identity>, later: Option<Read>): Option<Reason> {
    if Uncovered(id.file, later) then Some(FileUncovered)
    else if id in settled then Some(Settled)
    else None
  }

  /** _rule5. */
  function RuleFive(row: Finding, file: string, prior: Option<Read>, later: Option<Read>): Classification {
    if IndexOf(prior).None? || IndexOf(later).None? then Plain(Prior, row, Unknown(NoHunkIndex))
    else
      var p, l := IndexOf(prior).value, IndexOf(later).value;
      if file !in p then Plain(Prior, row, Unknown(FileUncovered))
      else
        var before, after := multiset(p[file]), HunksOf(l, file);
        if before == after then
          Plain(Prior, row, Persisted).(basis := Some(ByConstruction), delta := Some(if p == l then Unchanged else ChangedElsewhere))
        else if |before * after| == 0 then
          Plain(Prior, row, Unknown(if |after| > 0 then EditedNotVerified else LeftDiff))
        else Attributed(row, before, after)
  }

  function Attributed(row: Finding, before: multiset<string>, after: multiset<string>): Classification {
    var own := multiset(row.attribution);
    if row.attribution != [] && |own - before| == 0 then
      if |own - after| == 0 then Plain(Prior, row, Persisted).(basis := Some(AttributedSurviving))
      else if |own * after| == 0 then Plain(Prior, row, Unknown(EditedNotVerified))
      else Plain(Prior, row, Unknown(NotReconfirmed))
    else Plain(Prior, row, Unknown(NotReconfirmed))
  }

  // -------------------------------------------- what each row's entry must be

  function Occurrences(rows: seq<Finding>, id: Identity): nat {
    if rows == [] then 0
    else Occurrences(rows[..|rows| - 1], id) + if IdentityOf(rows[|rows| - 1]) == Some(id) then 1 else 0
  }

  /** Row `i` is among the first of its identity that the other side can pair up. */
  predicate Paired(rows: seq<Finding>, others: seq<Finding>, i: nat)
    requires i < |rows|
  {
    var id := IdentityOf(rows[i]);
    id.Some? && Occurrences(rows[..i], id.value) < Occurrences(others, id.value)
  }

  datatype Inputs = Inputs(
    prior: seq<Finding>,
    later: seq<Finding>,
    settled: set<Identity>,
    laterRead: Option<Read>,
    priorRead: Option<Read>)

  /** Prior row `i`, by its place among its like and the evidence alone. */
  function PriorEntry(x: Inputs, i: nat): Classification
    requires i < |x.prior|
  {
    var row, id := x.prior[i], IdentityOf(x.prior[i]);
    if id.None? then Unmatchable(Prior, row)
    else if Paired(x.prior, x.later, i) then Plain(Prior, row, Persisted)
    else Absent(x, row, id.value)
  }

  function Absent(x: Inputs, row: Finding, id: Identity): Classification {
    match Abstention(id, x.settled, x.laterRead)
    case Some(reason) => Plain(Prior, row, Unknown(reason))
    case None => RuleFive(row, id.file, x.priorRead, x.laterRead)
  }

  function LaterEntry(x: Inputs, j: nat): Classification
    requires j < |x.later|
  {
    var row, id := x.later[j], IdentityOf(x.later[j]);
    if id.None? then Unmatchable(Later, row)
    else if Paired(x.later, x.prior, j) then Plain(Later, row, Matched)
    else Plain(Later, row, New).(codeChanged := CodeChanged(id.value.file, x.priorRead, x.laterRead))
  }

  function PriorEntries(x: Inputs, n: nat): (r: seq<Classification>)
    requires n <= |x.prior|
    ensures |r| == n && forall i :: 0 <= i < n ==> r[i] == PriorEntry(x, i)
  {
    seq(n, i requires 0 <= i < n => PriorEntry(x, i))
  }

  function LaterEntries(x: Inputs, n: nat): (r: seq<Classification>)
    requires n <= |x.later|
    ensures |r| == n && forall j :: 0 <= j < n ==> r[j] == LaterEntry(x, j)
  {
    seq(n, j requires 0 <= j < n => LaterEntry(x, j))
  }

  /** One entry per row, the prior side first, each side in order. */
  function Entries(x: Inputs): seq<Classification> {
    PriorEntries(x, |x.prior|) + LaterEntries(x, |x.later|)
  }

  // -------------------------------------------------------- classify itself

  type Budget = map<Identity, nat>

  function Left(budget: Budget, id: Identity): nat {
    if id in budget then budget[id] else 0
  }

  method IdentityCounts(rows: seq<Finding>) returns (counts: Budget)
    ensures forall id :: Left(counts, id) == Occurrences(rows, id)
  {
    counts := map[];
    for i := 0 to |rows|
      invariant forall id :: Left(counts, id) == Occurrences(rows[..i], id)
    {
      assert rows[..i + 1][..i] == rows[..i];
      var id := IdentityOf(rows[i]);
      if id.Some? {
        counts := counts[id.value := Left(counts, id.value) + 1];
      }
    }
    assert rows[..|rows|] == rows;
  }

  function Min(a: nat, b: nat): nat { if a < b then a else b }

  function Pairs(own: Budget, others: Budget): (r: Budget)
    ensures forall id :: Left(r, id) == Min(Left(own, id), Left(others, id))
  {
    map id | id in own :: Min(own[id], Left(others, id))
  }

  /** What is left of each identity's pairs once the first `i` rows have taken theirs. */
  ghost predicate Spent(budget: Budget, rows: seq<Finding>, others: seq<Finding>, i: nat)
    requires i <= |rows|
  {
    forall id :: Left(budget, id) == LeftAfter(rows, others, i, id)
  }

  ghost function LeftAfter(rows: seq<Finding>, others: seq<Finding>, i: nat, id: Identity): nat
    requires i <= |rows|
  {
    var all, used := Min(Occurrences(rows, id), Occurrences(others, id)), Occurrences(rows[..i], id);
    if used < all then all - used else 0
  }

  lemma OccurrencesStep(rows: seq<Finding>, i: nat, id: Identity)
    requires i < |rows|
    ensures Occurrences(rows[..i + 1], id) == Occurrences(rows[..i], id) + if IdentityOf(rows[i]) == Some(id) then 1 else 0
  {
    assert rows[..i + 1][..i] == rows[..i];
  }

  lemma {:induction false} OccurrencesGrow(rows: seq<Finding>, i: nat, id: Identity)
    requires i <= |rows|
    ensures Occurrences(rows[..i], id) <= Occurrences(rows, id)
    decreases |rows| - i
  {
    if i < |rows| {
      OccurrencesStep(rows, i, id);
      OccurrencesGrow(rows, i + 1, id);
    } else {
      assert rows[..i] == rows;
    }
  }

  function Spend(budget: Budget, id: Identity): (r: Budget)
    requires Left(budget, id) > 0
    ensures forall other :: Left(r, other) == if other == id then Left(budget, id) - 1 else Left(budget, other)
  {
    budget[id := Left(budget, id) - 1]
  }

  /** The budget answers exactly whether this row is among the paired ones, and spending one keeps it so. */
  lemma SpendOne(budget: Budget, rows: seq<Finding>, others: seq<Finding>, i: nat)
    requires i < |rows| && Spent(budget, rows, others, i)
    ensures var id := IdentityOf(rows[i]);
            && (id.None? ==> Spent(budget, rows, others, i + 1))
            && (id.Some? ==> (Left(budget, id.value) > 0 <==> Paired(rows, others, i)))
            && (id.Some? && Left(budget, id.value) > 0 ==>
                  Spent(Spend(budget, id.value), rows, others, i + 1))
            && (id.Some? && Left(budget, id.value) == 0 ==> Spent(budget, rows, others, i + 1))
  {
    hide Occurrences, Left;
    forall other
      ensures var before, after := LeftAfter(rows, others, i, other), LeftAfter(rows, others, i + 1, other);
              Left(budget, other) == before && after == if before > 0 && IdentityOf(rows[i]) == Some(other) then before - 1 else before
    {
      OccurrencesStep(rows, i, other);
    }
    if IdentityOf(rows[i]).Some? {
      OccurrencesStep(rows, i, IdentityOf(rows[i]).value);
      OccurrencesGrow(rows, i + 1, IdentityOf(rows[i]).value);
    }
  }

  method ClassifyPrior(x: Inputs, pairs: Budget) returns (entries: seq<Classification>)
    requires Spent(pairs, x.prior, x.later, 0)
    ensures entries == PriorEntries(x, |x.prior|)
  {
    hide Spent, Paired, IdentityOf, Absent, Unmatchable, Left;
    var persisting := pairs;
    entries := [];
    for i := 0 to |x.prior|
      invariant entries == PriorEntries(x, i)
      invariant Spent(persisting, x.prior, x.later, i)
    {
      var row, id := x.prior[i], IdentityOf(x.prior[i]);
      SpendOne(persisting, x.prior, x.later, i);
      if id.None? {
        entries := entries + [Unmatchable(Prior, row)];
      } else if Left(persisting, id.value) > 0 {
        persisting := Spend(persisting, id.value);
        entries := entries + [Plain(Prior, row, Persisted)];
      } else {
        entries := entries + [Absent(x, row, id.value)];
      }
    }
  }

  method ClassifyLater(x: Inputs, pairs: Budget) returns (entries: seq<Classification>)
    requires Spent(pairs, x.later, x.prior, 0)
    ensures entries == LaterEntries(x, |x.later|)
  {
    hide Spent, Paired, IdentityOf, CodeChanged, Unmatchable, Left;
    var matching := pairs;
    entries := [];
    for j := 0 to |x.later|
      invariant entries == LaterEntries(x, j)
      invariant Spent(matching, x.later, x.prior, j)
    {
      var row, id := x.later[j], IdentityOf(x.later[j]);
      SpendOne(matching, x.later, x.prior, j);
      if id.None? {
        entries := entries + [Unmatchable(Later, row)];
      } else if Left(matching, id.value) > 0 {
        matching := Spend(matching, id.value);
        entries := entries + [Plain(Later, row, Matched)];
      } else {
        var changed := CodeChanged(id.value.file, x.priorRead, x.laterRead);
        entries := entries + [Plain(Later, row, New).(codeChanged := changed)];
      }
    }
  }

  method Classify(x: Inputs) returns (entries: seq<Classification>)
    ensures entries == Entries(x)
  {
    var priorCounts := IdentityCounts(x.prior);
    var laterCounts := IdentityCounts(x.later);
    var prior := ClassifyPrior(x, Pairs(priorCounts, laterCounts));
    var later := ClassifyLater(x, Pairs(laterCounts, priorCounts));
    return prior + later;
  }

  // ------------------------------------------------------------- conservation

  /** How many of the first `n` rows are of this identity and paired up. */
  ghost function PairedCount(rows: seq<Finding>, others: seq<Finding>, id: Identity, n: nat): nat
    requires n <= |rows|
  {
    if n == 0 then 0
    else
      PairedCount(rows, others, id, n - 1)
      + if IdentityOf(rows[n - 1]) == Some(id) && Paired(rows, others, n - 1) then 1 else 0
  }

  lemma {:induction false} PairedCountIsMin(rows: seq<Finding>, others: seq<Finding>, id: Identity, n: nat)
    requires n <= |rows|
    ensures PairedCount(rows, others, id, n) == Min(Occurrences(rows[..n], id), Occurrences(others, id))
  {
    if n > 0 {
      PairedCountIsMin(rows, others, id, n - 1);
      OccurrencesStep(rows, n - 1, id);
    }
  }

  /** How many entries are of this identity, on this side, in this state. */
  ghost function EntryCount(entries: seq<Classification>, side: Side, id: Identity, state: State): nat {
    if entries == [] then 0
    else
      EntryCount(entries[..|entries| - 1], side, id, state)
      + if IsEntry(entries[|entries| - 1], side, id, state) then 1 else 0
  }

  /** Re-reported rows persist without a basis; rule 5's persist with one. */
  ghost predicate IsEntry(e: Classification, side: Side, id: Identity, state: State) {
    e.side == side && IdentityOf(e.finding) == Some(id) && e.state == state && e.basis == None
  }

  lemma {:induction false} EntryCountAppend(a: seq<Classification>, b: seq<Classification>, side: Side, id: Identity, state: State)
    ensures EntryCount(a + b, side, id, state) == EntryCount(a, side, id, state) + EntryCount(b, side, id, state)
  {
    if b == [] {
      assert a + b == a;
    } else {
      EntryCountAppend(a, b[..|b| - 1], side, id, state);
      assert (a + b)[..|a + b| - 1] == a + b[..|b| - 1];
    }
  }

  lemma MultisetDifferenceIsEmpty(a: multiset<string>, b: multiset<string>)
    ensures |a - b| == 0 <==> a <= b
  {
    if |a - b| == 0 {
      assert a - b == multiset{};
      forall s ensures a[s] <= b[s] {
        assert (a - b)[s] == 0;
      }
    }
    if a <= b {
      assert a - b == multiset{};
    }
  }

  lemma AttributedShape(row: Finding, before: multiset<string>, after: multiset<string>)
    ensures var e := Attributed(row, before, after);
            && e.side == Prior && e.finding == row && e.codeChanged == None && e.delta == None
            && (e.state.Unknown? || (e.state.Persisted? && e.basis.Some?))
            && (e.basis == Some(AttributedSurviving) <==>
                  row.attribution != [] && multiset(row.attribution) <= before && multiset(row.attribution) <= after)
            && (e.basis.Some? ==> e.basis == Some(AttributedSurviving) && e.state == Persisted)
  {
    var own := multiset(row.attribution);
    MultisetDifferenceIsEmpty(own, before);
    MultisetDifferenceIsEmpty(own, after);
  }

  /** Rule five abstains, or persists and says on what basis. */
  lemma RuleFiveShape(row: Finding, file: string, prior: Option<Read>, later: Option<Read>)
    ensures var e := RuleFive(row, file, prior, later);
            && e.side == Prior && e.finding == row && e.codeChanged == None
            && (e.state.Unknown? || (e.state.Persisted? && e.basis.Some?))
            && (e.delta == Some(Unchanged) ==> IndexOf(prior).Some? && IndexOf(prior) == IndexOf(later))
  {
    hide HunksOf, Attributed;
    if IndexOf(prior).Some? && IndexOf(later).Some? && file in IndexOf(prior).value {
      AttributedShape(row, multiset(IndexOf(prior).value[file]), HunksOf(IndexOf(later).value, file));
    }
  }

  lemma PriorStates(x: Inputs, i: nat, id: Identity)
    requires i < |x.prior|
    ensures IsEntry(PriorEntry(x, i), Prior, id, Persisted) <==> IdentityOf(x.prior[i]) == Some(id) && Paired(x.prior, x.later, i)
    ensures PriorEntry(x, i).side == Prior && PriorEntry(x, i).finding == x.prior[i] && PriorEntry(x, i).state !in {New, Matched, Resolved}
  {
    hide Paired, RuleFive, Abstention;
    if IdentityOf(x.prior[i]).Some? {
      RuleFiveShape(x.prior[i], IdentityOf(x.prior[i]).value.file, x.priorRead, x.laterRead);
    }
  }

  lemma LaterStates(x: Inputs, j: nat, id: Identity)
    requires j < |x.later|
    ensures IsEntry(LaterEntry(x, j), Later, id, Matched) <==> IdentityOf(x.later[j]) == Some(id) && Paired(x.later, x.prior, j)
    ensures IsEntry(LaterEntry(x, j), Later, id, New) <==> IdentityOf(x.later[j]) == Some(id) && !Paired(x.later, x.prior, j)
    ensures LaterEntry(x, j).side == Later && LaterEntry(x, j).finding == x.later[j] && LaterEntry(x, j).state !in {Persisted, Resolved}
  {
    hide Paired;
  }

  lemma {:induction false} PriorEntryCount(x: Inputs, id: Identity, n: nat)
    requires n <= |x.prior|
    ensures EntryCount(PriorEntries(x, n), Prior, id, Persisted) == PairedCount(x.prior, x.later, id, n)
    ensures EntryCount(PriorEntries(x, n), Later, id, Matched) == 0 == EntryCount(PriorEntries(x, n), Later, id, New)
  {
    hide PriorEntry, Paired;
    if n > 0 {
      PriorEntryCount(x, id, n - 1);
      PriorStates(x, n - 1, id);
      assert PriorEntries(x, n)[..n - 1] == PriorEntries(x, n - 1);
    }
  }

  lemma {:induction false} LaterEntryCount(x: Inputs, id: Identity, n: nat)
    requires n <= |x.later|
    ensures EntryCount(LaterEntries(x, n), Later, id, Matched) == PairedCount(x.later, x.prior, id, n)
    ensures EntryCount(LaterEntries(x, n), Later, id, New)
         == Occurrences(x.later[..n], id) - PairedCount(x.later, x.prior, id, n)
    ensures EntryCount(LaterEntries(x, n), Prior, id, Persisted) == 0
  {
    hide LaterEntry, Paired;
    if n > 0 {
      LaterEntryCount(x, id, n - 1);
      LaterStates(x, n - 1, id);
      OccurrencesStep(x.later, n - 1, id);
      assert LaterEntries(x, n)[..n - 1] == LaterEntries(x, n - 1);
    }
  }

  /**
    Of one identity, the re-reported priors and the matched laters are equally many, as many as the
    smaller side has, so an unmatched prior and a new row never share an identity.
   */
  lemma PairsAreConserved(x: Inputs, id: Identity)
    ensures var p, l := Occurrences(x.prior, id), Occurrences(x.later, id);
            && EntryCount(Entries(x), Prior, id, Persisted) == Min(p, l)
            && EntryCount(Entries(x), Later, id, Matched) == Min(p, l)
            && EntryCount(Entries(x), Later, id, New) == l - Min(p, l)
            && (EntryCount(Entries(x), Later, id, New) > 0 ==> EntryCount(Entries(x), Prior, id, Persisted) == p)
  {
    hide PriorEntries, LaterEntries;
    var a, b := PriorEntries(x, |x.prior|), LaterEntries(x, |x.later|);
    EntryCountAppend(a, b, Prior, id, Persisted);
    EntryCountAppend(a, b, Later, id, Matched);
    EntryCountAppend(a, b, Later, id, New);
    PriorEntryCount(x, id, |x.prior|);
    LaterEntryCount(x, id, |x.later|);
    PairedCountIsMin(x.prior, x.later, id, |x.prior|);
    PairedCountIsMin(x.later, x.prior, id, |x.later|);
    assert x.prior[..|x.prior|] == x.prior && x.later[..|x.later|] == x.later;
  }

  // ----------------------------------------------------------------- compare

  datatype Report = Report(resolved: nat, persisted: nat, appeared: nat, unknown: map<Reason, nat>)

  function StateCount(entries: seq<Classification>, state: State): nat {
    if entries == [] then 0
    else StateCount(entries[..|entries| - 1], state) + if entries[|entries| - 1].state == state then 1 else 0
  }

  function ReasonCount(counts: map<Reason, nat>, reason: Reason): nat {
    if reason in counts then counts[reason] else 0
  }

  /** All abstentions together. */
  function UnknownTotal(counts: map<Reason, nat>): nat {
    ReasonCount(counts, IdentityIncomplete) + ReasonCount(counts, FileUncovered) + ReasonCount(counts, Settled)
    + ReasonCount(counts, NoHunkIndex) + ReasonCount(counts, LeftDiff) + ReasonCount(counts, NotReconfirmed)
    + ReasonCount(counts, EditedNotVerified)
  }

  ghost predicate Counts(counts: map<State, nat>, unknown: map<Reason, nat>, entries: seq<Classification>) {
    && (forall s :: (if s in counts then counts[s] else 0) == StateCount(entries, s))
    && (forall r :: ReasonCount(unknown, r) == StateCount(entries, Unknown(r)))
    && (forall r :: r in unknown ==> unknown[r] > 0)
  }

  lemma CountOneMore(counts: map<State, nat>, unknown: map<Reason, nat>, entries: seq<Classification>, e: Classification)
    requires Counts(counts, unknown, entries)
    ensures var s := e.state;
            var more := counts[s := (if s in counts then counts[s] else 0) + 1];
            Counts(more, if s.Unknown? then unknown[s.reason := ReasonCount(unknown, s.reason) + 1] else unknown, entries + [e])
  {
    assert (entries + [e])[..|entries|] == entries;
  }

  method Compare(x: Inputs) returns (report: Report)
    ensures report.resolved == StateCount(Entries(x), Resolved)
    ensures report.persisted == StateCount(Entries(x), Persisted)
    ensures report.appeared == StateCount(Entries(x), New)
    ensures forall r :: ReasonCount(report.unknown, r) == StateCount(Entries(x), Unknown(r))
    ensures forall r :: r in report.unknown ==> report.unknown[r] > 0
  {
    hide Entries, StateCount;
    var entries := Classify(x);
    var states: map<State, nat>, unknown: map<Reason, nat> := map[], map[];
    NothingCounted();
    for i := 0 to |entries|
      invariant Counts(states, unknown, entries[..i])
    {
      var s := entries[i].state;
      CountOneMore(states, unknown, entries[..i], entries[i]);
      assert entries[..i + 1] == entries[..i] + [entries[i]];
      states := states[s := (if s in states then states[s] else 0) + 1];
      if s.Unknown? {
        unknown := unknown[s.reason := ReasonCount(unknown, s.reason) + 1];
      }
    }
    assert entries[..|entries|] == entries;
    return Report(
        if Resolved in states then states[Resolved] else 0,
        if Persisted in states then states[Persisted] else 0,
        if New in states then states[New] else 0,
        unknown);
  }

  lemma NothingCounted()
    ensures Counts(map[], map[], [])
  {
  }

  ghost function UnknownEntries(entries: seq<Classification>): nat {
    StateCount(entries, Unknown(IdentityIncomplete)) + StateCount(entries, Unknown(FileUncovered))
    + StateCount(entries, Unknown(Settled)) + StateCount(entries, Unknown(NoHunkIndex)) + StateCount(entries, Unknown(LeftDiff))
    + StateCount(entries, Unknown(NotReconfirmed)) + StateCount(entries, Unknown(EditedNotVerified))
  }

  lemma UnknownStep(entries: seq<Classification>)
    requires entries != []
    ensures UnknownEntries(entries)
         == UnknownEntries(entries[..|entries| - 1]) + if entries[|entries| - 1].state.Unknown? then 1 else 0
  {
    if entries[|entries| - 1].state.Unknown? {
      var reason := entries[|entries| - 1].state.reason;
      assert forall r :: StateCount(entries, Unknown(r)) == StateCount(entries[..|entries| - 1], Unknown(r)) + if r == reason then 1 else 0;
    }
  }

  lemma {:induction false} StatesPartition(entries: seq<Classification>)
    ensures StateCount(entries, Persisted) + StateCount(entries, Resolved) + StateCount(entries, New)
            + UnknownEntries(entries) + StateCount(entries, Excluded) + StateCount(entries, Matched) == |entries|
  {
    if entries != [] {
      hide UnknownEntries;
      UnknownStep(entries);
      StatesPartition(entries[..|entries| - 1]);
    }
  }

  lemma {:induction false} NothingIsResolved(entries: seq<Classification>)
    requires forall k :: 0 <= k < |entries| ==> entries[k].state != Resolved
    ensures StateCount(entries, Resolved) == 0
  {
    if entries != [] {
      NothingIsResolved(entries[..|entries| - 1]);
    }
  }

  /** The report accounts for every row not excluded or merely matched, and never claims a fix. */
  lemma ReportAddsUp(x: Inputs, report: Report)
    requires report.resolved == StateCount(Entries(x), Resolved)
    requires report.persisted == StateCount(Entries(x), Persisted)
    requires report.appeared == StateCount(Entries(x), New)
    requires forall r :: ReasonCount(report.unknown, r) == StateCount(Entries(x), Unknown(r))
    ensures report.resolved == 0
    ensures report.persisted + report.appeared + UnknownTotal(report.unknown)
            + StateCount(Entries(x), Excluded) + StateCount(Entries(x), Matched) == |x.prior| + |x.later|
  {
    hide StateCount, PriorEntry, LaterEntry;
    var entries := Entries(x);
    forall k | 0 <= k < |entries| ensures entries[k].state != Resolved {
      if k < |x.prior| {
        PriorStates(x, k, Identity("", ""));
      } else {
        LaterStates(x, k - |x.prior|, Identity("", ""));
      }
    }
    NothingIsResolved(entries);
    StatesPartition(entries);
  }

  // ------------------------------------------------------- what evidence means

  /** A row's identity is its pattern and its file, in these roles; a row that lacks one has none. */
  lemma IdentityIsPatternAndFile(row: Finding, pattern: string, file: string)
    ensures IdentityOf(row) == Some(Identity(pattern, file)) <==> row.pattern == Some(pattern) && row.file == Some(file)
    ensures IdentityOf(row).None? <==> row.pattern.None? || row.file.None?
  {
  }

  /** No row re-reports this one, nothing hides its file from the later read, and nothing disproved it. */
  ghost predicate IsOpen(x: Inputs, i: nat)
    requires i < |x.prior|
  {
    var row := x.prior[i];
    && row.pattern.Some? && row.file.Some? && !Paired(x.prior, x.later, i)
    && x.laterRead.Some? && row.file.value !in x.laterRead.value.unseen && row.file.value !in x.laterRead.value.dropped
    && x.laterRead.value.cut != row.file && Identity(row.pattern.value, row.file.value) !in x.settled
  }

  /** Both reads stored an index, and the earlier one holds the row's file. */
  ghost predicate IsComparable(x: Inputs, i: nat)
    requires i < |x.prior|
  {
    && IsOpen(x, i) && x.priorRead.Some? && x.priorRead.value.hunks.Some? && x.laterRead.value.hunks.Some?
    && x.prior[i].file.value in x.priorRead.value.hunks.value
  }

  ghost function Before(x: Inputs, i: nat): multiset<string>
    requires i < |x.prior| && IsComparable(x, i)
  {
    multiset(x.priorRead.value.hunks.value[x.prior[i].file.value])
  }

  ghost function After(x: Inputs, i: nat): multiset<string>
    requires i < |x.prior| && IsComparable(x, i)
  {
    var index, file := x.laterRead.value.hunks.value, x.prior[i].file.value;
    if file in index then multiset(index[file]) else multiset{}
  }

  lemma ComparableEntry(x: Inputs, i: nat)
    requires i < |x.prior| && IsComparable(x, i)
    ensures var before, after := Before(x, i), After(x, i);
            PriorEntry(x, i)
            == if before == after then
                 Plain(Prior, x.prior[i], Persisted)
                   .(basis := Some(ByConstruction),
                     delta := Some(if x.priorRead.value.hunks == x.laterRead.value.hunks then Unchanged else ChangedElsewhere))
               else if |before * after| == 0 then
                 Plain(Prior, x.prior[i], Unknown(if |after| > 0 then EditedNotVerified else LeftDiff))
               else Attributed(x.prior[i], before, after)
  {
    hide Paired, Attributed;
  }

  lemma OtherEntry(x: Inputs, i: nat)
    requires i < |x.prior| && !IsComparable(x, i)
    ensures var e := PriorEntry(x, i);
            && e.basis == None && e.delta == None
            && e.state !in {Unknown(LeftDiff), Unknown(EditedNotVerified), Unknown(NotReconfirmed)}
            && (IsOpen(x, i) ==>
                  e.state == if x.priorRead.None? || x.priorRead.value.hunks.None? || x.laterRead.value.hunks.None?
                             then Unknown(NoHunkIndex) else Unknown(FileUncovered))
  {
    hide Paired, Attributed, HunksOf;
  }

  /**
    Carried by construction exactly when the row is open and its file has equal hunks in both reads; then the
    entry also says whether anything at all changed between the reads.
   */
  lemma ByConstructionMeansEqualHunks(x: Inputs, i: nat)
    requires i < |x.prior|
    ensures PriorEntry(x, i).basis == Some(ByConstruction) <==> IsComparable(x, i) && Before(x, i) == After(x, i)
    ensures PriorEntry(x, i).delta.Some? <==> PriorEntry(x, i).basis == Some(ByConstruction)
    ensures PriorEntry(x, i).delta.Some? ==>
              (PriorEntry(x, i).delta == Some(Unchanged) <==> x.priorRead.value.hunks == x.laterRead.value.hunks)
    ensures PriorEntry(x, i).basis == Some(ByConstruction) ==> PriorEntry(x, i).state == Persisted
  {
    hide Paired, PriorEntry, Attributed;
    if IsComparable(x, i) {
      ComparableEntry(x, i);
      AttributedShape(x.prior[i], Before(x, i), After(x, i));
      hide Before, After;
    } else {
      OtherEntry(x, i);
    }
  }

  lemma CommonPart(own: seq<string>, before: multiset<string>, after: multiset<string>)
    ensures own != [] && multiset(own) <= before && multiset(own) <= after ==> |before * after| > 0
  {
    if own != [] && multiset(own) <= before && multiset(own) <= after {
      assert own[0] in multiset(own);
      assert own[0] in before * after;
    }
  }

  /** Carried by attribution exactly when every attributed hunk stands in both reads of a file that did change. */
  lemma AttributedMeansBothHoldIt(x: Inputs, i: nat)
    requires i < |x.prior|
    ensures PriorEntry(x, i).basis == Some(AttributedSurviving) <==>
              && IsComparable(x, i) && x.prior[i].attribution != [] && Before(x, i) != After(x, i)
              && multiset(x.prior[i].attribution) <= Before(x, i) && multiset(x.prior[i].attribution) <= After(x, i)
    ensures PriorEntry(x, i).basis == Some(AttributedSurviving) ==> PriorEntry(x, i).state == Persisted
  {
    hide Paired, PriorEntry, Attributed;
    if IsComparable(x, i) {
      ComparableEntry(x, i);
      AttributedShape(x.prior[i], Before(x, i), After(x, i));
      CommonPart(x.prior[i].attribution, Before(x, i), After(x, i));
      hide Before, After;
    } else {
      OtherEntry(x, i);
    }
  }

  /** Each abstention on a row no row re-reports, by exactly what the two reads hold. */
  lemma AbstentionsMean(x: Inputs, i: nat)
    requires i < |x.prior| && x.prior[i].pattern.Some? && x.prior[i].file.Some? && !Paired(x.prior, x.later, i)
    ensures var row, state := x.prior[i], PriorEntry(x, i).state;
            var hidden := x.laterRead.None? || row.file.value in x.laterRead.value.unseen
                          || row.file.value in x.laterRead.value.dropped || x.laterRead.value.cut == row.file;
            && (state == Unknown(Settled) <==> !hidden && Identity(row.pattern.value, row.file.value) in x.settled)
            && (state == Unknown(NoHunkIndex) <==>
                  IsOpen(x, i) && (x.priorRead.None? || x.priorRead.value.hunks.None? || x.laterRead.value.hunks.None?))
            && (state == Unknown(FileUncovered) <==>
                  || hidden
                  || (IsOpen(x, i) && x.priorRead.Some? && x.priorRead.value.hunks.Some? && x.laterRead.value.hunks.Some? && !IsComparable(x, i)))
            && state != Unknown(IdentityIncomplete)
  {
    hide Paired, HunksOf, Attributed, RuleFive;
    if IsComparable(x, i) {
      ComparableEntry(x, i);
      AttributedStates(x.prior[i], Before(x, i), After(x, i));
      hide PriorEntry, Before, After;
    } else {
      OtherEntry(x, i);
    }
  }

  lemma AttributedStates(row: Finding, before: multiset<string>, after: multiset<string>)
    ensures Attributed(row, before, after).state in {Persisted, Unknown(EditedNotVerified), Unknown(NotReconfirmed)}
  {
  }

  /** Of comparable reads whose hunks differ: what of the row's own evidence is left decides the verdict. */
  lemma ChangedFileMeans(x: Inputs, i: nat)
    requires i < |x.prior| && IsComparable(x, i) && Before(x, i) != After(x, i)
    ensures var state, own := PriorEntry(x, i).state, multiset(x.prior[i].attribution);
            var before, after := Before(x, i), After(x, i);
            var traced := x.prior[i].attribution != [] && own <= before;
            && (state == Unknown(LeftDiff) <==> after == multiset{})
            && (state == Unknown(EditedNotVerified) <==> after != multiset{} && (before !! after || (traced && own !! after)))
            && (state == Persisted <==> !(before !! after) && traced && own <= after)
            && (state == Unknown(NotReconfirmed) <==> !(before !! after) && !(traced && (own <= after || own !! after)))
  {
    hide Paired, PriorEntry, Attributed;
    var row, before, after := x.prior[i], Before(x, i), After(x, i);
    ComparableEntry(x, i);
    hide Before, After, IsComparable;
    NothingShared(before, after);
    AttributedMeans(row, before, after);
    CommonPart(row.attribution, before, after);
  }

  lemma AttributedMeans(row: Finding, before: multiset<string>, after: multiset<string>)
    ensures var own := multiset(row.attribution);
            var traced := row.attribution != [] && own <= before;
            Attributed(row, before, after).state
            == if traced && own <= after then Persisted
               else if traced && own !! after then Unknown(EditedNotVerified)
               else Unknown(NotReconfirmed)
  {
    var own := multiset(row.attribution);
    MultisetDifferenceIsEmpty(own, before);
    MultisetDifferenceIsEmpty(own, after);
    NothingShared(own, after);
  }

  lemma NothingShared(a: multiset<string>, b: multiset<string>)
    ensures |a * b| == 0 <==> a !! b
    ensures |b| == 0 <==> b == multiset{}
    ensures b == multiset{} ==> a !! b
  {
    if |a * b| == 0 {
      assert a * b == multiset{};
      forall s ensures s !in a || s !in b {
        assert s !in a * b;
      }
    }
    if a !! b {
      assert a * b == multiset{};
    }
  }

  lemma PriorDelta(x: Inputs, i: nat)
    requires i < |x.prior|
    ensures PriorEntry(x, i).delta == Some(Unchanged) ==> IndexOf(x.priorRead).Some? && IndexOf(x.priorRead) == IndexOf(x.laterRead)
    ensures PriorEntry(x, i).codeChanged == None
  {
    hide Paired, RuleFive, Abstention;
    var id := IdentityOf(x.prior[i]);
    if id.Some? {
      RuleFiveShape(x.prior[i], id.value.file, x.priorRead, x.laterRead);
    }
  }

  lemma LaterDelta(x: Inputs, j: nat)
    requires j < |x.later|
    ensures LaterEntry(x, j).delta == None
    ensures IndexOf(x.priorRead) == IndexOf(x.laterRead) ==> LaterEntry(x, j).codeChanged != Some(true)
  {
    hide Paired;
  }

  /** Saying that nothing moved between the reads excludes saying of any file that it did. */
  lemma UnchangedPairHasNoChangedFile(x: Inputs, i: nat, j: nat)
    requires i < |Entries(x)| && j < |Entries(x)|
    ensures Entries(x)[i].delta == Some(Unchanged) ==> Entries(x)[j].codeChanged != Some(true)
  {
    hide PriorEntry, LaterEntry;
    if i < |x.prior| {
      PriorDelta(x, i);
    } else {
      LaterDelta(x, i - |x.prior|);
    }
    if j < |x.prior| {
      PriorDelta(x, j);
    } else {
      LaterDelta(x, j - |x.prior|);
    }
  }

  /** What an entry gives away about whether its file changed between the reads. */
  ghost function Says(e: Classification): Option<bool> {
    if e.basis == Some(ByConstruction) then Some(false)
    else if e.basis == Some(AttributedSurviving) then Some(true)
    else if e.state in {Unknown(LeftDiff), Unknown(EditedNotVerified), Unknown(NotReconfirmed)} then Some(true)
    else e.codeChanged
  }

  lemma RuleFiveSays(row: Finding, file: string, prior: Option<Read>, later: Option<Read>)
    ensures var said := Says(RuleFive(row, file, prior, later)); said.Some? ==> said == CodeChanged(file, prior, later)
  {
    hide Attributed;
    if IndexOf(prior).Some? && IndexOf(later).Some? && file in IndexOf(prior).value {
      AttributedSays(row, multiset(IndexOf(prior).value[file]), HunksOf(IndexOf(later).value, file));
    }
  }

  lemma AttributedSays(row: Finding, before: multiset<string>, after: multiset<string>)
    ensures Says(Attributed(row, before, after)) == Some(true)
  {
  }

  lemma EntrySays(x: Inputs, k: nat)
    requires k < |Entries(x)|
    ensures var said, id := Says(Entries(x)[k]), IdentityOf(Entries(x)[k].finding);
            said.Some? ==> id.Some? && said == CodeChanged(id.value.file, x.priorRead, x.laterRead)
  {
    hide RuleFive, Paired, CodeChanged, Uncovered;
    if k < |x.prior| {
      var row := x.prior[k];
      if IdentityOf(row).Some? {
        RuleFiveSays(row, IdentityOf(row).value.file, x.priorRead, x.laterRead);
        RuleFiveShape(row, IdentityOf(row).value.file, x.priorRead, x.laterRead);
      }
    }
  }

  /** Left out are exactly the rows that are no reader findings; without a file a finding is unknown, never left out. */
  lemma ExcludedExactlyWhen(x: Inputs, k: nat)
    requires k < |Entries(x)|
    ensures var e := Entries(x)[k];
            && e.finding == (if k < |x.prior| then x.prior[k] else x.later[k - |x.prior|])
            && e.side == (if k < |x.prior| then Prior else Later)
            && (e.state == Excluded <==> e.finding.pattern.None?)
            && (e.state == Unknown(IdentityIncomplete) <==> e.finding.pattern.Some? && e.finding.file.None?)
  {
    hide RuleFive, Paired, CodeChanged, Uncovered;
    if k < |x.prior| {
      var row := x.prior[k];
      if IdentityOf(row).Some? {
        RuleFiveShape(row, IdentityOf(row).value.file, x.priorRead, x.laterRead);
        RuleFiveIsComplete(row, IdentityOf(row).value.file, x.priorRead, x.laterRead);
      }
    }
  }

  lemma RuleFiveIsComplete(row: Finding, file: string, prior: Option<Read>, later: Option<Read>)
    ensures RuleFive(row, file, prior, later).state !in {Excluded, Unknown(IdentityIncomplete)}
  {
    hide HunksOf;
  }

  /**
    One file, one answer: carries, abstentions and new findings, on either side of the report and each
    decided on its own, never disagree on whether a file changed.
   */
  lemma FileHasOneAnswer(x: Inputs, a: nat, b: nat)
    requires a < |Entries(x)| && b < |Entries(x)|
    requires Says(Entries(x)[a]).Some? && Says(Entries(x)[b]).Some?
    ensures var i, j := IdentityOf(Entries(x)[a].finding), IdentityOf(Entries(x)[b].finding);
            && i.Some? && j.Some?
            && (i.value.file == j.value.file ==> Says(Entries(x)[a]) == Says(Entries(x)[b]))
  {
    hide Entries, Says, CodeChanged, IdentityOf;
    EntrySays(x, a);
    EntrySays(x, b);
  }

  // --------------------------------------------------------- the headline

  /** The check run's headline (api/doug/check_run.py): silent carries over these plus re-reports on unchanged files. */
  function Silent(entries: seq<Classification>): nat {
    if entries == [] then 0
    else Silent(entries[..|entries| - 1]) + if CarriedSilently(entries[|entries| - 1]) then 1 else 0
  }

  predicate CarriedSilently(e: Classification) {
    e.side == Prior && e.state == Persisted && e.basis == Some(ByConstruction)
  }

  function ReReportedUnchanged(entries: seq<Classification>): nat {
    if entries == [] then 0
    else ReReportedUnchanged(entries[..|entries| - 1]) + if IsReReportedUnchanged(entries[|entries| - 1]) then 1 else 0
  }

  predicate IsReReportedUnchanged(e: Classification) {
    e.side == Prior && e.state == Persisted && e.basis == None && e.codeChanged == Some(false)
  }

  /** The entries carried without a word. */
  ghost function SilentAt(entries: seq<Classification>): set<nat> {
    set k: nat | k < |entries| && IsSilentAt(entries, k)
  }

  ghost predicate IsSilentAt(entries: seq<Classification>, k: nat)
    requires k < |entries|
  {
    entries[k].side == Prior && entries[k].state == Persisted && entries[k].basis == Some(ByConstruction)
  }

  /** The headline's numerator is how many there are. */
  lemma {:induction false} SilentCounts(entries: seq<Classification>)
    ensures Silent(entries) == |SilentAt(entries)|
  {
    if entries != [] {
      SilentCounts(entries[..|entries| - 1]);
      OneMoreSilent(entries);
      hide SilentAt;
    }
  }

  lemma OneMoreSilent(entries: seq<Classification>)
    requires entries != []
    ensures |SilentAt(entries)| == |SilentAt(entries[..|entries| - 1])| + if CarriedSilently(entries[|entries| - 1]) then 1 else 0
  {
    var front, last: nat := entries[..|entries| - 1], |entries| - 1;
    var more, less := SilentAt(entries), SilentAt(front);
    forall k: nat ensures k in more <==> k in less || (k == last && IsSilentAt(entries, last)) {
      if k < last {
        assert front[k] == entries[k];
      }
    }
    hide IsSilentAt;
    assert last !in less;
    assert more == if IsSilentAt(entries, last) then less + {last} else less;
  }

  /** Exactly a prior entry that persists without a basis on a file said to be unchanged would be counted. */
  lemma ReReportWouldCount(e: Classification)
    ensures ReReportedUnchanged([e])
         == if e.side == Prior && e.state == Persisted && e.basis.None? && e.codeChanged.Some? && !e.codeChanged.value then 1 else 0
  {
    assert ReReportedUnchanged([e][..0]) == 0;
  }

  lemma {:induction false} NoneReReported(entries: seq<Classification>)
    requires forall k :: 0 <= k < |entries| ==> !IsReReportedUnchanged(entries[k])
    ensures ReReportedUnchanged(entries) == 0
  {
    if entries != [] {
      NoneReReported(entries[..|entries| - 1]);
    }
  }

  /**
    No prior entry ever says whether its file changed, although the field is documented to say so for
    re-reported ones; hence the headline's denominator always equals its numerator.
   */
  lemma HeadlineDenominatorIsItsNumerator(x: Inputs)
    ensures forall i :: 0 <= i < |x.prior| ==> PriorEntry(x, i).codeChanged == None
    ensures Silent(Entries(x)) + ReReportedUnchanged(Entries(x)) == Silent(Entries(x))
  {
    hide PriorEntry;
    forall i | 0 <= i < |x.prior| ensures PriorEntry(x, i).codeChanged == None {
      PriorDelta(x, i);
    }
    forall k | 0 <= k < |Entries(x)| ensures !IsReReportedUnchanged(Entries(x)[k]) {
      if k >= |x.prior| {
        LaterStates(x, k - |x.prior|, Identity("", ""));
      }
    }
    NoneReReported(Entries(x));
  }
}
