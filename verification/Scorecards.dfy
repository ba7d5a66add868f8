/** Scorecards over frozen packs and the adjudication log (api/doug/example_pack_eval.py). */
module Scorecards {
  // What a scorecard conserves, and when scoring instrument by instrument agrees with scoring everything
  // at once.

  import opened Common
  import opened AdjudicationLog

  datatype Scope = Scope(installation: int, repo: int, pull: int, baseSha: string, headSha: string)

  datatype RiskPack = RiskPack(
    packHash: string,
    runId: string,
    instrument: string,
    scope: Scope,
    attemptKind: string,
    findings: seq<string>)

  /** The counts; both denominators equal `eligible`. */
  datatype Scorecard = Scorecard(eligible: nat, actionable: nat, accepted: nat, unsupported: nat)

  datatype ScoreError =
    | BadCap | NotRisk | DuplicateIdentity
    | MissingPack | RunMismatch | MissingFinding
    | Contract(error: ContractError)

  const EMPTY_CARD: Scorecard := Scorecard(0, 0, 0, 0)

  function Add(a: Scorecard, b: Scorecard): Scorecard {
    Scorecard(a.eligible + b.eligible, a.actionable + b.actionable, a.accepted + b.accepted, a.unsupported + b.unsupported)
  }

  // --------------------------------------------------------- what is scorable

  predicate SameIdentity(p: RiskPack, q: RiskPack) {
    p.instrument == q.instrument && p.scope == q.scope
  }

  ghost predicate DistinctIdentities(packs: seq<RiskPack>) {
    forall i, j :: 0 <= i < j < |packs| ==> !SameIdentity(packs[i], packs[j])
  }

  ghost predicate ValidPacks(packs: seq<RiskPack>, cap: int) {
    cap > 0 && (forall i :: 0 <= i < |packs| ==> packs[i].attemptKind == "risk") && DistinctIdentities(packs)
  }

  /** `by_hash`: the last pack with this hash. */
  function ByHash(packs: seq<RiskPack>, packHash: string): (r: Option<RiskPack>)
    ensures r.Some? ==> r.value in packs && r.value.packHash == packHash
    ensures r.None? <==> forall p :: p in packs ==> p.packHash != packHash
  {
    if packs == [] then None
    else
      var front, last := packs[..|packs| - 1], packs[|packs| - 1];
      assert packs == front + [last];
      if last.packHash == packHash then Some(last) else ByHash(front, packHash)
  }

  /** The overlay rules on a finding of a pack being scored. */
  predicate Refers(packs: seq<RiskPack>, r: Record) {
    var pack := ByHash(packs, r.body.target.packHash);
    pack.Some? && pack.value.runId == r.body.target.runId && r.body.target.findingId in pack.value.findings
  }

  ghost predicate Scorable(packs: seq<RiskPack>, overlays: seq<Record>, cap: int) {
    ValidPacks(packs, cap) && (forall r :: r in overlays ==> Refers(packs, r)) && Accepted(overlays)
  }

  // -------------------------------------------------------------- the scores

  function FindingScore(heads: map<Target, Record>, pack: RiskPack, finding: string): Scorecard {
    var t := Target(pack.packHash, pack.runId, finding);
    if t !in heads then Scorecard(0, 0, 0, 1)
    else
      match heads[t].body.disposition
      case VerifiedActionable => Scorecard(0, 1, 0, 0)
      case VerifiedAcceptedNonactionable => Scorecard(0, 0, 1, 0)
      case _ => Scorecard(0, 0, 0, 1)
  }

  /** The first `n` findings of one pack. */
  function FindingsScore(heads: map<Target, Record>, pack: RiskPack, n: nat): Scorecard
    requires n <= |pack.findings|
  {
    if n == 0 then EMPTY_CARD
    else Add(FindingsScore(heads, pack, n - 1), FindingScore(heads, pack, pack.findings[n - 1]))
  }

  function Capped(pack: RiskPack, cap: nat): nat {
    if |pack.findings| < cap then |pack.findings| else cap
  }

  function PackScore(heads: map<Target, Record>, pack: RiskPack, cap: nat): Scorecard {
    Add(Scorecard(1, 0, 0, 0), FindingsScore(heads, pack, Capped(pack, cap)))
  }

  function TotalScore(heads: map<Target, Record>, packs: seq<RiskPack>, cap: nat): Scorecard {
    if packs == [] then EMPTY_CARD
    else Add(TotalScore(heads, packs[..|packs| - 1], cap), PackScore(heads, packs[|packs| - 1], cap))
  }

  /** The findings a scorecard is made of: each pack's, up to the cap. */
  function CountedFindings(packs: seq<RiskPack>, cap: nat): nat {
    if packs == [] then 0 else CountedFindings(packs[..|packs| - 1], cap) + Capped(packs[|packs| - 1], cap)
  }

  lemma {:induction false} FindingsAreConserved(heads: map<Target, Record>, pack: RiskPack, n: nat)
    requires n <= |pack.findings|
    ensures var s := FindingsScore(heads, pack, n); s.eligible == 0 && s.actionable + s.accepted + s.unsupported == n
  {
    if n > 0 {
      FindingsAreConserved(heads, pack, n - 1);
    }
  }

  /** Every counted finding lands in exactly one of the three counts, and every pack is eligible. */
  lemma {:induction false} ScoreIsConserved(heads: map<Target, Record>, packs: seq<RiskPack>, cap: nat)
    ensures var s := TotalScore(heads, packs, cap);
            && s.actionable + s.accepted + s.unsupported == CountedFindings(packs, cap)
            && s.eligible == |packs|
  {
    if packs != [] {
      var last := packs[|packs| - 1];
      ScoreIsConserved(heads, packs[..|packs| - 1], cap);
      FindingsAreConserved(heads, last, Capped(last, cap));
    }
  }

  /** All findings of all packs. */
  function FindingCount(packs: seq<RiskPack>): nat {
    if packs == [] then 0 else FindingCount(packs[..|packs| - 1]) + |packs[|packs| - 1].findings|
  }

  /** What is counted: at most the cap per pack, all that fits it, and the cap of each pack that fills it. */
  lemma {:induction false} CapHolds(packs: seq<RiskPack>, cap: nat)
    ensures CountedFindings(packs, cap) <= FindingCount(packs) && CountedFindings(packs, cap) <= cap * |packs|
    ensures CountedFindings(packs, cap) == FindingCount(packs) <==> NoneOverfills(packs, cap)
    ensures CountedFindings(packs, cap) == cap * |packs| <==> AllFill(packs, cap)
  {
    if packs != [] {
      CapHolds(packs[..|packs| - 1], cap);
      OnePackMore(packs, cap);
      OneCapMore(cap, |packs|);
      hide NoneOverfills, AllFill;
    }
  }

  ghost predicate NoneOverfills(packs: seq<RiskPack>, cap: nat) {
    forall k :: 0 <= k < |packs| ==> |packs[k].findings| <= cap
  }

  ghost predicate AllFill(packs: seq<RiskPack>, cap: nat) {
    forall k :: 0 <= k < |packs| ==> |packs[k].findings| >= cap
  }

  lemma OneCapMore(cap: nat, n: nat)
    requires n > 0
    ensures cap * n == cap * (n - 1) + cap
  {
  }

  lemma OnePackMore(packs: seq<RiskPack>, cap: nat)
    requires packs != []
    ensures var front, last := packs[..|packs| - 1], packs[|packs| - 1];
            && (NoneOverfills(packs, cap) <==> NoneOverfills(front, cap) && |last.findings| <= cap)
            && (AllFill(packs, cap) <==> AllFill(front, cap) && |last.findings| >= cap)
  {
    var front := packs[..|packs| - 1];
    assert packs == front + [packs[|packs| - 1]];
  }

  /** The first `n` findings of a pack whose head carries this disposition. */
  ghost function RuledFindings(heads: map<Target, Record>, pack: RiskPack, n: nat, d: Disposition): set<nat>
    requires n <= |pack.findings|
  {
    set k: nat | k < n && IsRuled(heads, pack, k, d)
  }

  predicate IsRuled(heads: map<Target, Record>, pack: RiskPack, k: nat, d: Disposition)
    requires k < |pack.findings|
  {
    var t := Target(pack.packHash, pack.runId, pack.findings[k]);
    t in heads && heads[t].body.disposition == d
  }

  ghost function RuledCount(heads: map<Target, Record>, packs: seq<RiskPack>, cap: nat, d: Disposition): nat {
    if packs == [] then 0
    else
      RuledCount(heads, packs[..|packs| - 1], cap, d)
      + |RuledFindings(heads, packs[|packs| - 1], Capped(packs[|packs| - 1], cap), d)|
  }

  lemma {:induction false} FindingsCountDispositions(heads: map<Target, Record>, pack: RiskPack, n: nat)
    requires n <= |pack.findings|
    ensures FindingsScore(heads, pack, n).actionable == |RuledFindings(heads, pack, n, VerifiedActionable)|
    ensures FindingsScore(heads, pack, n).accepted == |RuledFindings(heads, pack, n, VerifiedAcceptedNonactionable)|
  {
    if n > 0 {
      FindingsCountDispositions(heads, pack, n - 1);
      OneMoreRuled(heads, pack, n, VerifiedActionable);
      OneMoreRuled(heads, pack, n, VerifiedAcceptedNonactionable);
      hide RuledFindings;
    }
  }

  lemma OneMoreRuled(heads: map<Target, Record>, pack: RiskPack, n: nat, d: Disposition)
    requires 0 < n <= |pack.findings|
    ensures |RuledFindings(heads, pack, n, d)|
         == |RuledFindings(heads, pack, n - 1, d)| + if IsRuled(heads, pack, n - 1, d) then 1 else 0
  {
    hide IsRuled;
    var last: nat := n - 1;
    var more, less := RuledFindings(heads, pack, n, d), RuledFindings(heads, pack, last, d);
    forall k: nat ensures k in more <==> k in less || (k == last && IsRuled(heads, pack, last, d)) {
    }
    assert last !in less;
    assert more == if IsRuled(heads, pack, last, d) then less + {last} else less;
  }

  /** Each count is the findings whose own current record says so; all others are unsupported. */
  lemma {:induction false} ScoreCountsDispositions(heads: map<Target, Record>, packs: seq<RiskPack>, cap: nat)
    ensures var s := TotalScore(heads, packs, cap);
            && s.actionable == RuledCount(heads, packs, cap, VerifiedActionable)
            && s.accepted == RuledCount(heads, packs, cap, VerifiedAcceptedNonactionable)
  {
    if packs != [] {
      ScoreCountsDispositions(heads, packs[..|packs| - 1], cap);
      FindingsCountDispositions(heads, packs[|packs| - 1], Capped(packs[|packs| - 1], cap));
    }
  }

  // ------------------------------------------------------------- score_packs

  method ValidatePacks(packs: seq<RiskPack>, cap: int) returns (error: Option<ScoreError>)
    ensures error.None? <==> ValidPacks(packs, cap)
    ensures error == Some(BadCap) <==> cap <= 0
    ensures error.None? || error.value in {BadCap, NotRisk, DuplicateIdentity}
    ensures error == Some(NotRisk) ==> exists k :: 0 <= k < |packs| && packs[k].attemptKind != "risk"
    ensures error == Some(DuplicateIdentity) ==> !DistinctIdentities(packs)
  {
    if cap <= 0 {
      return Some(BadCap);
    }
    var identities: set<(string, Scope)> := {};
    for i := 0 to |packs|
      invariant forall k :: 0 <= k < i ==> packs[k].attemptKind == "risk"
      invariant forall k, l :: 0 <= k < l < i ==> !SameIdentity(packs[k], packs[l])
      invariant forall x :: x in identities <==> exists k :: 0 <= k < i && (packs[k].instrument, packs[k].scope) == x
    {
      if packs[i].attemptKind != "risk" {
        return Some(NotRisk);
      }
      var identity := (packs[i].instrument, packs[i].scope);
      if identity in identities {
        return Some(DuplicateIdentity);
      }
      forall k | 0 <= k < i ensures !SameIdentity(packs[k], packs[i]) {
        assert (packs[k].instrument, packs[k].scope) in identities;
      }
      identities := identities + {identity};
    }
    return None;
  }

  /** What is wrong with this overlay's reference. */
  ghost predicate FailsToRefer(packs: seq<RiskPack>, r: Record, error: ScoreError) {
    var target, pack := r.body.target, ByHash(packs, r.body.target.packHash);
    match error
    case MissingPack => forall k :: 0 <= k < |packs| ==> packs[k].packHash != target.packHash
    case RunMismatch => pack.Some? && pack.value.runId != target.runId
    case MissingFinding => pack.Some? && pack.value.runId == target.runId && target.findingId !in pack.value.findings
    case _ => false
  }

  method ValidateReferences(packs: seq<RiskPack>, overlays: seq<Record>) returns (error: Option<ScoreError>)
    ensures error.None? <==> forall r :: r in overlays ==> Refers(packs, r)
    ensures error.None? || error.value in {MissingPack, RunMismatch, MissingFinding}
    ensures error.Some? ==> exists i :: 0 <= i < |overlays| && (forall k :: 0 <= k < i ==> Refers(packs, overlays[k]))
                                        && FailsToRefer(packs, overlays[i], error.value)
  {
    for i := 0 to |overlays|
      invariant forall k :: 0 <= k < i ==> Refers(packs, overlays[k])
    {
      var target := overlays[i].body.target;
      var pack := ByHash(packs, target.packHash);
      assert overlays[i] in overlays;
      if pack.None? {
        return Some(MissingPack);
      }
      if target.runId != pack.value.runId {
        return Some(RunMismatch);
      }
      if target.findingId !in pack.value.findings {
        return Some(MissingFinding);
      }
    }
    return None;
  }

  method ScoreLoop(heads: map<Target, Record>, packs: seq<RiskPack>, cap: nat) returns (total: Scorecard)
    ensures total == TotalScore(heads, packs, cap)
  {
    total := EMPTY_CARD;
    for i := 0 to |packs|
      invariant total == TotalScore(heads, packs[..i], cap)
    {
      var pack, scored := packs[i], EMPTY_CARD;
      for n := 0 to Capped(pack, cap)
        invariant scored == FindingsScore(heads, pack, n)
      {
        scored := Add(scored, FindingScore(heads, pack, pack.findings[n]));
      }
      assert packs[..i + 1][..i] == packs[..i];
      total := Add(total, Add(Scorecard(1, 0, 0, 0), scored));
    }
    assert packs[..|packs|] == packs;
  }

  /** This is what the packs score against the log's own heads. */
  ghost predicate IsScore(packs: seq<RiskPack>, overlays: seq<Record>, cap: nat, card: Scorecard) {
    exists heads :: Heads(overlays, heads) && card == TotalScore(heads, packs, cap)
  }

  method ScorePacks(packs: seq<RiskPack>, overlays: seq<Record>, cap: int) returns (r: Result<Scorecard, ScoreError>)
    ensures r.Ok? <==> Scorable(packs, overlays, cap)
    ensures r.Ok? ==> IsScore(packs, overlays, cap, r.value)
    ensures r.Ok? ==> r.value.actionable + r.value.accepted + r.value.unsupported == CountedFindings(packs, cap)
    ensures r.Ok? ==> r.value.eligible == |packs|
  {
    hide DistinctIdentities, Refers, Accepted;
    var invalid := ValidatePacks(packs, cap);
    if invalid.Some? {
      return Err(invalid.value);
    }
    var dangling := ValidateReferences(packs, overlays);
    if dangling.Some? {
      return Err(dangling.value);
    }
    var effective := Resolve(overlays);
    if effective.Err? {
      return Err(Contract(effective.error));
    }
    var total := ScoreLoop(effective.value, packs, cap);
    ScoreIsConserved(effective.value, packs, cap);
    return Ok(total);
  }

  // --------------------------------------------------------- by instrument

  /** Packs with equal hashes are the same pack: hashes are of the content. */
  ghost predicate ContentAddressed(packs: seq<RiskPack>) {
    forall p, q :: p in packs && q in packs && p.packHash == q.packHash ==> p == q
  }

  /** The packs of these instruments, in order. */
  function PacksOf(packs: seq<RiskPack>, instruments: set<string>): seq<RiskPack> {
    if packs == [] then []
    else
      PacksOf(packs[..|packs| - 1], instruments)
      + if packs[|packs| - 1].instrument in instruments then [packs[|packs| - 1]] else []
  }

  lemma {:induction false} PacksOfHolds(packs: seq<RiskPack>, instruments: set<string>, p: RiskPack)
    ensures p in PacksOf(packs, instruments) <==> p in packs && p.instrument in instruments
  {
    if packs != [] {
      PacksOfHolds(packs[..|packs| - 1], instruments, p);
      assert packs == packs[..|packs| - 1] + [packs[|packs| - 1]];
    }
  }

  function HashesOf(packs: seq<RiskPack>): set<string> {
    set i | 0 <= i < |packs| :: packs[i].packHash
  }

  function OverlaysOn(overlays: seq<Record>, hashes: set<string>): (r: seq<Record>)
    ensures forall o :: o in r <==> o in overlays && o.body.target.packHash in hashes
  {
    if overlays == [] then []
    else
      var front, last := overlays[..|overlays| - 1], overlays[|overlays| - 1];
      assert overlays == front + [last];
      if last.body.target.packHash in hashes then OverlaysOn(front, hashes) + [last] else OverlaysOn(front, hashes)
  }

  function Part(packs: seq<RiskPack>, instrument: string): seq<RiskPack> {
    PacksOf(packs, {instrument})
  }

  function PartOverlays(packs: seq<RiskPack>, overlays: seq<Record>, instrument: string): seq<Record> {
    OverlaysOn(overlays, HashesOf(Part(packs, instrument)))
  }

  // Restricting the log to some packs keeps each of their findings whole.

  lemma {:induction false} SelectionKeepsUniqueIds(overlays: seq<Record>, hashes: set<string>)
    requires UniqueIds(overlays)
    ensures UniqueIds(OverlaysOn(overlays, hashes))
  {
    if overlays != [] {
      var front, last := overlays[..|overlays| - 1], overlays[|overlays| - 1];
      SelectionKeepsUniqueIds(front, hashes);
      forall o | o in OverlaysOn(front, hashes) ensures o.id != last.id {
        var k :| 0 <= k < |front| && front[k] == o;
        assert overlays[k].id != last.id;
      }
      assert forall k :: 0 <= k < |OverlaysOn(front, hashes)| ==> OverlaysOn(front, hashes)[k] in OverlaysOn(front, hashes);
    }
  }

  lemma SelectionKeepsChains(overlays: seq<Record>, hashes: set<string>, t: Target, chain: seq<Record>)
    requires t.packHash in hashes
    ensures IsChain(overlays, t, chain) <==> IsChain(OverlaysOn(overlays, hashes), t, chain)
    ensures Mentions(overlays, t) <==> Mentions(OverlaysOn(overlays, hashes), t)
  {
    var part := OverlaysOn(overlays, hashes);
    assert forall r: Record :: r.body.target == t ==> (r in overlays <==> r in part);
  }

  /** Resolution commutes with restriction: the part is accepted, and its heads are the whole's. */
  lemma SelectionCommutes(overlays: seq<Record>, hashes: set<string>, heads: map<Target, Record>, partHeads: map<Target, Record>)
    requires Accepted(overlays)
    ensures Accepted(OverlaysOn(overlays, hashes))
    ensures Heads(overlays, heads) && Heads(OverlaysOn(overlays, hashes), partHeads) ==>
              forall t: Target :: t.packHash in hashes ==>
                (t in heads <==> t in partHeads) && (t in heads ==> heads[t] == partHeads[t])
  {
    var part := OverlaysOn(overlays, hashes);
    AcceptedMeansSingleChains(overlays);
    SelectionKeepsUniqueIds(overlays, hashes);
    forall t | Mentions(part, t) ensures exists chain :: IsChain(part, t, chain) {
      SelectionChain(overlays, hashes, t);
    }
    SingleChainsAreAccepted(part);
    if Heads(overlays, heads) && Heads(part, partHeads) {
      forall t: Target | t.packHash in hashes
        ensures (t in heads <==> t in partHeads) && (t in heads ==> heads[t] == partHeads[t])
      {
      }
    }
  }

  lemma SelectionChain(overlays: seq<Record>, hashes: set<string>, t: Target)
    requires SingleChains(overlays) && Mentions(OverlaysOn(overlays, hashes), t)
    ensures t.packHash in hashes && IsChain(OverlaysOn(overlays, hashes), t, ChainOf(overlays, t))
  {
    SelectionKeepsChains(overlays, hashes, t, ChainOf(overlays, t));
  }

  // ------------------------------------------------ scoring part by part

  datatype InstrumentScore = InstrumentScore(instrument: string, card: Scorecard)

  function InstrumentsOf(packs: seq<RiskPack>): set<string> {
    set i | 0 <= i < |packs| :: packs[i].instrument
  }

  ghost predicate PartScorable(packs: seq<RiskPack>, overlays: seq<Record>, cap: int, instrument: string) {
    Scorable(Part(packs, instrument), PartOverlays(packs, overlays, instrument), cap)
  }

  /** This is what one instrument's packs score against the overlays on them. */
  ghost predicate PartScored(packs: seq<RiskPack>, overlays: seq<Record>, cap: int, score: InstrumentScore) {
    cap > 0 && IsScore(Part(packs, score.instrument), PartOverlays(packs, overlays, score.instrument), cap, score.card)
  }

  ghost predicate Covers(scores: seq<InstrumentScore>, instruments: set<string>) {
    && (forall k :: 0 <= k < |scores| ==> scores[k].instrument in instruments)
    && (forall i :: i in instruments ==> exists k :: 0 <= k < |scores| && scores[k].instrument == i)
    && (forall k, l :: 0 <= k < l < |scores| ==> scores[k].instrument != scores[l].instrument)
  }

  /** score_packs_by_instrument; the order of the parts carries no meaning here. */
  method ScorePacksByInstrument(packs: seq<RiskPack>, overlays: seq<Record>, cap: int)
    returns (r: Result<seq<InstrumentScore>, ScoreError>)
    ensures r.Ok? <==> forall i :: i in InstrumentsOf(packs) ==> PartScorable(packs, overlays, cap, i)
    ensures r.Ok? ==> Covers(r.value, InstrumentsOf(packs))
    ensures r.Ok? ==> forall k :: 0 <= k < |r.value| ==> PartScored(packs, overlays, cap, r.value[k])
  {
    hide Scorable, IsScore, Part, PartOverlays;
    var todo, done, scores := InstrumentsOf(packs), {}, [];
    while todo != {}
      invariant todo + done == InstrumentsOf(packs) && todo !! done
      invariant forall i :: i in done ==> PartScorable(packs, overlays, cap, i)
      invariant Covers(scores, done)
      invariant forall k :: 0 <= k < |scores| ==> PartScored(packs, overlays, cap, scores[k])
      decreases todo
    {
      var instrument :| instrument in todo;
      CapIsPositive(packs, overlays, cap, instrument);
      var card := ScorePacks(Part(packs, instrument), PartOverlays(packs, overlays, instrument), cap);
      if card.Err? {
        return Err(card.error);
      }
      ghost var before := scores;
      scores := scores + [InstrumentScore(instrument, card.value)];
      CoversOneMore(before, done, scores[|before|]);
      todo, done := todo - {instrument}, done + {instrument};
    }
    return Ok(scores);
  }

  lemma CapIsPositive(packs: seq<RiskPack>, overlays: seq<Record>, cap: int, instrument: string)
    ensures PartScorable(packs, overlays, cap, instrument) ==> cap > 0
  {
  }

  lemma CoversOneMore(scores: seq<InstrumentScore>, done: set<string>, score: InstrumentScore)
    requires Covers(scores, done) && score.instrument !in done
    ensures Covers(scores + [score], done + {score.instrument})
  {
    forall i | i in done + {score.instrument}
      ensures exists k :: 0 <= k < |scores + [score]| && (scores + [score])[k].instrument == i
    {
      if i == score.instrument {
        assert (scores + [score])[|scores|].instrument == i;
      } else {
        var k :| 0 <= k < |scores| && scores[k].instrument == i;
        assert (scores + [score])[k].instrument == i;
      }
    }
  }

  function SumOf(scores: seq<InstrumentScore>): Scorecard {
    if scores == [] then EMPTY_CARD else Add(SumOf(scores[..|scores| - 1]), scores[|scores| - 1].card)
  }

  /** A pack's score only looks its own findings up. */
  lemma {:induction false} SameLookupsSameScore(heads: map<Target, Record>, other: map<Target, Record>, pack: RiskPack, n: nat)
    requires n <= |pack.findings|
    requires forall t: Target :: t.packHash == pack.packHash ==>
               (t in heads <==> t in other) && (t in heads ==> heads[t] == other[t])
    ensures FindingsScore(heads, pack, n) == FindingsScore(other, pack, n)
  {
    if n > 0 {
      SameLookupsSameScore(heads, other, pack, n - 1);
    }
  }

  lemma {:induction false} SameHeadsSameTotal(heads: map<Target, Record>, other: map<Target, Record>, packs: seq<RiskPack>, hashes: set<string>, cap: nat)
    requires forall p :: p in packs ==> p.packHash in hashes
    requires forall t: Target :: t.packHash in hashes ==>
               (t in heads <==> t in other) && (t in heads ==> heads[t] == other[t])
    ensures TotalScore(heads, packs, cap) == TotalScore(other, packs, cap)
  {
    if packs != [] {
      var last := packs[|packs| - 1];
      SameHeadsSameTotal(heads, other, packs[..|packs| - 1], hashes, cap);
      SameLookupsSameScore(heads, other, last, Capped(last, cap));
    }
  }

  /** A part's own score is what its packs score against the whole log. */
  lemma PartScoreIsRestriction(packs: seq<RiskPack>, overlays: seq<Record>, cap: nat, instrument: string,
                               card: Scorecard, heads: map<Target, Record>)
    requires Accepted(overlays) && Heads(overlays, heads)
    requires IsScore(Part(packs, instrument), PartOverlays(packs, overlays, instrument), cap, card)
    ensures card == TotalScore(heads, Part(packs, instrument), cap)
  {
    var part := Part(packs, instrument);
    var hashes := HashesOf(part);
    var own :| Heads(PartOverlays(packs, overlays, instrument), own) && card == TotalScore(own, part, cap);
    SelectionCommutes(overlays, hashes, heads, own);
    forall p | p in part ensures p.packHash in hashes {
    }
    hide Part, PartOverlays, Accepted, Heads;
    SameHeadsSameTotal(heads, own, part, hashes, cap);
  }

  lemma TotalOfAppend(heads: map<Target, Record>, packs: seq<RiskPack>, last: RiskPack, cap: nat)
    ensures TotalScore(heads, packs + [last], cap) == Add(TotalScore(heads, packs, cap), PackScore(heads, last, cap))
  {
    hide PackScore, Add;
    assert (packs + [last])[..|packs|] == packs;
  }

  lemma PacksOfAppend(front: seq<RiskPack>, last: RiskPack, instruments: set<string>)
    ensures PacksOf(front + [last], instruments)
         == PacksOf(front, instruments) + if last.instrument in instruments then [last] else []
  {
    assert (front + [last])[..|front|] == front;
  }

  /** The score of one more pack among those of these instruments. */
  lemma SelectedTotal(heads: map<Target, Record>, front: seq<RiskPack>, last: RiskPack, instruments: set<string>, cap: nat)
    ensures last.instrument in instruments ==>
              TotalScore(heads, PacksOf(front + [last], instruments), cap)
              == Add(TotalScore(heads, PacksOf(front, instruments), cap), PackScore(heads, last, cap))
    ensures last.instrument !in instruments ==> PacksOf(front + [last], instruments) == PacksOf(front, instruments)
  {
    hide PackScore, Add, TotalScore, PacksOf;
    PacksOfAppend(front, last, instruments);
    TotalOfAppend(heads, PacksOf(front, instruments), last, cap);
  }

  lemma AddLaws(a: Scorecard, b: Scorecard, c: Scorecard)
    ensures Add(Add(a, b), c) == Add(a, Add(b, c)) == Add(Add(a, c), b)
  {
  }

  lemma NoPacksNoScore(heads: map<Target, Record>, packs: seq<RiskPack>, a: set<string>, b: set<string>, both: set<string>, cap: nat)
    requires packs == []
    ensures TotalScore(heads, PacksOf(packs, both), cap)
         == Add(TotalScore(heads, PacksOf(packs, a), cap), TotalScore(heads, PacksOf(packs, b), cap))
  {
    hide TotalScore, PacksOf;
    NothingSelected(packs, a);
    NothingSelected(packs, b);
    NothingSelected(packs, both);
    NothingScoresNothing(heads, cap);
    assert TotalScore(heads, PacksOf(packs, a), cap) == EMPTY_CARD;
    assert TotalScore(heads, PacksOf(packs, b), cap) == EMPTY_CARD;
    assert TotalScore(heads, PacksOf(packs, both), cap) == EMPTY_CARD;
  }

  lemma NothingSelected(packs: seq<RiskPack>, instruments: set<string>)
    requires packs == []
    ensures PacksOf(packs, instruments) == []
  {
  }

  /** Disjoint instruments' scores add up. */
  lemma {:induction false} TotalSplits(heads: map<Target, Record>, packs: seq<RiskPack>, a: set<string>, b: set<string>, both: set<string>, cap: nat)
    requires forall i :: i in both <==> i in a || i in b
    requires forall i :: !(i in a && i in b)
    ensures TotalScore(heads, PacksOf(packs, both), cap)
         == Add(TotalScore(heads, PacksOf(packs, a), cap), TotalScore(heads, PacksOf(packs, b), cap))
  {
    hide PackScore, Add, TotalScore, PacksOf;
    if packs == [] {
      NoPacksNoScore(heads, packs, a, b, both, cap);
    } else {
      var front, last := packs[..|packs| - 1], packs[|packs| - 1];
      TotalSplits(heads, front, a, b, both, cap);
      assert packs == front + [last];
      SelectedTotal(heads, front, last, a, cap);
      SelectedTotal(heads, front, last, b, cap);
      SelectedTotal(heads, front, last, both, cap);
      AddLaws(TotalScore(heads, PacksOf(front, a), cap), TotalScore(heads, PacksOf(front, b), cap), PackScore(heads, last, cap));
    }
  }

  function ScoredInstruments(scores: seq<InstrumentScore>): set<string> {
    set k | 0 <= k < |scores| :: scores[k].instrument
  }

  lemma {:induction false} SumIsTotal(packs: seq<RiskPack>, scores: seq<InstrumentScore>, heads: map<Target, Record>, cap: nat)
    requires forall k, l :: 0 <= k < l < |scores| ==> scores[k].instrument != scores[l].instrument
    requires forall k :: 0 <= k < |scores| ==> scores[k].card == TotalScore(heads, Part(packs, scores[k].instrument), cap)
    ensures SumOf(scores) == TotalScore(heads, PacksOf(packs, ScoredInstruments(scores)), cap)
  {
    hide TotalScore, PackScore, Add, PacksOf;
    if scores == [] {
      NoPacks(packs, ScoredInstruments(scores));
      NothingScoresNothing(heads, cap);
    } else {
      var front, last := scores[..|scores| - 1], scores[|scores| - 1];
      SumIsTotal(packs, front, heads, cap);
      assert last.instrument !in ScoredInstruments(front);
      assert scores == front + [last];
      TotalSplits(heads, packs, ScoredInstruments(front), {last.instrument}, ScoredInstruments(scores), cap);
    }
  }

  lemma {:induction false} NoPacks(packs: seq<RiskPack>, none: set<string>)
    requires none == {}
    ensures PacksOf(packs, none) == []
  {
    if packs != [] {
      NoPacks(packs[..|packs| - 1], none);
    }
  }

  lemma NothingScoresNothing(heads: map<Target, Record>, cap: nat)
    ensures TotalScore(heads, [], cap) == EMPTY_CARD
  {
  }

  /** Summing the per-instrument scorecards gives the scorecard of everything at once. */
  lemma PartsSumToWhole(packs: seq<RiskPack>, overlays: seq<Record>, cap: nat, scores: seq<InstrumentScore>, whole: Scorecard)
    requires Accepted(overlays) && IsScore(packs, overlays, cap, whole)
    requires Covers(scores, InstrumentsOf(packs))
    requires forall k :: 0 <= k < |scores| ==> PartScored(packs, overlays, cap, scores[k])
    ensures SumOf(scores) == whole
  {
    var heads :| Heads(overlays, heads) && whole == TotalScore(heads, packs, cap);
    forall k | 0 <= k < |scores| ensures scores[k].card == TotalScore(heads, Part(packs, scores[k].instrument), cap) {
      PartScoreIsRestriction(packs, overlays, cap, scores[k].instrument, scores[k].card, heads);
    }
    SumIsTotal(packs, scores, heads, cap);
    forall i | 0 <= i < |packs| ensures packs[i].instrument in ScoredInstruments(scores) {
      assert packs[i].instrument in InstrumentsOf(packs);
    }
  }

  // ---------------------------------------- when the two ways both accept

  /** Identities include the instrument, so clashes only ever happen inside one part. */
  lemma {:induction false} DistinctByParts(packs: seq<RiskPack>)
    ensures DistinctIdentities(packs) <==> forall i :: DistinctIdentities(Part(packs, i))
  {
    if packs != [] {
      var front, last := packs[..|packs| - 1], packs[|packs| - 1];
      assert packs == front + [last];
      DistinctByParts(front);
      forall i: string
        ensures DistinctIdentities(Part(packs, i)) <==>
                DistinctIdentities(Part(front, i)) && (i == last.instrument ==> NoClash(front, last))
      {
        DistinctPart(front, last, i);
      }
      DistinctAppend(front, last);
      hide DistinctIdentities, NoClash, Part;
      assert DistinctIdentities(Part(packs, last.instrument)) ==> NoClash(front, last);
    }
  }

  lemma DistinctPart(front: seq<RiskPack>, last: RiskPack, i: string)
    ensures DistinctIdentities(Part(front + [last], i)) <==>
            DistinctIdentities(Part(front, i)) && (i == last.instrument ==> NoClash(front, last))
  {
    if i == last.instrument {
      PartClash(front, last, i);
      DistinctAppend(Part(front, i), last);
    } else {
      assert Part(front + [last], i) == Part(front, i);
    }
  }

  ghost predicate NoClash(packs: seq<RiskPack>, last: RiskPack) {
    forall p :: p in packs ==> !SameIdentity(p, last)
  }

  lemma PartClash(front: seq<RiskPack>, last: RiskPack, instrument: string)
    requires instrument == last.instrument
    ensures NoClash(Part(front, instrument), last) <==> NoClash(front, last)
  {
    forall p ensures p in Part(front, instrument) <==> p in front && p.instrument == instrument {
      PacksOfHolds(front, {instrument}, p);
    }
  }

  lemma DistinctAppend(packs: seq<RiskPack>, last: RiskPack)
    ensures DistinctIdentities(packs + [last]) <==> DistinctIdentities(packs) && NoClash(packs, last)
  {
    var all := packs + [last];
    assert forall i :: 0 <= i < |packs| ==> packs[i] in packs;
    if DistinctIdentities(all) {
      forall p | p in packs ensures !SameIdentity(p, last) {
        var k :| 0 <= k < |packs| && packs[k] == p;
        assert !SameIdentity(all[k], all[|packs|]);
      }
      forall i, j | 0 <= i < j < |packs| ensures !SameIdentity(packs[i], packs[j]) {
        assert all[i] == packs[i] && all[j] == packs[j];
      }
    }
  }

  /** A pack's overlays refer into the part exactly as they refer into the whole. */
  lemma RefersInPart(packs: seq<RiskPack>, instrument: string, r: Record)
    requires ContentAddressed(packs)
    ensures r.body.target.packHash in HashesOf(Part(packs, instrument)) ==>
              (Refers(packs, r) <==> Refers(Part(packs, instrument), r))
  {
    var whole, part := ByHash(packs, r.body.target.packHash), ByHash(Part(packs, instrument), r.body.target.packHash);
    if r.body.target.packHash in HashesOf(Part(packs, instrument)) {
      var k :| 0 <= k < |Part(packs, instrument)| && Part(packs, instrument)[k].packHash == r.body.target.packHash;
      PacksOfHolds(packs, {instrument}, Part(packs, instrument)[k]);
      PacksOfHolds(packs, {instrument}, part.value);
      assert part.Some? && whole.Some?;
    }
  }

  predicate NamesAPack(packs: seq<RiskPack>, r: Record) {
    exists p :: p in packs && p.packHash == r.body.target.packHash
  }

  lemma InstrumentPart(packs: seq<RiskPack>, p: RiskPack)
    requires p in packs
    ensures p.instrument in InstrumentsOf(packs) && p in Part(packs, p.instrument)
    ensures p.packHash in HashesOf(Part(packs, p.instrument))
  {
    PacksOfHolds(packs, {p.instrument}, p);
  }

  lemma PartsPacksAreValid(packs: seq<RiskPack>, cap: int, instrument: string)
    requires ValidPacks(packs, cap)
    ensures ValidPacks(Part(packs, instrument), cap)
  {
    hide DistinctIdentities;
    DistinctByParts(packs);
    var part := Part(packs, instrument);
    forall k | 0 <= k < |part| ensures part[k].attemptKind == "risk" {
      PacksOfHolds(packs, {instrument}, part[k]);
    }
  }

  lemma EmptyOrMember<T>(s: seq<T>)
    ensures s == [] || exists x :: x in s
  {
    assert s != [] ==> s[0] in s;
  }

  lemma WholePacksAreValid(packs: seq<RiskPack>, cap: int)
    requires cap > 0
    requires forall i :: i in InstrumentsOf(packs) ==> ValidPacks(Part(packs, i), cap)
    ensures ValidPacks(packs, cap)
  {
    forall i ensures DistinctIdentities(Part(packs, i)) {
      if i !in InstrumentsOf(packs) {
        forall p | p in packs ensures p.instrument in InstrumentsOf(packs) {
          InstrumentPart(packs, p);
        }
        forall p ensures p !in Part(packs, i) {
          PacksOfHolds(packs, {i}, p);
        }
        EmptyOrMember(Part(packs, i));
      }
    }
    DistinctByParts(packs);
    forall k | 0 <= k < |packs| ensures packs[k].attemptKind == "risk" {
      InstrumentPart(packs, packs[k]);
    }
  }

  lemma WholeScorableMeansParts(packs: seq<RiskPack>, overlays: seq<Record>, cap: int, instrument: string)
    requires ContentAddressed(packs) && Scorable(packs, overlays, cap)
    ensures PartScorable(packs, overlays, cap, instrument)
  {
    hide ValidPacks, Accepted, Refers;
    PartsPacksAreValid(packs, cap, instrument);
    SelectionCommutes(overlays, HashesOf(Part(packs, instrument)), map[], map[]);
    forall r | r in PartOverlays(packs, overlays, instrument) ensures Refers(Part(packs, instrument), r) {
      RefersInPart(packs, instrument, r);
    }
  }

  lemma PartsReferToWhole(packs: seq<RiskPack>, overlays: seq<Record>, cap: int, r: Record)
    requires ContentAddressed(packs) && r in overlays && NamesAPack(packs, r)
    requires forall i :: i in InstrumentsOf(packs) ==> PartScorable(packs, overlays, cap, i)
    ensures Refers(packs, r)
    ensures UniqueIds(overlays) ==> exists chain :: IsChain(overlays, r.body.target, chain)
  {
    hide ValidPacks, Accepted, Refers, IsChain, UniqueIds;
    var p :| p in packs && p.packHash == r.body.target.packHash;
    InstrumentPart(packs, p);
    assert PartScorable(packs, overlays, cap, p.instrument);
    var part, own := Part(packs, p.instrument), PartOverlays(packs, overlays, p.instrument);
    assert r in own;
    RefersInPart(packs, p.instrument, r);
    AcceptedMeansSingleChains(own);
    assert Mentions(own, r.body.target);
    SelectionKeepsChains(overlays, HashesOf(part), r.body.target, ChainOf(own, r.body.target));
  }

  /**
    Exactly when everything can be scored at once: every part can, ids are unique across the parts,
    and no overlay names a pack outside them. Scoring part by part silently drops such an overlay.
   */
  lemma WholeIsScorableExactlyWhen(packs: seq<RiskPack>, overlays: seq<Record>, cap: int)
    requires ContentAddressed(packs)
    ensures Scorable(packs, overlays, cap) <==>
              && cap > 0
              && (forall i :: i in InstrumentsOf(packs) ==> PartScorable(packs, overlays, cap, i))
              && UniqueIds(overlays)
              && (forall r :: r in overlays ==> NamesAPack(packs, r))
  {
    if Scorable(packs, overlays, cap) {
      forall i | i in InstrumentsOf(packs) ensures PartScorable(packs, overlays, cap, i) {
        WholeScorableMeansParts(packs, overlays, cap, i);
      }
    }
    if && cap > 0
       && (forall i :: i in InstrumentsOf(packs) ==> PartScorable(packs, overlays, cap, i))
       && UniqueIds(overlays)
       && (forall r :: r in overlays ==> NamesAPack(packs, r))
    {
      hide ValidPacks, Refers, UniqueIds, NamesAPack, Accepted, PartScorable;
      PartsMakeWholeScorable(packs, overlays, cap);
    }
  }

  lemma PartsMakeWholeScorable(packs: seq<RiskPack>, overlays: seq<Record>, cap: int)
    requires ContentAddressed(packs) && cap > 0 && UniqueIds(overlays)
    requires forall i :: i in InstrumentsOf(packs) ==> PartScorable(packs, overlays, cap, i)
    requires forall r :: r in overlays ==> NamesAPack(packs, r)
    ensures Scorable(packs, overlays, cap)
  {
    hide ValidPacks, Refers, UniqueIds, IsChain, NamesAPack, Accepted;
    forall i | i in InstrumentsOf(packs) ensures ValidPacks(Part(packs, i), cap) {
      assert PartScorable(packs, overlays, cap, i);
    }
    WholePacksAreValid(packs, cap);
    forall r | r in overlays
      ensures Refers(packs, r) && exists chain :: IsChain(overlays, r.body.target, chain)
    {
      PartsReferToWhole(packs, overlays, cap, r);
    }
    assert SingleChains(overlays);
    SingleChainsAreAccepted(overlays);
  }

  /** An overlay on an unknown pack: every part scores, the whole is refused. */
  lemma StrayOverlayIsDroppedByParts(pack: RiskPack, stray: Record, cap: int)
    requires pack.attemptKind == "risk" && stray.body.target.packHash != pack.packHash && cap > 0
    ensures forall i :: i in InstrumentsOf([pack]) ==> PartScorable([pack], [stray], cap, i)
    ensures !Scorable([pack], [stray], cap)
  {
    var packs := [pack];
    assert packs[..0] == [];
    forall i | i in InstrumentsOf(packs) ensures PartScorable(packs, [stray], cap, i) {
      assert packs == [] + [pack] && i == pack.instrument;
      assert Part(packs, i) == Part([], i) + [pack] == [pack];
      assert stray.body.target.packHash !in HashesOf([pack]);
      var none := PartOverlays(packs, [stray], i);
      EmptyOrMember(none);
      assert none == [];
      SingleChainsAreAccepted([]);
    }
    assert stray in [stray];
    assert ByHash(packs, stray.body.target.packHash) == None;
  }
}
