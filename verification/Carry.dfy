/** Carrying an author's ruling to a repeated finding (api/doug/rulings.py, api/doug/reader.py). */
module Carry {
  // Rulings are anchored to stored findings, offered by file, and the model's picks are kept only within
  // what they anchor.

  import opened Common
  import opened Slugs

  datatype Verdict = Real | Disproved | Adjacent

  datatype Ruling = Ruling(row: nat, read: string, rule: string, file: string, verdict: Verdict, changed: bool, reason: string)

  datatype PriorFinding = PriorFinding(rule: string, file: Option<string>, text: string)

  datatype SkipReason = Unread | NoSuchRead | ManyReads | NotReaderRule | NoSuchFinding | ManyFiles

  datatype Skipped = Skipped(row: Option<nat>, reason: SkipReason)

  datatype Block = Block(rulings: seq<Ruling>, skipped: seq<Skipped>)

  datatype ResolvedRuling = ResolvedRuling(ruling: Ruling, headSha: string, file: string, raised: seq<string>)

  datatype Resolved = Resolved(rulings: seq<ResolvedRuling>, skipped: seq<Skipped>)

  type Reads = map<string, seq<PriorFinding>>

  // ------------------------------------------------------------- comparisons

  predicate EndsWith(s: string, suffix: string) {
    |suffix| <= |s| && s[|s| - |suffix|..] == suffix
  }

  predicate SamePath(a: string, b: string) {
    a == b || EndsWith(a, "/" + b) || EndsWith(b, "/" + a)
  }

  const RULE_PREFIX: string := "reader:"

  predicate SameRule(stored: string, ruled: string) {
    && StartsWith(stored, RULE_PREFIX) && StartsWith(ruled, RULE_PREFIX)
    && Slug(stored[|RULE_PREFIX|..]) == Slug(ruled[|RULE_PREFIX|..])
  }

  /** One path is the other, or ends it after a slash: neither has to be complete. */
  lemma SamePathMeans(a: string, b: string)
    ensures SamePath(a, b) <==> a == b || (exists above :: a == above + "/" + b) || (exists above :: b == above + "/" + a)
  {
    if EndsWith(a, "/" + b) {
      assert a == a[..|a| - |b| - 1] + "/" + b;
    }
    if EndsWith(b, "/" + a) {
      assert b == b[..|b| - |a| - 1] + "/" + a;
    }
    forall above | a == above + "/" + b ensures EndsWith(a, "/" + b) {
      assert a == above + ("/" + b);
    }
    forall above | b == above + "/" + a ensures EndsWith(b, "/" + a) {
      assert b == above + ("/" + a);
    }
  }

  /** Two reader rules are one when they spell the same words, in whatever case and with whatever between them. */
  lemma SameWordsSameRule(lead: string, words: seq<string>, separators: seq<string>, otherLead: string, others: seq<string>, otherSeparators: seq<string>)
    requires IsSpelling(lead, words, separators) && IsSpelling(otherLead, others, otherSeparators)
    ensures SameRule(RULE_PREFIX + lead + Spelt(words, separators), RULE_PREFIX + otherLead + Spelt(others, otherSeparators))
            <==> SameWords(words, others)
  {
    hide Slug, Kebab, Spelt, Lowered, SameWords, AreWords;
    WordsOfSpelling(lead, words, separators);
    WordsOfSpelling(otherLead, others, otherSeparators);
    var a, b := RULE_PREFIX + lead + Spelt(words, separators), RULE_PREFIX + otherLead + Spelt(others, otherSeparators);
    assert a[|RULE_PREFIX|..] == lead + Spelt(words, separators) && b[|RULE_PREFIX|..] == otherLead + Spelt(others, otherSeparators);
    assert a[..|RULE_PREFIX|] == RULE_PREFIX && b[..|RULE_PREFIX|] == RULE_PREFIX;
    EverySpellingHasOneSlug(lead, words, separators);
    EverySpellingHasOneSlug(otherLead, others, otherSeparators);
    if Kebab(words) == Kebab(others) {
      KebabTellsWords(words, others);
    }
    if SameWords(words, others) {
      SameWordsSameKebab(words, others);
    }
  }

  // --------------------------------------------------------------- anchoring

  predicate Matches(f: PriorFinding, r: Ruling) {
    f.file.Some? && SameRule(f.rule, r.rule) && SamePath(f.file.value, r.file)
  }

  /** A stored finding answers a ruling when both are reader rules of one slug and their paths meet. */
  lemma MatchesMeans(f: PriorFinding, r: Ruling, stored: string, ruled: string)
    requires f.rule == "reader:" + stored && r.rule == "reader:" + ruled
    ensures Matches(f, r) <==>
              && f.file.Some? && Slug(stored) == Slug(ruled)
              && (f.file.value == r.file || (exists above :: f.file.value == above + "/" + r.file) || (exists above :: r.file == above + "/" + f.file.value))
  {
    hide Slug, SamePath;
    assert f.rule[..|RULE_PREFIX|] == RULE_PREFIX && f.rule[|RULE_PREFIX|..] == stored;
    assert r.rule[..|RULE_PREFIX|] == RULE_PREFIX && r.rule[|RULE_PREFIX|..] == ruled;
    if f.file.Some? {
      SamePathMeans(f.file.value, r.file);
    }
  }

  /** Findings that are not the reader's are never answered. */
  lemma OnlyReaderFindingsMatch(f: PriorFinding, r: Ruling)
    requires Matches(f, r)
    ensures exists stored, ruled :: f.rule == "reader:" + stored && r.rule == "reader:" + ruled
  {
    hide Slug, SamePath;
    assert f.rule == "reader:" + f.rule[|RULE_PREFIX|..] && r.rule == "reader:" + r.rule[|RULE_PREFIX|..];
  }

  lemma {:induction false} MatchesAreCounted(findings: seq<PriorFinding>, r: Ruling, f: PriorFinding)
    ensures multiset(MatchesOf(findings, r))[f] == if Matches(f, r) then multiset(findings)[f] else 0
  {
    hide Matches;
    if findings != [] {
      var front, last := findings[..|findings| - 1], findings[|findings| - 1];
      MatchesAreCounted(front, r, f);
      assert findings == front + [last];
    }
  }

  /** What a ruling anchors are the texts of the findings that answer it, once for each time they were stored. */
  lemma {:induction false} LabelsAreTheTexts(findings: seq<PriorFinding>)
    ensures forall k :: 0 <= k < |findings| ==> Labels(findings)[k] == findings[k].text
  {
    if findings != [] {
      LabelsAreTheTexts(findings[..|findings| - 1]);
    }
  }

  function MatchesOf(findings: seq<PriorFinding>, r: Ruling): (m: seq<PriorFinding>)
    ensures forall k :: 0 <= k < |m| ==> m[k].file.Some?
  {
    if findings == [] then []
    else MatchesOf(findings[..|findings| - 1], r) + if Matches(findings[|findings| - 1], r) then [findings[|findings| - 1]] else []
  }

  function Labels(findings: seq<PriorFinding>): (r: seq<string>)
    ensures |r| == |findings|
  {
    if findings == [] then [] else Labels(findings[..|findings| - 1]) + [findings[|findings| - 1].text]
  }

  function FilesOf(findings: seq<PriorFinding>, r: Ruling): set<string> {
    set k | 0 <= k < |MatchesOf(findings, r)| :: MatchesOf(findings, r)[k].file.value
  }

  function ShasOf(stored: Reads, prefix: string): set<string> {
    set sha | sha in stored && StartsWith(sha, prefix)
  }

  function TheOnly(s: set<string>): (x: string)
    requires |s| == 1
    ensures s == {x}
  {
    OneMember(s);
    var x :| x in s && s == {x};
    x
  }

  lemma OneMember(s: set<string>)
    requires |s| == 1
    ensures exists x :: x in s && s == {x}
  {
    var x :| x in s;
    assert s == {x} + (s - {x});
    assert |s - {x}| == 0;
    assert x in s && s == {x};
  }

  /** One ruling against the stored reads: what it anchors to, or why it is skipped. */
  function Anchor(r: Ruling, stored: Reads): Result<ResolvedRuling, SkipReason> {
    var shas := ShasOf(stored, r.read);
    if |shas| == 0 then Err(NoSuchRead)
    else if |shas| > 1 then Err(ManyReads)
    else if !StartsWith(r.rule, RULE_PREFIX) then Err(NotReaderRule)
    else
      var sha := TheOnly(shas);
      assert sha in shas;
      var files := FilesOf(stored[sha], r);
      if |files| == 0 then Err(NoSuchFinding)
      else if |files| > 1 then Err(ManyFiles)
      else Ok(ResolvedRuling(r, sha, TheOnly(files), Labels(MatchesOf(stored[sha], r))))
  }

  /** `sha` is the one stored read the ruling names. */
  ghost predicate OnlyRead(stored: Reads, prefix: string, sha: string) {
    forall s :: s in stored && StartsWith(s, prefix) <==> s == sha
  }

  /** The ruling names stored findings, and they are all on `file`. */
  ghost predicate OnlyFile(findings: seq<PriorFinding>, r: Ruling, file: string) {
    && (exists k :: 0 <= k < |findings| && Matches(findings[k], r))
    && (forall k :: 0 <= k < |findings| && Matches(findings[k], r) ==> findings[k].file == Some(file))
  }

  lemma {:induction false} MatchesOfHolds(findings: seq<PriorFinding>, r: Ruling, f: PriorFinding)
    ensures f in MatchesOf(findings, r) <==> f in findings && Matches(f, r)
  {
    if findings != [] {
      MatchesOfHolds(findings[..|findings| - 1], r, f);
      assert findings == findings[..|findings| - 1] + [findings[|findings| - 1]];
    }
  }

  lemma FilesOfHolds(findings: seq<PriorFinding>, r: Ruling, file: string)
    ensures file in FilesOf(findings, r) <==> exists k :: 0 <= k < |findings| && Matches(findings[k], r) && findings[k].file == Some(file)
  {
    var m := MatchesOf(findings, r);
    if file in FilesOf(findings, r) {
      var j :| 0 <= j < |m| && m[j].file.value == file;
      MatchesOfHolds(findings, r, m[j]);
      assert m[j] in m;
      var k :| 0 <= k < |findings| && findings[k] == m[j];
    }
    if k :| 0 <= k < |findings| && Matches(findings[k], r) && findings[k].file == Some(file) {
      MatchesOfHolds(findings, r, findings[k]);
      assert findings[k] in m;
    }
  }

  lemma OneFileMeansOnly(findings: seq<PriorFinding>, r: Ruling, file: string)
    ensures FilesOf(findings, r) == {file} <==> OnlyFile(findings, r, file)
  {
    forall f ensures f in FilesOf(findings, r) <==> exists k :: 0 <= k < |findings| && Matches(findings[k], r) && findings[k].file == Some(f) {
      FilesOfHolds(findings, r, f);
    }
    if FilesOf(findings, r) == {file} {
      assert file in FilesOf(findings, r);
      forall k | 0 <= k < |findings| && Matches(findings[k], r) ensures findings[k].file == Some(file) {
        assert findings[k].file.value in FilesOf(findings, r);
      }
    }
    if OnlyFile(findings, r, file) {
      forall f ensures f in FilesOf(findings, r) <==> f == file {
      }
    }
  }

  /** A ruling anchors exactly when it names one stored read and, in it, reader findings on one file. */
  lemma AnchorsExactlyWhen(r: Ruling, stored: Reads, rr: ResolvedRuling)
    ensures Anchor(r, stored) == Ok(rr) <==>
              && rr.headSha in stored && OnlyRead(stored, r.read, rr.headSha)
              && StartsWith(r.rule, RULE_PREFIX)
              && OnlyFile(stored[rr.headSha], r, rr.file)
              && rr.ruling == r && rr.raised == Labels(MatchesOf(stored[rr.headSha], r))
  {
    hide OnlyFile, FilesOf, StartsWith, MatchesOf, Labels;
    var shas := ShasOf(stored, r.read);
    if Anchor(r, stored) == Ok(rr) {
      assert shas == {rr.headSha} && rr.headSha in shas;
      assert forall s :: s in shas <==> s in stored && StartsWith(s, r.read);
      OneFileMeansOnly(stored[rr.headSha], r, rr.file);
    }
    if rr.headSha in stored && OnlyRead(stored, r.read, rr.headSha) && OnlyFile(stored[rr.headSha], r, rr.file) {
      assert shas == {rr.headSha};
      OneFileMeansOnly(stored[rr.headSha], r, rr.file);
    }
  }

  /** Each refusal has its own cause, and only that. */
  lemma SkippedExactlyWhen(r: Ruling, stored: Reads, reason: SkipReason)
    ensures Anchor(r, stored) == Err(reason) <==>
              match reason
              case Unread => false
              case NoSuchRead => forall sha :: sha in stored ==> !StartsWith(sha, r.read)
              case ManyReads => exists a, b :: a in stored && b in stored && a != b && StartsWith(a, r.read) && StartsWith(b, r.read)
              case NotReaderRule => (exists sha :: sha in stored && OnlyRead(stored, r.read, sha)) && !StartsWith(r.rule, RULE_PREFIX)
              case NoSuchFinding =>
                && StartsWith(r.rule, RULE_PREFIX)
                && exists sha :: sha in stored && OnlyRead(stored, r.read, sha) && forall f :: f in stored[sha] ==> !Matches(f, r)
              case ManyFiles =>
                && StartsWith(r.rule, RULE_PREFIX)
                && exists sha :: sha in stored && OnlyRead(stored, r.read, sha) && OnManyFiles(stored[sha], r)
  {
    hide Matches, FilesOf, StartsWith, MatchesOf, Labels;
    var shas := ShasOf(stored, r.read);
    ReadsNamed(stored, r.read);
    if |shas| == 1 {
      var sha := TheOnly(shas);
      assert sha in shas;
      FilesNamed(stored[sha], r);
      hide FilesOf, OnManyFiles;
      forall other | other in stored && OnlyRead(stored, r.read, other) ensures other == sha {
      }
    }
    hide OnlyRead;
  }

  ghost predicate OnManyFiles(findings: seq<PriorFinding>, r: Ruling) {
    exists f, g :: f in findings && g in findings && Matches(f, r) && Matches(g, r) && f.file != g.file
  }

  lemma ReadsNamed(stored: Reads, prefix: string)
    ensures var shas := ShasOf(stored, prefix);
            && (|shas| == 0 <==> forall sha :: sha in stored ==> !StartsWith(sha, prefix))
            && (|shas| > 1 <==> exists a, b :: a in stored && b in stored && a != b && StartsWith(a, prefix) && StartsWith(b, prefix))
            && (|shas| == 1 <==> exists sha :: sha in stored && OnlyRead(stored, prefix, sha))
            && (|shas| == 1 ==> TheOnly(shas) in stored && OnlyRead(stored, prefix, TheOnly(shas)))
  {
    hide StartsWith;
    var shas := ShasOf(stored, prefix);
    assert forall sha :: sha in shas <==> sha in stored && StartsWith(sha, prefix);
    SetSizes(shas);
    if sha :| sha in stored && OnlyRead(stored, prefix, sha) {
      assert shas == {sha};
    }
  }

  lemma FilesNamed(findings: seq<PriorFinding>, r: Ruling)
    ensures |FilesOf(findings, r)| == 0 <==> forall f :: f in findings ==> !Matches(f, r)
    ensures |FilesOf(findings, r)| > 1 <==> OnManyFiles(findings, r)
  {
    hide Matches, FilesOf;
    var files := FilesOf(findings, r);
    SetSizes(files);
    forall f | f in findings && Matches(f, r) ensures f.file.Some? && f.file.value in files {
      FileIsNamed(findings, r, f);
    }
    if |files| > 1 {
      var a, b :| a in files && b in files && a != b;
      FilesOfHolds(findings, r, a);
      FilesOfHolds(findings, r, b);
    }
    if |files| > 0 {
      var a :| a in files;
      FilesOfHolds(findings, r, a);
    }
  }

  lemma FileIsNamed(findings: seq<PriorFinding>, r: Ruling, f: PriorFinding)
    requires f in findings && Matches(f, r)
    ensures f.file.Some? && f.file.value in FilesOf(findings, r)
  {
    hide FilesOf, SameRule, SamePath;
    var k :| 0 <= k < |findings| && findings[k] == f;
    FilesOfHolds(findings, r, f.file.value);
  }

  lemma SetSizes(s: set<string>)
    ensures |s| == 0 <==> forall x :: x !in s
    ensures |s| > 1 <==> exists x, y :: x in s && y in s && x != y
  {
    if |s| > 1 {
      var x :| x in s;
      assert |s - {x}| > 0;
      var y :| y in s - {x};
      assert y in s && x != y;
    }
    if x, y :| x in s && y in s && x != y {
      assert |s - {x}| > 0 by {
        assert y in s - {x};
      }
    }
    if |s| == 0 {
      assert s == {};
    }
  }

  function KeptOf(rulings: seq<Ruling>, stored: Reads): seq<ResolvedRuling> {
    if rulings == [] then []
    else
      KeptOf(rulings[..|rulings| - 1], stored)
      + match Anchor(rulings[|rulings| - 1], stored) case Ok(rr) => [rr] case Err(_) => []
  }

  function SkippedOf(rulings: seq<Ruling>, stored: Reads): seq<Skipped> {
    if rulings == [] then []
    else
      SkippedOf(rulings[..|rulings| - 1], stored)
      + match Anchor(rulings[|rulings| - 1], stored)
        case Ok(_) => []
        case Err(reason) => [Skipped(Some(rulings[|rulings| - 1].row), reason)]
  }

  lemma NothingAnchored(rulings: seq<Ruling>, stored: Reads)
    ensures KeptOf(rulings[..0], stored) == [] && SkippedOf(rulings[..0], stored) == []
  {
  }

  lemma OneMoreAnchored(rulings: seq<Ruling>, i: nat, stored: Reads)
    requires i < |rulings|
    ensures KeptOf(rulings[..i + 1], stored)
         == KeptOf(rulings[..i], stored) + match Anchor(rulings[i], stored) case Ok(rr) => [rr] case Err(_) => []
    ensures SkippedOf(rulings[..i + 1], stored)
         == SkippedOf(rulings[..i], stored)
            + match Anchor(rulings[i], stored) case Ok(_) => [] case Err(reason) => [Skipped(Some(rulings[i].row), reason)]
  {
    hide Anchor;
    assert rulings[..i + 1][..i] == rulings[..i];
  }

  method Resolve(block: Block, stored: Reads) returns (r: Resolved)
    ensures r.rulings == KeptOf(block.rulings, stored)
    ensures r.skipped == block.skipped + SkippedOf(block.rulings, stored)
    ensures |r.rulings| + |r.skipped| == |block.rulings| + |block.skipped|
  {
    hide Anchor, KeptOf, SkippedOf;
    NothingAnchored(block.rulings, stored);
    var kept, skipped := [], block.skipped;
    for i := 0 to |block.rulings|
      invariant kept == KeptOf(block.rulings[..i], stored)
      invariant skipped == block.skipped + SkippedOf(block.rulings[..i], stored)
      invariant |kept| + |skipped| == i + |block.skipped|
    {
      OneMoreAnchored(block.rulings, i, stored);
      match Anchor(block.rulings[i], stored)
      case Ok(rr) => kept := kept + [rr];
      case Err(reason) => skipped := skipped + [Skipped(Some(block.rulings[i].row), reason)];
    }
    assert block.rulings[..|block.rulings|] == block.rulings;
    return Resolved(kept, skipped);
  }

  /** What is skipped is each refused ruling, by its row and for its reason. */
  lemma {:induction false} SkippedIsRefused(rulings: seq<Ruling>, stored: Reads, s: Skipped)
    ensures s in SkippedOf(rulings, stored) <==>
              exists k :: 0 <= k < |rulings| && s.row == Some(rulings[k].row) && Anchor(rulings[k], stored) == Err(s.reason)
  {
    hide Anchor;
    if rulings != [] {
      var front, last := rulings[..|rulings| - 1], rulings[|rulings| - 1];
      SkippedIsRefused(front, stored, s);
      assert forall k :: 0 <= k < |front| ==> front[k] == rulings[k];
    }
  }

  /** Whatever is kept is the anchor of one of the block's rulings. */
  lemma {:induction false} KeptIsAnchored(rulings: seq<Ruling>, stored: Reads, rr: ResolvedRuling)
    ensures rr in KeptOf(rulings, stored) <==> rr.ruling in rulings && Anchor(rr.ruling, stored) == Ok(rr)
  {
    if rulings != [] {
      var front, last := rulings[..|rulings| - 1], rulings[|rulings| - 1];
      KeptIsAnchored(front, stored, rr);
      assert rulings == front + [last];
      hide Anchor;
    }
  }

  // --------------------------------------------------------------- decisions

  /** One row of the model's answer; None where a field is not of its type. */
  datatype Answer = NotAnObject | Answer(finding: Option<int>, repeats: Option<seq<Option<int>>>, basisChanged: Option<bool>)

  datatype Pick = Pick(ruling: nat, basisChanged: bool)

  datatype Outcome = Carried | RaisedAgain | BasisChanged

  datatype Decision = Decision(outcome: Outcome, ruling: nat)

  predicate Names(a: Answer, i: nat) {
    a.Answer? && a.finding == Some(i)
  }

  /** What a row picks for its finding, if it keeps the contract: one ruling, of those offered. */
  function PickIn(a: Answer, offered: seq<nat>): Option<Pick> {
    if a.Answer? && a.repeats.Some? && |a.repeats.value| == 1 && a.basisChanged.Some?
       && a.repeats.value[0].Some? && a.repeats.value[0].value >= 0 && (a.repeats.value[0].value as nat) in offered
    then Some(Pick(a.repeats.value[0].value, a.basisChanged.value))
    else None
  }

  /** The rows that name finding `i`, in order. */
  function Naming(rows: seq<Answer>, i: nat): (r: seq<Answer>)
    ensures |r| <= |rows|
  {
    if rows == [] then []
    else Naming(rows[..|rows| - 1], i) + if Names(rows[|rows| - 1], i) then [rows[|rows| - 1]] else []
  }

  /** The pick that stands for finding `i`: that of the only row naming it. */
  function PickOf(rows: seq<Answer>, options: seq<seq<nat>>, i: nat): Option<Pick>
    requires i < |options|
  {
    var naming := Naming(rows, i);
    if |naming| == 1 then PickIn(naming[0], options[i]) else None
  }

  /** The findings whose standing pick is this ruling. */
  function PickedBy(rows: seq<Answer>, options: seq<seq<nat>>, ruling: nat): set<nat> {
    set i | 0 <= i < |options| && PickOf(rows, options, i).Some? && PickOf(rows, options, i).value.ruling == ruling
  }

  function OutcomeOf(pick: Pick, changed: bool): Outcome {
    if changed then RaisedAgain else if pick.basisChanged then BasisChanged else Carried
  }

  /** Offers only name rulings there are. */
  predicate Offered(options: seq<seq<nat>>, resolved: seq<ResolvedRuling>) {
    forall i, n :: 0 <= i < |options| && n in options[i] ==> n < |resolved|
  }

  /** A pick stands when its ruling is picked no more often than it has stored findings. */
  predicate Stands(rows: seq<Answer>, options: seq<seq<nat>>, resolved: seq<ResolvedRuling>, i: nat)
    requires i < |options|
  {
    var pick := PickOf(rows, options, i);
    && pick.Some? && pick.value.ruling < |resolved|
    && |PickedBy(rows, options, pick.value.ruling)| <= |resolved[pick.value.ruling].raised|
  }

  function Decisions(rows: seq<Answer>, options: seq<seq<nat>>, resolved: seq<ResolvedRuling>): map<nat, Decision> {
    map i: nat | i < |options| && Stands(rows, options, resolved, i) ::
      var pick := PickOf(rows, options, i).value;
      Decision(OutcomeOf(pick, resolved[pick.ruling].ruling.changed), pick.ruling)
  }

  /** A decision repeats the one row that names its finding: its ruling, and whether the basis changed. */
  lemma DecisionReflectsAnswer(rows: seq<Answer>, options: seq<seq<nat>>, resolved: seq<ResolvedRuling>, i: nat)
    requires i in Decisions(rows, options, resolved)
    ensures i < |options| && |Naming(rows, i)| == 1
    ensures var d, a := Decisions(rows, options, resolved)[i], Naming(rows, i)[0];
            && a.Answer? && a.repeats == Some([Some(d.ruling as int)]) && d.ruling in options[i] && d.ruling < |resolved|
            && (d.outcome == RaisedAgain <==> resolved[d.ruling].ruling.changed)
            && (d.outcome == Carried <==> !resolved[d.ruling].ruling.changed && a.basisChanged == Some(false))
            && (d.outcome == BasisChanged <==> !resolved[d.ruling].ruling.changed && a.basisChanged == Some(true))
  {
    hide Naming, PickedBy;
    var a := Naming(rows, i)[0];
    assert PickOf(rows, options, i) == PickIn(a, options[i]);
    assert a.repeats.value == [a.repeats.value[0]];
  }

  // ------------------------------------------------- what an answer says, by rows

  ghost predicate OnlyRowFor(rows: seq<Answer>, k: nat, i: nat) {
    k < |rows| && Names(rows[k], i) && forall l :: 0 <= l < |rows| && Names(rows[l], i) ==> l == k
  }

  /** Exactly one row names the finding, and it repeats exactly this one ruling of those offered. */
  ghost predicate Chooses(rows: seq<Answer>, offered: seq<nat>, i: nat, ruling: nat, basisChanged: bool) {
    ruling in offered
    && exists k: nat :: OnlyRowFor(rows, k, i) && rows[k].repeats == Some([Some(ruling as int)]) && rows[k].basisChanged == Some(basisChanged)
  }

  ghost predicate ChoosesEitherWay(rows: seq<Answer>, offered: seq<nat>, i: nat, ruling: nat) {
    Chooses(rows, offered, i, ruling, true) || Chooses(rows, offered, i, ruling, false)
  }

  /** The findings for which the answer chooses this ruling. */
  ghost function Choosers(rows: seq<Answer>, options: seq<seq<nat>>, ruling: nat): set<nat> {
    set i: nat | i < |options| && ChoosesEitherWay(rows, options[i], i, ruling)
  }

  lemma {:induction false} NamingIsOnlyRow(rows: seq<Answer>, i: nat)
    ensures |Naming(rows, i)| == 0 <==> forall l :: 0 <= l < |rows| ==> !Names(rows[l], i)
    ensures |Naming(rows, i)| == 1 ==> exists k: nat :: OnlyRowFor(rows, k, i) && rows[k] == Naming(rows, i)[0]
    ensures (exists k: nat :: OnlyRowFor(rows, k, i)) ==> |Naming(rows, i)| == 1
  {
    hide Names;
    if rows != [] {
      var front, last: nat := rows[..|rows| - 1], |rows| - 1;
      NamingIsOnlyRow(front, i);
      if Names(rows[last], i) {
        if |Naming(front, i)| == 0 {
          assert OnlyRowFor(rows, last, i);
        }
        forall k: nat | OnlyRowFor(rows, k, i) ensures |Naming(front, i)| == 0 {
          assert k == last;
        }
      } else {
        forall k: nat ensures OnlyRowFor(rows, k, i) <==> OnlyRowFor(front, k, i) {
          OneRowFewer(rows, k, i);
        }
      }
    }
  }

  lemma OneRowFewer(rows: seq<Answer>, k: nat, i: nat)
    requires rows != [] && !Names(rows[|rows| - 1], i)
    ensures OnlyRowFor(rows, k, i) <==> OnlyRowFor(rows[..|rows| - 1], k, i)
  {
    hide Names;
    var front := rows[..|rows| - 1];
    if OnlyRowFor(front, k, i) {
      forall l | 0 <= l < |rows| && Names(rows[l], i) ensures l == k {
        assert l < |front| && front[l] == rows[l];
      }
    }
    if OnlyRowFor(rows, k, i) {
      assert front[k] == rows[k];
    }
  }

  lemma PickIsChosen(rows: seq<Answer>, options: seq<seq<nat>>, i: nat, ruling: nat, basisChanged: bool)
    requires i < |options|
    ensures PickOf(rows, options, i) == Some(Pick(ruling, basisChanged)) <==> Chooses(rows, options[i], i, ruling, basisChanged)
  {
    hide Naming;
    NamingIsOnlyRow(rows, i);
    if |Naming(rows, i)| == 1 {
      var k: nat :| OnlyRowFor(rows, k, i) && rows[k] == Naming(rows, i)[0];
      PickInIs(rows[k], options[i], ruling, basisChanged);
      assert Names(rows[k], i);
      hide PickIn;
    }
  }

  lemma PickInIs(a: Answer, offered: seq<nat>, ruling: nat, basisChanged: bool)
    requires a.Answer?
    ensures PickIn(a, offered) == Some(Pick(ruling, basisChanged))
            <==> ruling in offered && a.repeats == Some([Some(ruling as int)]) && a.basisChanged == Some(basisChanged)
  {
    if PickIn(a, offered) == Some(Pick(ruling, basisChanged)) {
      assert a.repeats.value == [a.repeats.value[0]];
    }
  }

  lemma ChoosersPick(rows: seq<Answer>, options: seq<seq<nat>>, ruling: nat)
    ensures PickedBy(rows, options, ruling) == Choosers(rows, options, ruling)
  {
    hide PickOf, Chooses;
    forall i: nat ensures i in PickedBy(rows, options, ruling) <==> i in Choosers(rows, options, ruling) {
      if i < |options| {
        PickIsChosen(rows, options, i, ruling, true);
        PickIsChosen(rows, options, i, ruling, false);
      }
    }
  }

  /** A finding is decided by a ruling exactly when the answer chooses it, and for no more findings than it raised. */
  lemma DecidedExactlyWhen(rows: seq<Answer>, options: seq<seq<nat>>, resolved: seq<ResolvedRuling>, i: nat, ruling: nat)
    requires Offered(options, resolved) && i < |options| && ruling < |resolved|
    ensures var decisions := Decisions(rows, options, resolved);
            && (i in decisions && decisions[i].ruling == ruling <==>
                  ChoosesEitherWay(rows, options[i], i, ruling) && |Choosers(rows, options, ruling)| <= |resolved[ruling].raised|)
            && (i in decisions && decisions[i].ruling == ruling ==>
                  decisions[i].outcome == if resolved[ruling].ruling.changed then RaisedAgain
                                          else if Chooses(rows, options[i], i, ruling, true) then BasisChanged else Carried)
  {
    hide PickOf, PickedBy, Chooses, Choosers;
    PickIsChosen(rows, options, i, ruling, true);
    PickIsChosen(rows, options, i, ruling, false);
    ChoosersPick(rows, options, ruling);
  }

  // ------------------------------------------------------ order does not matter

  lemma {:induction false} NamingCounts(rows: seq<Answer>, i: nat, a: Answer)
    ensures multiset(Naming(rows, i))[a] == if Names(a, i) then multiset(rows)[a] else 0
  {
    if rows != [] {
      var front, last := rows[..|rows| - 1], rows[|rows| - 1];
      NamingCounts(front, i, a);
      assert rows == front + [last];
    }
  }

  lemma NamingIsOrderFree(rows: seq<Answer>, other: seq<Answer>, i: nat)
    requires multiset(rows) == multiset(other)
    ensures multiset(Naming(rows, i)) == multiset(Naming(other, i))
  {
    forall a ensures multiset(Naming(rows, i))[a] == multiset(Naming(other, i))[a] {
      NamingCounts(rows, i, a);
      NamingCounts(other, i, a);
    }
  }

  lemma PickIsOrderFree(rows: seq<Answer>, other: seq<Answer>, options: seq<seq<nat>>, i: nat)
    requires multiset(rows) == multiset(other) && i < |options|
    ensures PickOf(rows, options, i) == PickOf(other, options, i)
  {
    NamingIsOrderFree(rows, other, i);
    var a, b := Naming(rows, i), Naming(other, i);
    assert |a| == |multiset(a)| == |multiset(b)| == |b|;
    if |a| == 1 {
      assert a == [a[0]] && b == [b[0]];
      assert a[0] in multiset(b);
    }
  }

  /** The same rows in any order decide the same. */
  lemma DecisionsAreOrderFree(rows: seq<Answer>, other: seq<Answer>, options: seq<seq<nat>>, resolved: seq<ResolvedRuling>)
    requires multiset(rows) == multiset(other)
    ensures Decisions(rows, options, resolved) == Decisions(other, options, resolved)
  {
    forall i: nat | i < |options| ensures PickOf(rows, options, i) == PickOf(other, options, i) {
      PickIsOrderFree(rows, other, options, i);
    }
    hide PickOf;
    forall n ensures PickedBy(rows, options, n) == PickedBy(other, options, n) {
    }
    hide PickedBy;
    forall i: nat | i < |options| ensures Stands(rows, options, resolved, i) <==> Stands(other, options, resolved, i) {
    }
  }

  // ------------------------------------------------------ no ruling over capacity

  function Labelled(decisions: map<nat, Decision>, ruling: nat): set<nat> {
    set i | i in decisions && decisions[i].ruling == ruling
  }

  /** No ruling labels more findings than were stored under it, and all of its picks stand or none does. */
  lemma CapacityHolds(rows: seq<Answer>, options: seq<seq<nat>>, resolved: seq<ResolvedRuling>, ruling: nat)
    requires ruling < |resolved|
    ensures var labelled, picked := Labelled(Decisions(rows, options, resolved), ruling), PickedBy(rows, options, ruling);
            && |labelled| <= |resolved[ruling].raised|
            && labelled == if |picked| <= |resolved[ruling].raised| then picked else {}
  {
    hide PickOf;
    var labelled, picked := Labelled(Decisions(rows, options, resolved), ruling), PickedBy(rows, options, ruling);
    forall i ensures i in labelled <==> i in picked && |picked| <= |resolved[ruling].raised| {
    }
    if |picked| > |resolved[ruling].raised| {
      assert labelled == {};
    } else {
      assert labelled == picked;
    }
  }

  // ------------------------------------------- the bound per stored finding

  /** Two rulings rest on the same stored findings: same read, same file, same rule. */
  predicate SameAnchor(a: ResolvedRuling, b: ResolvedRuling) {
    a.headSha == b.headSha && a.file == b.file && SameRule(a.ruling.rule, b.ruling.rule)
  }

  lemma MatchesAgree(stored: Reads, a: ResolvedRuling, b: ResolvedRuling, f: PriorFinding)
    requires Anchor(a.ruling, stored) == Ok(a) && Anchor(b.ruling, stored) == Ok(b) && SameAnchor(a, b)
    requires a.headSha in stored && f in stored[a.headSha] && Matches(f, a.ruling)
    ensures Matches(f, b.ruling)
  {
    hide Anchor;
    AnchorsExactlyWhen(a.ruling, stored, a);
    AnchorsExactlyWhen(b.ruling, stored, b);
    var k :| 0 <= k < |stored[a.headSha]| && stored[a.headSha][k] == f;
    var j :| 0 <= j < |stored[b.headSha]| && Matches(stored[b.headSha][j], b.ruling);
    assert f.file == Some(a.file) == stored[b.headSha][j].file;
  }

  /** Rulings with one anchor were raised for the same stored findings. */
  lemma SameAnchorSameFindings(stored: Reads, a: ResolvedRuling, b: ResolvedRuling)
    requires Anchor(a.ruling, stored) == Ok(a) && Anchor(b.ruling, stored) == Ok(b) && SameAnchor(a, b)
    ensures a.raised == b.raised && a.raised != []
  {
    hide Anchor, Matches, SameRule;
    AnchorsExactlyWhen(a.ruling, stored, a);
    AnchorsExactlyWhen(b.ruling, stored, b);
    var findings := stored[a.headSha];
    forall f | f in findings ensures Matches(f, a.ruling) <==> Matches(f, b.ruling) {
      SameAnchorIsSymmetric(a, b);
      if Matches(f, a.ruling) {
        MatchesAgree(stored, a, b, f);
      }
      if Matches(f, b.ruling) {
        MatchesAgree(stored, b, a, f);
      }
    }
    SameMatches(findings, a.ruling, b.ruling);
    var k :| 0 <= k < |findings| && Matches(findings[k], a.ruling);
    MatchesOfHolds(findings, a.ruling, findings[k]);
  }

  lemma SameAnchorIsSymmetric(a: ResolvedRuling, b: ResolvedRuling)
    ensures SameAnchor(a, b) <==> SameAnchor(b, a)
  {
  }

  lemma {:induction false} SameMatches(findings: seq<PriorFinding>, a: Ruling, b: Ruling)
    requires forall f :: f in findings ==> (Matches(f, a) <==> Matches(f, b))
    ensures MatchesOf(findings, a) == MatchesOf(findings, b)
  {
    if findings != [] {
      var front, last := findings[..|findings| - 1], findings[|findings| - 1];
      assert findings == front + [last];
      assert forall f :: f in front ==> f in findings;
      SameMatches(front, a, b);
      hide Matches;
    }
  }

  /** The findings labelled by any ruling with this ruling's anchor. */
  function AnchorLabels(decisions: map<nat, Decision>, resolved: seq<ResolvedRuling>, ruling: nat): set<nat>
    requires ruling < |resolved|
  {
    set i | i in decisions && decisions[i].ruling < |resolved| && SameAnchor(resolved[decisions[i].ruling], resolved[ruling])
  }

  /** The findings this ruling is offered to. */
  function OfferedFor(options: seq<seq<nat>>, ruling: nat): set<nat> {
    set i: nat | i < |options| && ruling in options[i]
  }

  /** No other ruling has this one's anchor. */
  ghost predicate OnlyAnchor(resolved: seq<ResolvedRuling>, ruling: nat)
    requires ruling < |resolved|
  {
    forall k: nat :: k < |resolved| && SameAnchor(resolved[k], resolved[ruling]) ==> k == ruling
  }

  /** Offers go by file, and rulings with one anchor were raised for the same findings. */
  ghost predicate ByFile(options: seq<seq<nat>>, resolved: seq<ResolvedRuling>) {
    && Offered(options, resolved)
    && forall k: nat, n: nat :: k < |resolved| && n < |resolved| && SameAnchor(resolved[k], resolved[n]) ==>
         && OfferedFor(options, k) == OfferedFor(options, n)
         && resolved[k].raised == resolved[n].raised && resolved[n].raised != []
  }

  /** An answer that gives each finding of `picks` the ruling it says. */
  function Answering(picks: map<nat, nat>, n: nat): (rows: seq<Answer>) {
    if n == 0 then []
    else
      Answering(picks, n - 1)
      + if n - 1 in picks then [Answer(Some(n - 1), Some([Some(picks[n - 1])]), Some(false))] else []
  }

  lemma {:induction false} AnsweringNames(picks: map<nat, nat>, n: nat, i: nat)
    ensures Naming(Answering(picks, n), i)
         == if i < n && i in picks then [Answer(Some(i), Some([Some(picks[i])]), Some(false))] else []
  {
    hide Naming;
    if n == 0 {
      NothingNames(i);
    } else {
      var last: nat := n - 1;
      AnsweringNames(picks, last, i);
      if last in picks {
        var row := Answer(Some(last), Some([Some(picks[last])]), Some(false));
        assert Answering(picks, n) == Answering(picks, last) + [row];
        OneMoreNamed(Answering(picks, last), row, i);
      } else {
        assert Answering(picks, n) == Answering(picks, last);
      }
    }
  }

  lemma NothingNames(i: nat)
    ensures Naming([], i) == []
  {
  }

  lemma OneMoreNamed(rows: seq<Answer>, last: Answer, i: nat)
    ensures Naming(rows + [last], i) == Naming(rows, i) + if Names(last, i) then [last] else []
  {
    assert (rows + [last])[..|rows|] == rows;
  }

  function Pickers(picks: map<nat, nat>, ruling: nat): set<nat> {
    set i | i in picks && picks[i] == ruling
  }

  lemma AnswerPick(options: seq<seq<nat>>, picks: map<nat, nat>, i: nat)
    requires forall i: nat :: i in picks ==> i < |options| && picks[i] in options[i]
    requires i < |options|
    ensures PickOf(Answering(picks, |options|), options, i) == if i in picks then Some(Pick(picks[i], false)) else None
  {
    AnsweringNames(picks, |options|, i);
    hide Answering, Naming;
  }

  lemma AnswerPickers(options: seq<seq<nat>>, picks: map<nat, nat>, n: nat)
    requires forall i: nat :: i in picks ==> i < |options| && picks[i] in options[i]
    ensures PickedBy(Answering(picks, |options|), options, n) == Pickers(picks, n)
  {
    hide PickOf, Answering;
    var rows := Answering(picks, |options|);
    forall i: nat ensures i in PickedBy(rows, options, n) <==> i in Pickers(picks, n) {
      if i < |options| {
        AnswerPick(options, picks, i);
      }
    }
  }

  /** Every assignment of offered rulings within their capacities is what some answer decides. */
  lemma {:induction false} EveryFittingAssignmentIsDecided(options: seq<seq<nat>>, resolved: seq<ResolvedRuling>, picks: map<nat, nat>)
    requires Offered(options, resolved)
    requires forall i: nat :: i in picks ==> i < |options| && picks[i] in options[i]
    requires forall n: nat :: n < |resolved| ==> |Pickers(picks, n)| <= |resolved[n].raised|
    ensures var decisions := Decisions(Answering(picks, |options|), options, resolved);
            decisions.Keys == picks.Keys && forall i: nat :: i in picks ==> decisions[i].ruling == picks[i]
  {
    hide PickOf, PickedBy, Pickers, Answering, Offered;
    var rows := Answering(picks, |options|);
    forall i: nat ensures i < |options| && Stands(rows, options, resolved, i) <==> i in picks {
      if i < |options| {
        AnswerPick(options, picks, i);
        if i in picks {
          OfferedIs(options, resolved, i, picks[i]);
          AnswerPickers(options, picks, picks[i]);
        }
      }
    }
    hide Stands;
    var decisions := Decisions(rows, options, resolved);
    forall i: nat ensures i in decisions <==> i in picks {
    }
    forall i: nat | i in picks ensures decisions[i].ruling == picks[i] {
      AnswerPick(options, picks, i);
    }
  }

  lemma OfferedIs(options: seq<seq<nat>>, resolved: seq<ResolvedRuling>, i: nat, n: nat)
    requires Offered(options, resolved) && i < |options| && n in options[i]
    ensures n < |resolved|
  {
  }

  lemma {:induction false} SubsetOfSize(s: set<nat>, n: nat) returns (t: set<nat>)
    requires n <= |s|
    ensures t <= s && |t| == n
  {
    if n == |s| {
      t := s;
    } else {
      var x := SomeOf(s);
      t := SubsetOfSize(s - {x}, n);
    }
  }

  lemma SomeOf(s: set<nat>) returns (x: nat)
    requires |s| > 0
    ensures x in s
  {
    x :| x in s;
  }

  lemma LabelsAreOffered(rows: seq<Answer>, options: seq<seq<nat>>, resolved: seq<ResolvedRuling>, ruling: nat)
    requires ByFile(options, resolved) && ruling < |resolved|
    ensures AnchorLabels(Decisions(rows, options, resolved), resolved, ruling) <= OfferedFor(options, ruling)
  {
    hide Naming, SameAnchor, PickedBy;
    var decisions := Decisions(rows, options, resolved);
    forall i | i in AnchorLabels(decisions, resolved, ruling) ensures i in OfferedFor(options, ruling) {
      assert PickOf(rows, options, i).value.ruling in options[i];
      assert i in OfferedFor(options, decisions[i].ruling);
    }
  }

  lemma OnlyAnchorIsCapped(rows: seq<Answer>, options: seq<seq<nat>>, resolved: seq<ResolvedRuling>, ruling: nat)
    requires ruling < |resolved| && OnlyAnchor(resolved, ruling)
    ensures |AnchorLabels(Decisions(rows, options, resolved), resolved, ruling)| <= |resolved[ruling].raised|
  {
    hide Stands, Decisions, SameAnchor, PickedBy;
    var decisions := Decisions(rows, options, resolved);
    CapacityHolds(rows, options, resolved, ruling);
    assert AnchorLabels(decisions, resolved, ruling) <= Labelled(decisions, ruling);
    SubsetCardinality(AnchorLabels(decisions, resolved, ruling), Labelled(decisions, ruling));
  }

  /** With a second ruling on one anchor and a finding to spare, some answer labels more than were stored. */
  lemma SharedAnchorOverflows(options: seq<seq<nat>>, resolved: seq<ResolvedRuling>, ruling: nat, other: nat) returns (rows: seq<Answer>)
    requires ByFile(options, resolved) && ruling < |resolved| && other < |resolved| && other != ruling
    requires SameAnchor(resolved[other], resolved[ruling]) && SameAnchor(resolved[ruling], resolved[ruling])
    requires |OfferedFor(options, ruling)| > |resolved[ruling].raised|
    ensures |AnchorLabels(Decisions(rows, options, resolved), resolved, ruling)| > |resolved[ruling].raised|
  {
    hide SameAnchor, Decisions, AnchorLabels, Offered;
    var offered, room := OfferedFor(options, ruling), |resolved[ruling].raised|;
    assert offered == OfferedFor(options, other);
    var own := SubsetOfSize(offered, room);
    var spare := SomeOf(offered - own);
    var picks := SharedPicks(own, spare, ruling, other);
    assert |resolved[other].raised| == room >= 1;
    EveryFittingAssignmentIsDecided(options, resolved, picks);
    rows := Answering(picks, |options|);
    AllShareTheAnchor(Decisions(rows, options, resolved), resolved, picks, ruling, other);
  }

  /** One ruling for as many findings as it may label, the other for one more. */
  lemma SharedPicks(own: set<nat>, spare: nat, ruling: nat, other: nat) returns (picks: map<nat, nat>)
    requires spare !in own && ruling != other
    ensures picks.Keys == own + {spare} && |picks.Keys| == |own| + 1
    ensures forall i: nat :: i in picks ==> picks[i] == ruling || picks[i] == other
    ensures forall n: nat :: |Pickers(picks, n)| == if n == ruling then |own| else if n == other then 1 else 0
  {
    picks := map i | i in own + {spare} :: if i == spare then other else ruling;
    forall n: nat ensures Pickers(picks, n) == if n == ruling then own else if n == other then {spare} else {} {
      PickersAre(picks, own, spare, ruling, other, n);
    }
  }

  lemma PickersAre(picks: map<nat, nat>, own: set<nat>, spare: nat, ruling: nat, other: nat, n: nat)
    requires spare !in own && ruling != other
    requires picks == map i | i in own + {spare} :: if i == spare then other else ruling
    ensures Pickers(picks, n) == if n == ruling then own else if n == other then {spare} else {}
  {
    forall i: nat ensures i in Pickers(picks, n) <==> (n == ruling && i in own) || (n == other && i == spare) {
      if i in picks {
        assert picks[i] == if i == spare then other else ruling;
      }
    }
  }

  lemma AllShareTheAnchor(decisions: map<nat, Decision>, resolved: seq<ResolvedRuling>, picks: map<nat, nat>, ruling: nat, other: nat)
    requires ruling < |resolved| && other < |resolved| && decisions.Keys == picks.Keys
    requires SameAnchor(resolved[other], resolved[ruling]) && SameAnchor(resolved[ruling], resolved[ruling])
    requires forall i: nat :: i in picks ==> decisions[i].ruling == picks[i] && (picks[i] == ruling || picks[i] == other)
    ensures AnchorLabels(decisions, resolved, ruling) == picks.Keys
  {
    hide SameAnchor;
    forall i: nat ensures i in AnchorLabels(decisions, resolved, ruling) <==> i in picks {
    }
  }

  /**
    The bound per stored finding: the rulings on one anchor together label no more findings than were
    stored under it, whatever the answer, exactly when they are one ruling or there are too few findings.
   */
  lemma StoredFindingsBoundExactlyWhen(options: seq<seq<nat>>, resolved: seq<ResolvedRuling>, ruling: nat)
    requires ByFile(options, resolved) && ruling < |resolved| && SameAnchor(resolved[ruling], resolved[ruling])
    ensures (forall rows :: |AnchorLabels(Decisions(rows, options, resolved), resolved, ruling)| <= |resolved[ruling].raised|)
            <==> OnlyAnchor(resolved, ruling) || |OfferedFor(options, ruling)| <= |resolved[ruling].raised|
  {
    hide SameAnchor, Decisions, AnchorLabels, OfferedFor, ByFile;
    if OnlyAnchor(resolved, ruling) || |OfferedFor(options, ruling)| <= |resolved[ruling].raised| {
      forall rows ensures |AnchorLabels(Decisions(rows, options, resolved), resolved, ruling)| <= |resolved[ruling].raised| {
        if OnlyAnchor(resolved, ruling) {
          OnlyAnchorIsCapped(rows, options, resolved, ruling);
        } else {
          LabelsAreOffered(rows, options, resolved, ruling);
          SubsetCardinality(AnchorLabels(Decisions(rows, options, resolved), resolved, ruling), OfferedFor(options, ruling));
        }
      }
    } else {
      var other: nat :| other < |resolved| && SameAnchor(resolved[other], resolved[ruling]) && other != ruling;
      var rows := SharedAnchorOverflows(options, resolved, ruling, other);
    }
  }

  // --------------------------------------------------------- _carry_decisions

  /** Each finding's first answer, and which were answered again. */
  ghost predicate Gathered(rows: seq<Answer>, options: seq<seq<nat>>, first: map<nat, Option<Pick>>, twice: set<nat>) {
    && (forall i: nat :: i in first <==> i < |options| && |Naming(rows, i)| > 0)
    && (forall i: nat :: i in first ==> i < |options| && first[i] == PickIn(Naming(rows, i)[0], options[i]))
    && (forall i: nat :: i in twice <==> i < |options| && |Naming(rows, i)| > 1)
  }

  lemma GatherOne(rows: seq<Answer>, last: Answer, i: nat)
    ensures Naming(rows + [last], i) == Naming(rows, i) + if Names(last, i) then [last] else []
  {
    assert (rows + [last])[..|rows|] == rows;
  }

  method Gather(rows: seq<Answer>, options: seq<seq<nat>>) returns (first: map<nat, Option<Pick>>, twice: set<nat>)
    ensures Gathered(rows, options, first, twice)
  {
    hide PickIn, Naming;
    first, twice := map[], {};
    for k := 0 to |rows|
      invariant Gathered(rows[..k], options, first, twice)
    {
      var row := rows[k];
      assert rows[..k + 1] == rows[..k] + [row];
      forall i: nat ensures Naming(rows[..k + 1], i) == Naming(rows[..k], i) + if Names(row, i) then [row] else [] {
        GatherOne(rows[..k], row, i);
      }
      if row.Answer? && row.finding.Some? && 0 <= row.finding.value < |options| {
        var i: nat := row.finding.value;
        if i in first {
          twice := twice + {i};
        } else {
          first := first[i := PickIn(row, options[i])];
        }
      }
    }
    assert rows[..|rows|] == rows;
  }

  /** The decisions left once rulings picked more often than they have findings lose every pick. */
  function Withdrawn(decisions: map<nat, Decision>, pickedBy: map<nat, set<nat>>, resolved: seq<ResolvedRuling>): map<nat, Decision> {
    map i | i in decisions && decisions[i].ruling < |resolved|
            && |PickersOf(pickedBy, decisions[i].ruling)| <= |resolved[decisions[i].ruling].raised| :: decisions[i]
  }

  function PickedUpTo(rows: seq<Answer>, options: seq<seq<nat>>, ruling: nat, n: nat): set<nat>
    requires n <= |options|
  {
    set i: nat | i < n && PickOf(rows, options, i).Some? && PickOf(rows, options, i).value.ruling == ruling
  }

  function PickersOf(pickedBy: map<nat, set<nat>>, ruling: nat): set<nat> {
    if ruling in pickedBy then pickedBy[ruling] else {}
  }

  function DecisionFor(pick: Pick, resolved: seq<ResolvedRuling>): Decision
    requires pick.ruling < |resolved|
  {
    Decision(OutcomeOf(pick, resolved[pick.ruling].ruling.changed), pick.ruling)
  }

  /** The picks of the first `n` findings, before any is withdrawn. */
  ghost predicate Decided(rows: seq<Answer>, options: seq<seq<nat>>, resolved: seq<ResolvedRuling>, n: nat,
                          decisions: map<nat, Decision>, pickedBy: map<nat, set<nat>>)
  {
    && n <= |options|
    && (forall i: nat :: i in decisions <==> i < n && PickOf(rows, options, i).Some?)
    && (forall i: nat :: i in decisions ==>
          var pick := PickOf(rows, options, i).value; pick.ruling < |resolved| && decisions[i] == DecisionFor(pick, resolved))
    && (forall ruling: nat :: PickersOf(pickedBy, ruling) == PickedUpTo(rows, options, ruling, n))
  }

  lemma PickIsOffered(rows: seq<Answer>, options: seq<seq<nat>>, resolved: seq<ResolvedRuling>, i: nat)
    requires Offered(options, resolved) && i < |options|
    ensures PickOf(rows, options, i).Some? ==> PickOf(rows, options, i).value.ruling in options[i] && PickOf(rows, options, i).value.ruling < |resolved|
  {
    hide Naming;
  }

  lemma DecideOne(rows: seq<Answer>, options: seq<seq<nat>>, resolved: seq<ResolvedRuling>, n: nat,
                                     decisions: map<nat, Decision>, pickedBy: map<nat, set<nat>>)
    requires Decided(rows, options, resolved, n, decisions, pickedBy) && n < |options| && Offered(options, resolved)
    ensures var pick := PickOf(rows, options, n);
            && (pick.None? ==> Decided(rows, options, resolved, n + 1, decisions, pickedBy))
            && (pick.Some? ==>
                  pick.value.ruling < |resolved|
                  && Decided(rows, options, resolved, n + 1, decisions[n := DecisionFor(pick.value, resolved)],
                             pickedBy[pick.value.ruling := PickersOf(pickedBy, pick.value.ruling) + {n}]))
  {
    PickIsOffered(rows, options, resolved, n);
    hide PickOf, DecisionFor, Offered;
    var pick := PickOf(rows, options, n);
    forall ruling: nat
      ensures PickedUpTo(rows, options, ruling, n + 1)
           == PickedUpTo(rows, options, ruling, n) + if pick.Some? && pick.value.ruling == ruling then {n} else {}
    {
    }
    if pick.Some? {
      var chosen := pick.value.ruling;
      var more := pickedBy[chosen := PickersOf(pickedBy, chosen) + {n}];
      forall ruling: nat ensures PickersOf(more, ruling) == PickedUpTo(rows, options, ruling, n + 1) {
        assert PickersOf(pickedBy, ruling) == PickedUpTo(rows, options, ruling, n);
      }
    } else {
      forall ruling: nat ensures PickersOf(pickedBy, ruling) == PickedUpTo(rows, options, ruling, n + 1) {
        assert PickersOf(pickedBy, ruling) == PickedUpTo(rows, options, ruling, n);
      }
    }
  }

  /** Validated picks; None when the answer holds no list of rows. */
  method CarryDecisions(answer: Option<seq<Answer>>, options: seq<seq<nat>>, resolved: seq<ResolvedRuling>)
    returns (r: Option<map<nat, Decision>>)
    requires Offered(options, resolved)
    ensures r.Some? <==> answer.Some?
    ensures r.Some? ==> r.value == Decisions(answer.value, options, resolved)
  {
    if answer.None? {
      return None;
    }
    hide PickOf, Gathered, Decided, DecisionFor, Offered, Decisions, Withdrawn, PickersOf, PickIn;
    ghost var rows := answer.value;
    var first, twice := Gather(answer.value, options);
    var decisions: map<nat, Decision>, pickedBy: map<nat, set<nat>> := map[], map[];
    for i := 0 to |options|
      invariant Decided(rows, options, resolved, i, decisions, pickedBy)
    {
      DecideOne(rows, options, resolved, i, decisions, pickedBy);
      if i in first && first[i].Some? && i !in twice {
        var pick := first[i].value;
        decisions := decisions[i := DecisionFor(pick, resolved)];
        pickedBy := pickedBy[pick.ruling := PickersOf(pickedBy, pick.ruling) + {i}];
      }
    }
    DecidedAll(rows, options, resolved, decisions, pickedBy);
    return Some(Withdrawn(decisions, pickedBy, resolved));
  }

  /** Withdrawing the picks of rulings picked too often leaves exactly the decisions. */
  lemma DecidedAll(rows: seq<Answer>, options: seq<seq<nat>>, resolved: seq<ResolvedRuling>,
                                      decisions: map<nat, Decision>, pickedBy: map<nat, set<nat>>)
    requires Decided(rows, options, resolved, |options|, decisions, pickedBy)
    ensures Withdrawn(decisions, pickedBy, resolved) == Decisions(rows, options, resolved)
  {
    hide PickOf;
    forall ruling: nat ensures PickersOf(pickedBy, ruling) == PickedBy(rows, options, ruling) {
      assert PickedUpTo(rows, options, ruling, |options|) == PickedBy(rows, options, ruling);
    }
    hide PickersOf, PickedBy, PickedUpTo;
    forall i: nat ensures i in Decisions(rows, options, resolved) <==>
                            i in decisions && |PickersOf(pickedBy, decisions[i].ruling)| <= |resolved[decisions[i].ruling].raised|
                  ensures i in Decisions(rows, options, resolved) ==> Decisions(rows, options, resolved)[i] == decisions[i]
    {
    }
  }

  // -------------------------------------------------------------- end to end

  /** A finding of this read; `file` is None or empty when it names none. */
  datatype Finding = Finding(rule: string, file: Option<string>)

  datatype Offer = Offer(finding: nat, file: string, rulings: seq<nat>)

  /** The rulings anchored to this file, in order. */
  function RulingsOn(resolved: seq<ResolvedRuling>, file: string, n: nat): (r: seq<nat>)
    requires n <= |resolved|
    ensures forall k: nat :: k in r <==> k < n && resolved[k].file == file
  {
    if n == 0 then []
    else
      var front := RulingsOn(resolved, file, n - 1);
      var last: nat := n - 1;
      assert forall k: nat :: k in front + [last] <==> k in front || k == last;
      if resolved[last].file == file then front + [last] else front
  }

  /** A reader finding on a file whose hunks this read indexed. */
  predicate IsCandidate(f: Finding, indexed: set<string>) {
    StartsWith(f.rule, RULE_PREFIX) && f.file.Some? && f.file.value != "" && f.file.value in indexed
  }

  /** The rulings a finding may repeat. */
  function OfferedTo(f: Finding, indexed: set<string>, resolved: seq<ResolvedRuling>): seq<nat> {
    if IsCandidate(f, indexed) then RulingsOn(resolved, f.file.value, |resolved|) else []
  }

  ghost predicate IsOffer(o: Offer, findings: seq<Finding>, indexed: set<string>, resolved: seq<ResolvedRuling>) {
    && o.finding < |findings| && findings[o.finding].file == Some(o.file)
    && o.rulings == OfferedTo(findings[o.finding], indexed, resolved) && o.rulings != []
  }

  /** `indexed` are the files with at least one stored hunk. */
  method Offers(findings: seq<Finding>, indexed: set<string>, resolved: seq<ResolvedRuling>) returns (offers: seq<Offer>)
    ensures forall k :: 0 <= k < |offers| ==> IsOffer(offers[k], findings, indexed, resolved)
    ensures forall k, l :: 0 <= k < l < |offers| ==> offers[k].finding < offers[l].finding
    ensures forall f: nat :: f < |findings| && OfferedTo(findings[f], indexed, resolved) != [] ==>
              exists k :: 0 <= k < |offers| && offers[k].finding == f
  {
    hide OfferedTo;
    offers := [];
    for f := 0 to |findings|
      invariant forall k :: 0 <= k < |offers| ==> IsOffer(offers[k], findings, indexed, resolved) && offers[k].finding < f
      invariant forall k, l :: 0 <= k < l < |offers| ==> offers[k].finding < offers[l].finding
      invariant forall g: nat :: g < f && OfferedTo(findings[g], indexed, resolved) != [] ==>
                  exists k :: 0 <= k < |offers| && offers[k].finding == g
    {
      CandidateHasFile(findings[f], indexed, resolved);
      var sameFile := OfferedTo(findings[f], indexed, resolved);
      if sameFile != [] {
        ghost var before := offers;
        offers := offers + [Offer(f, findings[f].file.value, sameFile)];
        assert offers[|before|].finding == f && forall k :: 0 <= k < |before| ==> offers[k] == before[k];
      }
    }
  }

  lemma CandidateHasFile(f: Finding, indexed: set<string>, resolved: seq<ResolvedRuling>)
    ensures OfferedTo(f, indexed, resolved) != [] ==> f.file.Some?
  {
  }

  function OptionsOf(offers: seq<Offer>): (r: seq<seq<nat>>)
    ensures |r| == |offers| && forall k :: 0 <= k < |r| ==> r[k] == offers[k].rulings
  {
    seq(|offers|, k requires 0 <= k < |offers| => offers[k].rulings)
  }

  /**
    What a label on a finding rests on: one of the block's own rulings, anchored to one stored read and to
    findings that read stored under the same rule on this very file; carried only for unchanged code.
   */
  ghost predicate Grounded(d: Decision, f: Finding, rulings: seq<Ruling>, stored: Reads, resolved: seq<ResolvedRuling>) {
    && d.ruling < |resolved|
    && var rr := resolved[d.ruling];
       && rr.ruling in rulings && rr.headSha in stored && OnlyRead(stored, rr.ruling.read, rr.headSha)
       && f.file == Some(rr.file) && OnlyFile(stored[rr.headSha], rr.ruling, rr.file)
       && rr.raised == Labels(MatchesOf(stored[rr.headSha], rr.ruling))
       && (d.outcome == RaisedAgain <==> rr.ruling.changed)
  }

  lemma DecisionIsGrounded(block: Block, stored: Reads, findings: seq<Finding>, indexed: set<string>,
                                              offers: seq<Offer>, rows: seq<Answer>, i: nat)
    requires var resolved := KeptOf(block.rulings, stored);
             && (forall k :: 0 <= k < |offers| ==> IsOffer(offers[k], findings, indexed, resolved))
             && i in Decisions(rows, OptionsOf(offers), resolved)
    ensures i < |offers| && offers[i].finding < |findings|
    ensures var resolved := KeptOf(block.rulings, stored);
            Grounded(Decisions(rows, OptionsOf(offers), resolved)[i], findings[offers[i].finding], block.rulings, stored, resolved)
  {
    hide Anchor, Naming, OnlyRead, OnlyFile, MatchesOf, Labels, KeptOf, IsCandidate;
    var resolved := KeptOf(block.rulings, stored);
    var d := Decisions(rows, OptionsOf(offers), resolved)[i];
    var rr := resolved[d.ruling];
    assert d.ruling in offers[i].rulings;
    KeptIsAnchored(block.rulings, stored, rr);
    AnchorsExactlyWhen(rr.ruling, stored, rr);
  }

  lemma OffersAreOffered(offers: seq<Offer>, findings: seq<Finding>, indexed: set<string>, resolved: seq<ResolvedRuling>)
    requires forall k :: 0 <= k < |offers| ==> IsOffer(offers[k], findings, indexed, resolved)
    ensures Offered(OptionsOf(offers), resolved)
  {
  }

  /** The offers of a pass go by file, so the exact condition above speaks of every pass. */
  lemma OffersGoByFile(block: Block, stored: Reads, findings: seq<Finding>, indexed: set<string>, offers: seq<Offer>)
    requires forall k :: 0 <= k < |offers| ==> IsOffer(offers[k], findings, indexed, KeptOf(block.rulings, stored))
    ensures ByFile(OptionsOf(offers), KeptOf(block.rulings, stored))
    ensures forall n: nat :: n < |KeptOf(block.rulings, stored)| ==>
              SameAnchor(KeptOf(block.rulings, stored)[n], KeptOf(block.rulings, stored)[n])
  {
    hide Anchor, KeptOf, IsCandidate, SameRule, Slug;
    var resolved, options := KeptOf(block.rulings, stored), OptionsOf(offers);
    OffersAreOffered(offers, findings, indexed, resolved);
    forall k: nat, n: nat | k < |resolved| && n < |resolved| && SameAnchor(resolved[k], resolved[n])
      ensures OfferedFor(options, k) == OfferedFor(options, n)
      ensures resolved[k].raised == resolved[n].raised && resolved[n].raised != []
    {
      KeptIsAnchored(block.rulings, stored, resolved[k]);
      KeptIsAnchored(block.rulings, stored, resolved[n]);
      SameAnchorSameFindings(stored, resolved[k], resolved[n]);
      forall i: nat | i < |offers| ensures k in options[i] <==> n in options[i] {
        SameFileSameOffer(offers[i], findings, indexed, resolved, k, n);
      }
    }
    forall n: nat | n < |resolved| ensures SameAnchor(resolved[n], resolved[n]) {
      KeptIsAnchored(block.rulings, stored, resolved[n]);
      AnchorsExactlyWhen(resolved[n].ruling, stored, resolved[n]);
      RuleIsItself(resolved[n].ruling.rule);
    }
  }

  lemma RuleIsItself(rule: string)
    requires StartsWith(rule, RULE_PREFIX)
    ensures SameRule(rule, rule)
  {
  }

  lemma SameFileSameOffer(o: Offer, findings: seq<Finding>, indexed: set<string>, resolved: seq<ResolvedRuling>, k: nat, n: nat)
    requires IsOffer(o, findings, indexed, resolved) && k < |resolved| && n < |resolved| && resolved[k].file == resolved[n].file
    ensures k in o.rulings <==> n in o.rulings
  {
  }

  /** The whole pass, from the block and the stored reads to the labels on this read's findings. */
  method CarryFindings(block: Block, stored: Reads, findings: seq<Finding>, indexed: set<string>, answer: Option<seq<Answer>>)
    returns (resolved: Resolved, labels: map<nat, Decision>, carried: nat, offers: seq<Offer>)
    ensures resolved.rulings == KeptOf(block.rulings, stored)
    ensures AreOffers(offers, findings, indexed, resolved.rulings)
    ensures answer.Some? ==> forall i: nat, n: nat :: i < |offers| && n < |resolved.rulings| ==>
              LabelledAsAnswered(labels, answer.value, offers, resolved.rulings, i, n)
    ensures forall f: nat :: f in labels ==> exists i: nat :: i < |offers| && offers[i].finding == f
    ensures carried == |set f | f in labels && labels[f].outcome == Carried|
    ensures forall f: nat :: f in labels ==>
              f < |findings| && Grounded(labels[f], findings[f], block.rulings, stored, resolved.rulings)
    ensures forall n: nat :: n < |resolved.rulings| ==> |Labelled(labels, n)| <= |resolved.rulings[n].raised|
    ensures answer.None? ==> labels == map[]
  {
    hide KeptOf, Grounded, IsOffer, Decisions, Labelled, Offered, LabelledAsAnswered, CarriedIn, AreOffers;
    resolved := Resolve(block, stored);
    labels, carried := map[], 0;
    NothingLabelled();
    CarriedAre(labels);
    offers := Offers(findings, indexed, resolved.rulings);
    OffersAreOffered(offers, findings, indexed, resolved.rulings);
    OffersAreRight(offers, findings, indexed, resolved.rulings);
    var decided := CarryDecisions(answer, OptionsOf(offers), resolved.rulings);
    if decided.Some? {
      ghost var rows := answer.value;
      forall i | i in decided.value
        ensures i < |offers| && offers[i].finding < |findings|
        ensures Grounded(decided.value[i], findings[offers[i].finding], block.rulings, stored, resolved.rulings)
      {
        DecisionIsGrounded(block, stored, findings, indexed, offers, rows, i);
      }
      labels := Attach(offers, decided.value);
      carried := |CarriedIn(decided.value)|;
      AttachKeepsCarried(offers, decided.value, labels);
      CarriedAre(labels);
      forall i: nat, n: nat | i < |offers| && n < |resolved.rulings|
        ensures LabelledAsAnswered(labels, rows, offers, resolved.rulings, i, n)
      {
        AttachedAsAnswered(labels, rows, offers, resolved.rulings, i, n);
      }
      forall n: nat | n < |resolved.rulings| ensures |Labelled(labels, n)| <= |resolved.rulings[n].raised| {
        CapacityHolds(rows, OptionsOf(offers), resolved.rulings, n);
        AttachKeepsCount(offers, decided.value, labels, n);
      }
    }
  }

  /** A reader finding on an indexed file to which some ruling is anchored. */
  ghost predicate MayCarry(f: Finding, indexed: set<string>, resolved: seq<ResolvedRuling>) {
    && (exists slug :: f.rule == "reader:" + slug)
    && f.file.Some? && f.file.value != "" && f.file.value in indexed
    && exists n :: 0 <= n < |resolved| && resolved[n].file == f.file.value
  }

  /** Each finding that may carry is offered once, in order, and with all the rulings on its file. */
  ghost predicate AreOffers(offers: seq<Offer>, findings: seq<Finding>, indexed: set<string>, resolved: seq<ResolvedRuling>) {
    && (forall k :: 0 <= k < |offers| ==>
          && offers[k].finding < |findings| && MayCarry(findings[offers[k].finding], indexed, resolved)
          && findings[offers[k].finding].file == Some(offers[k].file)
          && forall n: nat :: n in offers[k].rulings <==> n < |resolved| && resolved[n].file == offers[k].file)
    && (forall k, l :: 0 <= k < l < |offers| ==> offers[k].finding < offers[l].finding)
    && (forall f: nat :: f < |findings| && MayCarry(findings[f], indexed, resolved) ==> exists k :: 0 <= k < |offers| && offers[k].finding == f)
  }

  lemma MayCarryIsOffered(f: Finding, indexed: set<string>, resolved: seq<ResolvedRuling>)
    ensures MayCarry(f, indexed, resolved) <==> OfferedTo(f, indexed, resolved) != []
    ensures OfferedTo(f, indexed, resolved) != [] ==>
              f.file.Some? && forall n: nat :: n in OfferedTo(f, indexed, resolved) <==> n < |resolved| && resolved[n].file == f.file.value
  {
    hide RulingsOn;
    ReaderRule(f.rule);
    if f.file.Some? {
      var on := RulingsOn(resolved, f.file.value, |resolved|);
      if on != [] {
        assert on[0] in on;
        assert resolved[on[0]].file == f.file.value;
      }
      if n :| 0 <= n < |resolved| && resolved[n].file == f.file.value {
        var k: nat := n;
        assert k in on;
      }
    }
  }

  lemma ReaderRule(rule: string)
    ensures StartsWith(rule, RULE_PREFIX) <==> exists slug :: rule == "reader:" + slug
  {
    if StartsWith(rule, RULE_PREFIX) {
      assert rule == "reader:" + rule[|RULE_PREFIX|..];
    }
    forall slug | rule == "reader:" + slug ensures StartsWith(rule, RULE_PREFIX) {
      assert rule[..|RULE_PREFIX|] == RULE_PREFIX;
    }
  }

  lemma OffersAreRight(offers: seq<Offer>, findings: seq<Finding>, indexed: set<string>, resolved: seq<ResolvedRuling>)
    requires forall k :: 0 <= k < |offers| ==> IsOffer(offers[k], findings, indexed, resolved)
    requires forall k, l :: 0 <= k < l < |offers| ==> offers[k].finding < offers[l].finding
    requires forall f: nat :: f < |findings| && OfferedTo(findings[f], indexed, resolved) != [] ==>
               exists k :: 0 <= k < |offers| && offers[k].finding == f
    ensures AreOffers(offers, findings, indexed, resolved)
  {
    hide OfferedTo, MayCarry;
    forall f: nat | f < |findings| ensures MayCarry(findings[f], indexed, resolved) <==> OfferedTo(findings[f], indexed, resolved) != [] {
      MayCarryIsOffered(findings[f], indexed, resolved);
    }
    forall k | 0 <= k < |offers|
      ensures forall n: nat :: n in offers[k].rulings <==> n < |resolved| && resolved[n].file == offers[k].file
    {
      assert IsOffer(offers[k], findings, indexed, resolved);
      MayCarryIsOffered(findings[offers[k].finding], indexed, resolved);
    }
  }

  /**
    An offer's finding is labelled with a ruling exactly when one row alone names the offer, chooses that
    ruling of those offered, and it is chosen for no more findings than it raised; the label says what the
    author did and what the model found.
   */
  ghost predicate LabelledAsAnswered(labels: map<nat, Decision>, rows: seq<Answer>, offers: seq<Offer>,
                                     resolved: seq<ResolvedRuling>, i: nat, n: nat)
    requires i < |offers| && n < |resolved|
  {
    var f, offered, options := offers[i].finding, offers[i].rulings, OptionsOf(offers);
    && (f in labels && labels[f].ruling == n <==>
          ChoosesEitherWay(rows, offered, i, n) && |Choosers(rows, options, n)| <= |resolved[n].raised|)
    && (f in labels && labels[f].ruling == n ==>
          labels[f].outcome == if resolved[n].ruling.changed then RaisedAgain
                               else if Chooses(rows, offered, i, n, true) then BasisChanged else Carried)
  }

  /** The findings that carry; only these are counted. */
  function CarriedIn(labels: map<nat, Decision>): set<nat> {
    set f | f in labels && labels[f].outcome == Carried
  }

  lemma AttachedAsAnswered(labels: map<nat, Decision>, rows: seq<Answer>, offers: seq<Offer>, resolved: seq<ResolvedRuling>, i: nat, n: nat)
    requires Offered(OptionsOf(offers), resolved) && i < |offers| && n < |resolved|
    requires forall k, l :: 0 <= k < l < |offers| ==> offers[k].finding < offers[l].finding
    requires var decisions := Decisions(rows, OptionsOf(offers), resolved);
             && (forall f :: f in labels ==>
                   exists k: nat :: k < |offers| && k in decisions && offers[k].finding == f && labels[f] == decisions[k])
             && (forall k: nat :: k in decisions ==> k < |offers| && offers[k].finding in labels && labels[offers[k].finding] == decisions[k])
    ensures LabelledAsAnswered(labels, rows, offers, resolved, i, n)
  {
    hide Decisions, Offered, Chooses, ChoosesEitherWay, Choosers;
    DecidedExactlyWhen(rows, OptionsOf(offers), resolved, i, n);
    var decisions := Decisions(rows, OptionsOf(offers), resolved);
    if offers[i].finding in labels {
      var k: nat :| k < |offers| && k in decisions && offers[k].finding == offers[i].finding && labels[offers[i].finding] == decisions[k];
      assert k == i;
    }
  }

  lemma NothingLabelled()
    ensures forall n: nat :: Labelled(map[], n) == {}
    ensures CarriedIn(map[]) == {}
  {
  }

  /** Each decision goes to its own offer's finding. */
  method Attach(offers: seq<Offer>, decisions: map<nat, Decision>) returns (labels: map<nat, Decision>)
    requires forall i :: i in decisions ==> i < |offers|
    requires forall k, l :: 0 <= k < l < |offers| ==> offers[k].finding < offers[l].finding
    ensures forall f :: f in labels ==> exists i: nat :: i < |offers| && i in decisions && offers[i].finding == f && labels[f] == decisions[i]
    ensures forall i: nat :: i in decisions ==> offers[i].finding in labels && labels[offers[i].finding] == decisions[i]
  {
    labels := map[];
    for i := 0 to |offers|
      invariant forall f :: f in labels ==> exists k: nat :: k < i && k in decisions && offers[k].finding == f && labels[f] == decisions[k]
      invariant forall k: nat :: k < i && k in decisions ==> offers[k].finding in labels && labels[offers[k].finding] == decisions[k]
    {
      if i in decisions {
        labels := labels[offers[i].finding := decisions[i]];
      }
    }
  }

  lemma CarriedAre(labels: map<nat, Decision>)
    ensures CarriedIn(labels) == set f | f in labels && labels[f].outcome == Carried
  {
  }

  lemma AttachKeepsCarried(offers: seq<Offer>, decisions: map<nat, Decision>, labels: map<nat, Decision>)
    requires forall i :: i in decisions ==> i < |offers|
    requires forall k, l :: 0 <= k < l < |offers| ==> offers[k].finding < offers[l].finding
    requires forall f :: f in labels ==> exists i: nat :: i < |offers| && i in decisions && offers[i].finding == f && labels[f] == decisions[i]
    requires forall i: nat :: i in decisions ==> offers[i].finding in labels && labels[offers[i].finding] == decisions[i]
    ensures |CarriedIn(labels)| == |CarriedIn(decisions)|
  {
    var from, to := CarriedIn(decisions), CarriedIn(labels);
    var place := map i | i in from :: offers[i].finding;
    forall f | f in to ensures exists i :: i in from && place[i] == f {
      var i: nat :| i < |offers| && i in decisions && offers[i].finding == f && labels[f] == decisions[i];
      assert i in from && place[i] == f;
    }
    BijectionCardinality(from, to, place);
  }

  lemma AttachKeepsCount(offers: seq<Offer>, decisions: map<nat, Decision>, labels: map<nat, Decision>, ruling: nat)
    requires forall i :: i in decisions ==> i < |offers|
    requires forall k, l :: 0 <= k < l < |offers| ==> offers[k].finding < offers[l].finding
    requires forall f :: f in labels ==> exists i: nat :: i < |offers| && i in decisions && offers[i].finding == f && labels[f] == decisions[i]
    requires forall i: nat :: i in decisions ==> offers[i].finding in labels && labels[offers[i].finding] == decisions[i]
    ensures |Labelled(labels, ruling)| == |Labelled(decisions, ruling)|
  {
    var from, to := Labelled(decisions, ruling), Labelled(labels, ruling);
    var place := map i | i in from :: offers[i].finding;
    forall f | f in to ensures exists i :: i in from && place[i] == f {
      var i: nat :| i < |offers| && i in decisions && offers[i].finding == f && labels[f] == decisions[i];
      assert i in from && place[i] == f;
    }
    BijectionCardinality(from, to, place);
  }
}
