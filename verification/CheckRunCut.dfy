/** The cut an oversized check-run summary takes (api/doug/check_run.py). */
module CheckRunCut {
  // It fits the cap, leaves no fold open, ends on a whole line and says how many findings it removed.

  import opened Common

  const SUMMARY_LIMIT: nat := 60000
  const OPEN: string := "<details>"
  const CLOSE: string := "</details>"
  const SUMMARY_END: string := "</summary>"
  const LEAD: string := "Truncated: this check run" + " exceeded GitHub's summary limit."
  const NOTICE: string := "\n\n_" + LEAD + "_"

  // --------------------------------------------------------- text operations

  /** The occurrences of a pattern that cannot overlap itself. */
  function Count(s: string, pattern: string): nat {
    if s == "" then 0 else (if StartsWith(s, pattern) then 1 else 0) + Count(s[1..], pattern)
  }

  function FirstIndex(s: string, pattern: string): (r: Option<nat>)
    ensures r.Some? ==> r.value + |pattern| <= |s| && s[r.value..r.value + |pattern|] == pattern
  {
    if StartsWith(s, pattern) then Some(0)
    else if s == "" then None
    else match FirstIndex(s[1..], pattern) case None => None case Some(k) => Some(k + 1)
  }

  function LastIndex(s: string, pattern: string): (r: Option<nat>)
    ensures r.Some? ==> r.value + |pattern| <= |s| && s[r.value..r.value + |pattern|] == pattern
  {
    if s == "" then if pattern == "" then Some(0) else None
    else
      match LastIndex(s[1..], pattern)
      case Some(k) => Some(k + 1)
      case None => if StartsWith(s, pattern) then Some(0) else None
  }

  function LastNewline(s: string): (r: Option<nat>)
    ensures r.Some? ==> r.value < |s| && s[r.value] == '\n'
    ensures r.None? <==> '\n' !in s
  {
    if s == "" then None
    else if s[|s| - 1] == '\n' then Some(|s| - 1)
    else
      assert s == s[..|s| - 1] + [s[|s| - 1]];
      LastNewline(s[..|s| - 1])
  }

  function StripNewlines(s: string): (r: string)
    ensures |r| <= |s| && r == s[..|r|]
    ensures |r| < |s| ==> s[|r|] == '\n'
  {
    if s != "" && s[|s| - 1] == '\n' then StripNewlines(s[..|s| - 1]) else s
  }

  predicate IsBlank(s: string) { forall k :: 0 <= k < |s| ==> IsSpace(s[k]) }

  // ------------------------------------------------------------------ the cut

  /** _whole_lines. */
  function WholeLines(body: string, cut: nat): (kept: string)
    ensures |kept| <= |body| && kept == body[..|kept|]
    ensures cut < |body| ==> |kept| <= cut
  {
    if cut >= |body| then body
    else if body[cut] == '\n' then body[..cut]
    else match LastNewline(body[..cut]) case Some(edge) => body[..edge] case None => body[..cut]
  }

  /** What of a disclosure follows its summary line. */
  function FoldBody(tail: string): string {
    match FirstIndex(tail, SUMMARY_END)
    case None => ""
    case Some(k) => tail[k + |SUMMARY_END|..]
  }

  /** _trim_empty_fold. */
  function TrimEmptyFold(kept: string): (r: string)
    ensures |r| <= |kept| && r == kept[..|r|]
    ensures |r| < |kept| ==> kept[|r|] == '\n'
  {
    match LastIndex(kept, "\n" + OPEN)
    case None => kept
    case Some(at) =>
      var tail := kept[at..];
      if FirstIndex(tail, CLOSE).Some? || !IsBlank(FoldBody(tail)) then kept
      else
        assert kept[at] == kept[at..at + |"\n" + OPEN|][0] == '\n';
        StripNewlines(kept[..at])
  }

  function Closers(n: nat): string {
    if n == 0 then "" else Closers(n - 1) + "\n" + CLOSE
  }

  function Unclosed(kept: string): nat {
    var opens, closes := Count(kept, OPEN), Count(kept, CLOSE);
    if opens > closes then opens - closes else 0
  }

  /** _truncation_notice. */
  function Notice(dropped: nat, total: nat): string {
    if dropped == 0 then NOTICE
    else
      "\n\n_" + LEAD + " " + Decimal(dropped) + " of " + Decimal(total) + " findings "
      + (if dropped == 1 then "is" else "are") + " missing from the list above._"
  }

  /** Says how many findings of how many are missing, in that order, or only that the text was cut. */
  ghost predicate Tells(notice: string, dropped: nat, total: nat) {
    if dropped == 0 then notice == NOTICE
    else exists head, tail :: notice == Telling(head, dropped, total, tail) && head != "" && !IsDigit(head[|head| - 1])
  }

  function Telling(head: string, dropped: nat, total: nat, tail: string): string {
    head + Decimal(dropped) + " of " + Decimal(total) + " findings " + tail
  }

  lemma NoticeTells(dropped: nat, total: nat)
    ensures Tells(Notice(dropped, total), dropped, total)
  {
    hide Decimal, Telling;
    if dropped != 0 {
      SentenceTells("\n\n_" + LEAD, dropped, total, if dropped == 1 then "is" else "are", " missing from the list above._");
    }
  }

  lemma SentenceTells(lead: string, dropped: nat, total: nat, verb: string, rest: string)
    ensures lead + " " + Decimal(dropped) + " of " + Decimal(total) + " findings " + verb + rest == Telling(lead + " ", dropped, total, verb + rest)
    ensures (lead + " ") != "" && !IsDigit((lead + " ")[|lead + " "| - 1])
  {
    hide Decimal;
    assert (lead + " ")[|lead|] == ' ';
    var front := lead + " " + Decimal(dropped) + " of " + Decimal(total) + " findings ";
    assert front + verb + rest == front + (verb + rest);
  }

  function Max(a: nat, b: nat): nat { if a < b then b else a }

  function Reserved(body: string, total: nat): nat {
    Max(|NOTICE|, |Notice(total, total)|) + Count(body, OPEN) * (1 + |CLOSE|)
  }

  function CutAt(body: string, footer: string, total: nat): nat {
    var used := Reserved(body, total) + |footer|;
    if used < SUMMARY_LIMIT then SUMMARY_LIMIT - used else 0
  }

  /** The part of the body that stays, before its open folds are closed. */
  function Kept(body: string, footer: string, total: nat): (kept: string)
    ensures |kept| <= |body| && kept == body[..|kept|]
  {
    TrimEmptyFold(WholeLines(body, CutAt(body, footer, total)))
  }

  function Shipped(body: string, footer: string, total: nat): string {
    var kept := Kept(body, footer, total);
    kept + Closers(Unclosed(kept))
  }

  // ------------------------------------------------------------- shown lines

  /** The text split at its line feeds. */
  function Lines(s: string): (r: seq<string>)
    ensures r != []
    decreases |s|
  {
    var e := LineEnd(s);
    if e == |s| then [s] else [s[..e]] + Lines(s[e + 1..])
  }

  function FindLine(lines: seq<string>, bullet: string): (r: Option<nat>)
    ensures r.Some? ==> r.value < |lines| && lines[r.value] == bullet && forall k :: 0 <= k < r.value ==> lines[k] != bullet
    ensures r.None? ==> forall k :: 0 <= k < |lines| ==> lines[k] != bullet
  {
    if lines == [] then None
    else if lines[0] == bullet then Some(0)
    else match FindLine(lines[1..], bullet) case None => None case Some(k) => Some(k + 1)
  }

  /** Each bullet takes the next line equal to it; the first miss ends the count. */
  function Shown(lines: seq<string>, bullets: seq<string>): (n: nat)
    ensures n <= |bullets|
    decreases |bullets|
  {
    if bullets == [] then 0
    else match FindLine(lines, bullets[0]) case None => 0 case Some(k) => 1 + Shown(lines[k + 1..], bullets[1..])
  }

  /** _shown_findings. */
  method ShownFindings(kept: string, bullets: seq<string>) returns (shown: nat)
    ensures shown == Shown(Lines(kept), bullets)
  {
    hide Lines, Shown;
    var lines, at := Lines(kept), 0;
    shown := 0;
    assert lines[0..] == lines && bullets[0..] == bullets;
    while shown < |bullets|
      invariant shown <= |bullets| && at <= |lines|
      invariant shown + Shown(lines[at..], bullets[shown..]) == Shown(lines, bullets)
      decreases |bullets| - shown
    {
      var start := at;
      while at < |lines| && lines[at] != bullets[shown]
        invariant start <= at <= |lines|
        invariant forall k :: start <= k < at ==> lines[k] != bullets[shown]
      {
        at := at + 1;
      }
      ShownStep(lines, bullets, start, at, shown);
      if at == |lines| {
        return shown;
      }
      shown, at := shown + 1, at + 1;
    }
  }

  lemma ShownStep(lines: seq<string>, bullets: seq<string>, start: nat, at: nat, shown: nat)
    requires start <= at <= |lines| && shown < |bullets|
    requires forall k :: start <= k < at ==> lines[k] != bullets[shown]
    ensures at == |lines| ==> Shown(lines[start..], bullets[shown..]) == 0
    ensures at < |lines| && lines[at] == bullets[shown] ==>
              Shown(lines[start..], bullets[shown..]) == 1 + Shown(lines[at + 1..], bullets[shown + 1..])
  {
    hide FindLine;
    assert at < |lines| ==> lines[start..][at - start + 1..] == lines[at + 1..];
    assert bullets[shown..][1..] == bullets[shown + 1..];
  }

  // ---------------------------------------------------------------- it fits

  lemma {:induction false} DecimalGrows(a: nat, b: nat)
    requires a <= b
    ensures |Decimal(a)| <= |Decimal(b)|
    decreases b
  {
    if b >= 10 {
      DecimalGrows(a / 10, b / 10);
    }
  }

  /** The notice that everything is missing is the longest, or the bare one is. */
  lemma NoticeFitsReserve(dropped: nat, total: nat)
    requires dropped <= total
    ensures |Notice(dropped, total)| <= Max(|NOTICE|, |Notice(total, total)|)
  {
    hide Decimal;
    DecimalGrows(dropped, total);
  }

  lemma {:induction false} ClosersLength(n: nat)
    ensures |Closers(n)| == n * (1 + |CLOSE|)
  {
    if n > 0 {
      ClosersLength(n - 1);
    }
  }

  /** A prefix holds no more occurrences. */
  lemma {:induction false} CountOfPrefix(s: string, pattern: string, k: nat)
    requires k <= |s|
    ensures Count(s[..k], pattern) <= Count(s, pattern)
  {
    if k > 0 {
      assert s[..k][1..] == s[1..][..k - 1];
      CountOfPrefix(s[1..], pattern, k - 1);
      assert StartsWith(s[..k], pattern) ==> s[..k][..|pattern|] == s[..|pattern|];
    }
  }

  lemma KeptLength(body: string, footer: string, total: nat)
    requires |body| + |footer| > SUMMARY_LIMIT
    ensures |Kept(body, footer, total)| <= CutAt(body, footer, total)
  {
    hide Reserved;
  }

  /** The summary stays under the cap whenever the reserved tail itself does. */
  lemma SummaryFits(body: string, footer: string, counted: seq<string>, dropped: nat)
    requires |body| + |footer| > SUMMARY_LIMIT && dropped <= |counted|
    ensures var reserve := Reserved(body, |counted|) + |footer|;
            |Shipped(body, footer, |counted|) + Notice(dropped, |counted|) + footer| <= Max(SUMMARY_LIMIT, reserve)
  {
    var total := |counted|;
    var kept := Kept(body, footer, total);
    KeptLength(body, footer, total);
    NoticeFitsReserve(dropped, total);
    CountOfPrefix(body, OPEN, |kept|);
    ClosersLength(Unclosed(kept));
    hide Kept, Notice, Count, Closers;
    CloserRoom(Unclosed(kept), Count(body, OPEN));
  }

  lemma CloserRoom(unclosed: nat, opens: nat)
    requires unclosed <= opens
    ensures unclosed * (1 + |CLOSE|) <= opens * (1 + |CLOSE|)
  {
  }

  // ------------------------------------------------------- no fold left open

  /** Every fold is opened before it is closed. */
  ghost predicate WellFolded(body: string) {
    forall k :: 0 <= k <= |body| ==> Count(body[..k], CLOSE) <= Count(body[..k], OPEN)
  }

  /** A line feed keeps occurrences apart. */
  lemma {:induction false} CountOfTwo(a: string, b: string, pattern: string)
    requires pattern != "" && '\n' !in pattern
    ensures Count(a + "\n" + b, pattern) == Count(a, pattern) + Count(b, pattern)
  {
    var text := a + "\n" + b;
    if a == "" {
      assert text[1..] == b;
      StartsAt(text, pattern, 0);
    } else {
      assert text[1..] == a[1..] + "\n" + b;
      CountOfTwo(a[1..], b, pattern);
      StartStaysInLine(a, b, pattern);
    }
  }

  lemma StartsAt(s: string, pattern: string, i: nat)
    ensures StartsWith(s, pattern) && i < |pattern| ==> i < |s| && s[i] == pattern[i] && pattern[i] in pattern
  {
    if StartsWith(s, pattern) && i < |pattern| {
      assert s[..|pattern|][i] == s[i];
    }
  }

  lemma StartStaysInLine(a: string, b: string, pattern: string)
    requires '\n' !in pattern
    ensures StartsWith(a + "\n" + b, pattern) <==> StartsWith(a, pattern)
  {
    var text := a + "\n" + b;
    StartsAt(text, pattern, |a|);
    assert |pattern| <= |a| ==> text[..|pattern|] == a[..|pattern|];
  }

  lemma {:induction false} NoStartNoCount(s: string, pattern: string)
    requires pattern != "" && pattern[0] !in s
    ensures Count(s, pattern) == 0
  {
    if s != "" {
      assert forall c :: c in s[1..] ==> c in s;
      NoStartNoCount(s[1..], pattern);
      StartsAt(s, pattern, 0);
      assert s[0] in s;
    }
  }

  lemma CloseTagCounts()
    ensures Count(CLOSE, CLOSE) == 1 && Count(CLOSE, OPEN) == 0
  {
    NoStartNoCount(CLOSE[1..], CLOSE);
    NoStartNoCount(CLOSE[1..], OPEN);
    assert StartsWith(CLOSE, CLOSE);
    assert CLOSE[1] == '/' && OPEN[1] == 'd';
    StartsAt(CLOSE, OPEN, 1);
  }

  lemma {:induction false} ClosersCount(kept: string, n: nat)
    ensures Count(kept + Closers(n), OPEN) == Count(kept, OPEN)
    ensures Count(kept + Closers(n), CLOSE) == Count(kept, CLOSE) + n
  {
    hide Count;
    if n == 0 {
      assert kept + Closers(0) == kept;
    } else {
      ClosersCount(kept, n - 1);
      var before := kept + Closers(n - 1);
      assert kept + Closers(n) == before + "\n" + CLOSE;
      CountOfTwo(before, CLOSE, OPEN);
      CountOfTwo(before, CLOSE, CLOSE);
      CloseTagCounts();
    }
  }

  /** What ships opens and closes equally many folds, exactly when the kept text does not close more than it opens. */
  lemma FoldsBalance(body: string, footer: string, total: nat)
    ensures var kept, shipped := Kept(body, footer, total), Shipped(body, footer, total);
            Count(shipped, OPEN) == Count(shipped, CLOSE) <==> Count(kept, CLOSE) <= Count(kept, OPEN)
    ensures WellFolded(body) ==>
              Count(Shipped(body, footer, total), OPEN) == Count(Shipped(body, footer, total), CLOSE)
  {
    hide Count, Kept;
    var kept := Kept(body, footer, total);
    ClosersCount(kept, Unclosed(kept));
  }

  lemma NoTagInTwo(a: string, b: string)
    requires '<' !in a && '<' !in b
    ensures '<' !in a + b
  {
  }

  lemma LeadHoldsNoTag()
    ensures '<' !in LEAD
  {
    assert '<' !in "Truncated: this check run";
    assert '<' !in " exceeded GitHub's summary limit.";
    NoTagInTwo("Truncated: this check run", " exceeded GitHub's summary limit.");
  }

  lemma NoticeHoldsNoTag(dropped: nat, total: nat)
    ensures Notice(dropped, total) != "" && Notice(dropped, total)[0] == '\n' && '<' !in Notice(dropped, total)
  {
    LeadHoldsNoTag();
    var lead, some, all := LEAD, Decimal(dropped), Decimal(total);
    hide Decimal;
    NoTagInTwo("\n\n_", lead);
    NoTagInTwo("\n\n_" + lead, "_");
    NoTagInTwo("\n\n_" + lead, " ");
    NoTagInTwo("\n\n_" + lead + " ", some);
    NoTagInTwo("\n\n_" + lead + " " + some, " of ");
    NoTagInTwo("\n\n_" + lead + " " + some + " of ", all);
    NoTagInTwo("\n\n_" + lead + " " + some + " of " + all, " findings ");
    var verb := if dropped == 1 then "is" else "are";
    NoTagInTwo("\n\n_" + lead + " " + some + " of " + all + " findings ", verb);
    NoTagInTwo("\n\n_" + lead + " " + some + " of " + all + " findings " + verb, " missing from the list above._");
  }

  /** Neither the notice nor a footer without markup adds to a fold. */
  lemma TailHoldsNoTags(shipped: string, dropped: nat, total: nat, footer: string, pattern: string)
    requires pattern != "" && pattern[0] == '<' && '\n' !in pattern && '<' !in footer
    ensures Count(shipped + Notice(dropped, total) + footer, pattern) == Count(shipped, pattern)
  {
    hide Count, Decimal;
    var notice := Notice(dropped, total);
    NoticeHoldsNoTag(dropped, total);
    hide Notice;
    var tail := notice[1..] + footer;
    assert forall c :: c in tail ==> c in notice || c in footer;
    assert shipped + notice + footer == shipped + "\n" + tail;
    CountOfTwo(shipped, tail, pattern);
    NoStartNoCount(tail, pattern);
  }

  /** The whole summary leaves no fold open over the notice and the footer. */
  lemma SummaryFoldsBalance(body: string, footer: string, dropped: nat, total: nat)
    requires WellFolded(body) && '<' !in footer
    ensures var summary := Shipped(body, footer, total) + Notice(dropped, total) + footer;
            Count(summary, OPEN) == Count(summary, CLOSE)
  {
    hide Count, Notice, Shipped, WellFolded;
    FoldsBalance(body, footer, total);
    TailHoldsNoTags(Shipped(body, footer, total), dropped, total, footer, OPEN);
    TailHoldsNoTags(Shipped(body, footer, total), dropped, total, footer, CLOSE);
  }

  // -------------------------------------------------------------- whole lines

  /** The kept text ends where a line of the body ends, or holds nothing. */
  predicate WholeLinesOf(body: string, kept: string) {
    |kept| == 0 || |kept| == |body| || (|kept| < |body| && body[|kept|] == '\n')
  }

  /** Lines stay whole exactly when the cut does not fall inside the first one. */
  lemma WholeLinesExactly(body: string, cut: nat)
    ensures WholeLinesOf(body, WholeLines(body, cut)) <==>
              cut == 0 || cut >= |body| || body[cut] == '\n' || '\n' in body[..cut]
  {
  }

  lemma KeptIsWholeLines(body: string, footer: string, total: nat)
    ensures var cut := CutAt(body, footer, total);
            WholeLinesOf(body, Kept(body, footer, total)) <==>
              cut == 0 || cut >= |body| || body[cut] == '\n' || '\n' in body[..cut]
  {
    hide CutAt;
    var cut := CutAt(body, footer, total);
    var whole := WholeLines(body, cut);
    WholeLinesExactly(body, cut);
    hide WholeLines, TrimEmptyFold;
    var kept := TrimEmptyFold(whole);
    assert |kept| < |whole| ==> whole[|kept|] == body[..|whole|][|kept|] == body[|kept|];
  }

  /** The first line, the reserve and the footer fit the cap together, as they do for any rendered title. */
  ghost predicate FirstLineFits(body: string, footer: string, total: nat) {
    LineEnd(body) < |body| && LineEnd(body) + Reserved(body, total) + |footer| < SUMMARY_LIMIT
  }

  /** Then only whole lines are kept. */
  lemma RenderKeepsWholeLines(body: string, footer: string, total: nat)
    requires FirstLineFits(body, footer, total)
    ensures WholeLinesOf(body, Kept(body, footer, total))
  {
    hide Reserved, Kept;
    KeptIsWholeLines(body, footer, total);
    var cut := CutAt(body, footer, total);
    assert cut > LineEnd(body) && body[LineEnd(body)] == '\n';
    assert cut < |body| ==> body[..cut][LineEnd(body)] == '\n';
  }

  /** The helper alone can return half a line: the first one. */
  lemma HelperCutsTheFirstLine()
    ensures WholeLines("ab\ncd", 1) == "a" && !WholeLinesOf("ab\ncd", WholeLines("ab\ncd", 1))
  {
    assert "ab\ncd"[..1] == "a" && 'a' != '\n';
    assert LastNewline("a") == None;
  }

  /** At any cut the helper keeps the longest run of whole lines there is. */
  lemma WholeLinesIsLongest(body: string, cut: nat, n: nat)
    requires n <= cut && n < |body| && body[n] == '\n'
    ensures n <= |WholeLines(body, cut)|
  {
    if cut < |body| && body[cut] != '\n' {
      assert body[..cut][n] == '\n';
      LastNewlineIsLast(body[..cut], n);
    }
  }

  lemma {:induction false} LastNewlineIsLast(s: string, n: nat)
    requires n < |s| && s[n] == '\n'
    ensures LastNewline(s).Some? && n <= LastNewline(s).value
  {
    if s[|s| - 1] != '\n' {
      LastNewlineIsLast(s[..|s| - 1], n);
    }
  }

  /**
    The render keeps every whole line that fits beside the reserve and the footer, but for a fold the cut
    left empty; and nothing at all only where nothing fits.
   */
  lemma KeepsAllThatFits(body: string, footer: string, total: nat, n: nat)
    requires n < |body| && body[n] == '\n' && n + Reserved(body, total) + |footer| <= SUMMARY_LIMIT
    ensures exists whole: nat :: n <= whole && IsLeftOf(Kept(body, footer, total), body, whole)
  {
    var cut := CutAt(body, footer, total);
    CutFillsTheCap(body, footer, total, n);
    hide CutAt, Reserved;
    WholeLinesIsLongest(body, cut, n);
    var w := |WholeLines(body, cut)|;
    assert WholeLines(body, cut) == body[..w];
    hide WholeLines;
    TrimLeaves(body, w);
    hide TrimEmptyFold, IsLeftOf;
    assert Kept(body, footer, total) == TrimEmptyFold(body[..w]);
  }

  /** The first `whole` characters, or what stands before the empty fold they end in. */
  ghost predicate IsLeftOf(kept: string, body: string, whole: nat) {
    whole <= |body| && (kept == body[..whole] || exists at: nat :: EmptyFoldAt(body[..whole], at) && IsTrimmed(kept, body[..at]))
  }

  lemma TrimLeaves(body: string, w: nat)
    requires w <= |body|
    ensures IsLeftOf(TrimEmptyFold(body[..w]), body, w)
  {
    hide TrimEmptyFold, StripNewlines, IsTrimmed;
    var whole := body[..w];
    if TrimEmptyFold(whole) != whole {
      EmptyFoldsGo(whole, 0);
      hide EmptyFoldAt;
      var at: nat :| EmptyFoldAt(whole, at);
      EmptyFoldsGo(whole, at);
      EmptyFoldLies(whole, at);
      assert whole[..at] == body[..at];
      StripNewlinesTrims(whole[..at]);
    }
  }

  lemma CutFillsTheCap(body: string, footer: string, total: nat, n: nat)
    requires n + Reserved(body, total) + |footer| <= SUMMARY_LIMIT
    ensures n <= CutAt(body, footer, total)
  {
    hide Reserved;
  }

  lemma EmptyFoldLies(kept: string, at: nat)
    requires EmptyFoldAt(kept, at)
    ensures at <= |kept|
  {
  }

  /** Less the line feeds at its end, and no more. */
  ghost predicate IsTrimmed(r: string, s: string) {
    r <= s && (r != "" ==> r[|r| - 1] != '\n') && forall k :: |r| <= k < |s| ==> s[k] == '\n'
  }

  lemma {:induction false} StripNewlinesTrims(s: string)
    ensures IsTrimmed(StripNewlines(s), s)
  {
    if s != "" && s[|s| - 1] == '\n' {
      StripNewlinesTrims(s[..|s| - 1]);
    }
  }

  lemma {:induction false} FirstIndexIsFirst(s: string, pattern: string, k: nat)
    requires pattern != "" && k <= |s|
    ensures FirstIndex(s, pattern) == Some(k) <==> StartsWith(s[k..], pattern) && forall j :: 0 <= j < k ==> !StartsWith(s[j..], pattern)
    ensures FirstIndex(s, pattern) == None <==> forall j :: 0 <= j <= |s| ==> !StartsWith(s[j..], pattern)
    decreases |s|
  {
    hide FirstIndex, StartsWith;
    FirstIndexUnfolds(s, pattern);
    assert s[0..] == s;
    if s != "" && !StartsWith(s, pattern) {
      FirstIndexIsFirst(s[1..], pattern, if k > 0 then k - 1 else 0);
      LaterPlaces(s, pattern, k);
    } else if s != "" {
      assert StartsWith(s[0..], pattern);
    } else {
      assert s[0..] == "";
    }
  }

  lemma {:induction false} FirstIndexUnfolds(s: string, pattern: string)
    requires pattern != ""
    ensures StartsWith(s, pattern) ==> s != "" && FirstIndex(s, pattern) == Some(0)
    ensures s == "" ==> FirstIndex(s, pattern) == None
    ensures s != "" && !StartsWith(s, pattern) ==>
              FirstIndex(s, pattern) == match FirstIndex(s[1..], pattern) case None => None case Some(k) => Some(k + 1)
  {
  }

  /** Without a match in front, the places of a match are those of the rest, moved by one. */
  lemma LaterPlaces(s: string, pattern: string, k: nat)
    requires s != "" && k <= |s| && !StartsWith(s, pattern)
    ensures var rest := s[1..];
            && (k > 0 ==> s[k..] == rest[k - 1..])
            && (k > 0 ==> ((forall j :: 0 <= j < k ==> !StartsWith(s[j..], pattern)) <==> forall j :: 0 <= j < k - 1 ==> !StartsWith(rest[j..], pattern)))
            && ((forall j :: 0 <= j <= |s| ==> !StartsWith(s[j..], pattern)) <==> forall j :: 0 <= j <= |rest| ==> !StartsWith(rest[j..], pattern))
  {
    hide StartsWith;
    var rest := s[1..];
    assert s[0..] == s;
    assert forall j :: 0 < j <= |s| ==> s[j..] == rest[j - 1..];
    assert forall j :: 0 <= j <= |rest| ==> rest[j..] == s[j + 1..];
  }

  lemma {:induction false} LastIndexIsLast(s: string, pattern: string, j: nat)
    requires j <= |s| && pattern != ""
    ensures StartsWith(s[j..], pattern) ==> LastIndex(s, pattern).Some? && j <= LastIndex(s, pattern).value
  {
    if j > 0 {
      assert s[j..] == s[1..][j - 1..];
      LastIndexIsLast(s[1..], pattern, j - 1);
    } else {
      assert s[0..] == s;
    }
  }

  /** The last fold opens at `at`, is not closed, and holds nothing but white space after its summary. */
  ghost predicate EmptyFoldAt(kept: string, at: nat) {
    && at <= |kept| && StartsWith(kept[at..], "\n" + OPEN)
    && (forall j :: at < j <= |kept| ==> !StartsWith(kept[j..], "\n" + OPEN))
    && (forall j :: at <= j <= |kept| ==> !StartsWith(kept[j..], CLOSE))
    && (forall j: nat, k: nat :: FirstFrom(kept, at, SUMMARY_END, j) && j + |SUMMARY_END| <= k < |kept| ==> IsSpace(kept[k]))
  }

  /** `j` is where this text first stands from `at` on. */
  ghost predicate FirstFrom(s: string, at: nat, pattern: string, j: nat) {
    at <= j <= |s| && StartsWith(s[j..], pattern) && forall i :: at <= i < j ==> !StartsWith(s[i..], pattern)
  }

  lemma FoldIsEmpty(kept: string, at: nat)
    requires at <= |kept|
    ensures FirstIndex(kept[at..], CLOSE).None? <==> forall j :: at <= j <= |kept| ==> !StartsWith(kept[j..], CLOSE)
    ensures IsBlank(FoldBody(kept[at..])) <==>
              forall j: nat, k: nat :: FirstFrom(kept, at, SUMMARY_END, j) && j + |SUMMARY_END| <= k < |kept| ==> IsSpace(kept[k])
  {
    hide FirstIndex, StartsWith;
    var tail := kept[at..];
    assert forall j :: 0 <= j <= |tail| ==> tail[j..] == kept[at + j..];
    FirstIndexIsFirst(tail, CLOSE, 0);
    assert (forall j :: at <= j <= |kept| ==> !StartsWith(kept[j..], CLOSE)) <==> forall j :: 0 <= j <= |tail| ==> !StartsWith(tail[j..], CLOSE) by {
      forall j | at <= j <= |kept| ensures kept[j..] == tail[j - at..] {
      }
    }
    SummaryIsBlank(kept, at);
  }

  lemma SummaryIsBlank(kept: string, at: nat)
    requires at <= |kept|
    ensures IsBlank(FoldBody(kept[at..])) <==>
              forall j: nat, k: nat :: FirstFrom(kept, at, SUMMARY_END, j) && j + |SUMMARY_END| <= k < |kept| ==> IsSpace(kept[k])
  {
    hide FirstIndex, StartsWith;
    var tail, n := kept[at..], |SUMMARY_END|;
    assert forall i :: at <= i <= |kept| ==> kept[i..] == tail[i - at..];
    assert forall i :: 0 <= i <= |tail| ==> tail[i..] == kept[at + i..];
    forall j: nat ensures FirstFrom(kept, at, SUMMARY_END, j) <==> at <= j && FirstIndex(tail, SUMMARY_END) == Some(j - at) {
      if at <= j <= |kept| {
        FirstIndexIsFirst(tail, SUMMARY_END, j - at);
      }
    }
    hide FirstFrom;
    if FirstIndex(tail, SUMMARY_END).Some? {
      var k := FirstIndex(tail, SUMMARY_END).value;
      assert FirstFrom(kept, at, SUMMARY_END, at + k);
      assert FoldBody(tail) == tail[k + n..] == kept[at + k + n..];
      forall i: nat | at + k + n <= i < |kept| ensures kept[i] == FoldBody(tail)[i - (at + k + n)] {
      }
    }
  }

  /** A fold is removed exactly when it is such an empty one, with the line feeds before it. */
  lemma EmptyFoldsGo(kept: string, at: nat)
    ensures EmptyFoldAt(kept, at) ==> TrimEmptyFold(kept) == StripNewlines(kept[..at])
    ensures TrimEmptyFold(kept) != kept ==> exists k :: EmptyFoldAt(kept, k)
  {
    hide IsBlank, FoldBody, StripNewlines, FirstIndex, FirstFrom;
    var last := LastIndex(kept, "\n" + OPEN);
    if at <= |kept| {
      FoldIsEmpty(kept, at);
    }
    if last.Some? {
      FoldIsEmpty(kept, last.value);
      var pattern := "\n" + OPEN;
      assert kept[last.value..][..|pattern|] == kept[last.value..last.value + |pattern|] == pattern;
      assert StartsWith(kept[last.value..], pattern);
    }
    forall j | 0 <= j <= |kept| && StartsWith(kept[j..], "\n" + OPEN) ensures last.Some? && j <= last.value {
      LastIndexIsLast(kept, "\n" + OPEN, j);
    }
    if TrimEmptyFold(kept) != kept {
      assert EmptyFoldAt(kept, last.value);
    }
  }

  // ------------------------------------------------------- the findings shown

  /** The bullets occur among the lines, in order, each on a line of its own. */
  ghost predicate Embeds(bullets: seq<string>, lines: seq<string>)
    decreases |bullets|
  {
    bullets == [] || exists k :: 0 <= k < |lines| && lines[k] == bullets[0] && Embeds(bullets[1..], lines[k + 1..])
  }

  lemma {:induction false} EmbedsInMore(bullets: seq<string>, before: seq<string>, lines: seq<string>, after: seq<string>)
    requires Embeds(bullets, lines)
    ensures Embeds(bullets, before + lines + after)
    decreases |bullets|
  {
    if bullets != [] {
      var k :| 0 <= k < |lines| && lines[k] == bullets[0] && Embeds(bullets[1..], lines[k + 1..]);
      var all := before + lines + after;
      assert all[|before| + k] == bullets[0];
      assert all[|before| + k + 1..] == [] + lines[k + 1..] + after;
      EmbedsInMore(bullets[1..], [], lines[k + 1..], after);
    }
  }

  lemma {:induction false} ShownEmbeds(lines: seq<string>, bullets: seq<string>)
    ensures Embeds(bullets[..Shown(lines, bullets)], lines)
    decreases |bullets|
  {
    var n := Shown(lines, bullets);
    if n > 0 {
      var k := FindLine(lines, bullets[0]).value;
      ShownEmbeds(lines[k + 1..], bullets[1..]);
      assert bullets[..n][1..] == bullets[1..][..n - 1];
      assert lines[k] == bullets[..n][0];
    }
  }

  lemma EmbedsInSuffix(bullets: seq<string>, lines: seq<string>, from: nat, to: nat)
    requires from <= to <= |lines| && Embeds(bullets, lines[to..])
    ensures Embeds(bullets, lines[from..])
  {
    EmbedsInMore(bullets, lines[from..to], lines[to..], []);
    assert lines[from..] == lines[from..to] + lines[to..] + [];
  }

  lemma {:induction false} NothingLongerEmbeds(lines: seq<string>, bullets: seq<string>, n: nat)
    requires n <= |bullets| && Embeds(bullets[..n], lines)
    ensures n <= Shown(lines, bullets)
    decreases |bullets|
  {
    hide Embeds, FindLine;
    if n > 0 {
      var rest := bullets[..n][1..];
      var k := FirstOfEmbedding(bullets[..n], lines);
      var first := FindLine(lines, bullets[0]);
      assert lines[k] == bullets[..n][0] == bullets[0];
      EmbedsInSuffix(rest, lines, first.value + 1, k + 1);
      assert rest == bullets[1..][..n - 1];
      NothingLongerEmbeds(lines[first.value + 1..], bullets[1..], n - 1);
    }
  }

  lemma FirstOfEmbedding(bullets: seq<string>, lines: seq<string>) returns (k: nat)
    requires bullets != [] && Embeds(bullets, lines)
    ensures k < |lines| && lines[k] == bullets[0] && Embeds(bullets[1..], lines[k + 1..])
  {
    k :| 0 <= k < |lines| && lines[k] == bullets[0] && Embeds(bullets[1..], lines[k + 1..]);
  }

  /** The count is the longest run of leading bullets found in order among the lines. */
  lemma ShownIsLongestRun(lines: seq<string>, bullets: seq<string>, n: nat)
    requires n <= |bullets|
    ensures Embeds(bullets[..n], lines) <==> n <= Shown(lines, bullets)
  {
    if Embeds(bullets[..n], lines) {
      NothingLongerEmbeds(lines, bullets, n);
    }
    if n <= Shown(lines, bullets) {
      ShownEmbeds(lines, bullets);
      EmbedsFewer(bullets[..Shown(lines, bullets)], lines, n);
      assert bullets[..Shown(lines, bullets)][..n] == bullets[..n];
    }
  }

  lemma {:induction false} EmbedsFewer(bullets: seq<string>, lines: seq<string>, n: nat)
    requires n <= |bullets| && Embeds(bullets, lines)
    ensures Embeds(bullets[..n], lines)
    decreases |bullets|
  {
    if n > 0 {
      var k :| 0 <= k < |lines| && lines[k] == bullets[0] && Embeds(bullets[1..], lines[k + 1..]);
      EmbedsFewer(bullets[1..], lines[k + 1..], n - 1);
      assert bullets[..n][1..] == bullets[1..][..n - 1];
      assert lines[k] == bullets[..n][0];
    }
  }

  // ---------------------------------------- exactly the findings on the page

  ghost predicate RendersOn(at: seq<nat>, line: nat) {
    exists j :: 0 <= j < |at| && at[j] == line
  }

  /** Bullet `j` is rendered on line `at[j]`, and no other line reads like a bullet. */
  ghost predicate RenderedAt(lines: seq<string>, bullets: seq<string>, at: seq<nat>) {
    && |at| == |bullets|
    && (forall j :: 0 <= j < |at| ==> at[j] < |lines| && lines[at[j]] == bullets[j])
    && (forall j, k :: 0 <= j < k < |at| ==> at[j] < at[k])
    && (forall i :: 0 <= i < |lines| && lines[i] in bullets ==> RendersOn(at, i))
  }

  /** How many bullets are rendered before line `m`. */
  ghost function RenderedBefore(at: seq<nat>, m: nat): (n: nat)
    ensures n <= |at|
  {
    if at == [] then 0 else RenderedBefore(at[..|at| - 1], m) + if at[|at| - 1] < m then 1 else 0
  }

  lemma {:induction false} RenderedBeforeIsPrefix(at: seq<nat>, m: nat)
    requires forall j, k :: 0 <= j < k < |at| ==> at[j] < at[k]
    ensures forall j :: 0 <= j < |at| ==> (j < RenderedBefore(at, m) <==> at[j] < m)
  {
    if at != [] {
      RenderedBeforeIsPrefix(at[..|at| - 1], m);
    }
  }

  ghost function BulletLines(lines: seq<string>, bullets: seq<string>): nat {
    if lines == [] then 0 else (if lines[0] in bullets then 1 else 0) + BulletLines(lines[1..], bullets)
  }

  lemma {:induction false} BulletLinesAppend(a: seq<string>, b: seq<string>, bullets: seq<string>)
    ensures BulletLines(a + b, bullets) == BulletLines(a, bullets) + BulletLines(b, bullets)
  {
    if a == [] {
      assert a + b == b;
    } else {
      assert (a + b)[1..] == a[1..] + b;
      BulletLinesAppend(a[1..], b, bullets);
    }
  }

  lemma {:induction false} NoBulletLines(lines: seq<string>, bullets: seq<string>)
    requires forall i :: 0 <= i < |lines| ==> lines[i] !in bullets
    ensures BulletLines(lines, bullets) == 0
  {
    if lines != [] {
      NoBulletLines(lines[1..], bullets);
    }
  }

  lemma {:induction false} EmbeddedNeedLines(run: seq<string>, lines: seq<string>, bullets: seq<string>)
    requires Embeds(run, lines) && forall j :: 0 <= j < |run| ==> run[j] in bullets
    ensures |run| <= BulletLines(lines, bullets)
    decreases |run|
  {
    if run != [] {
      var k :| 0 <= k < |lines| && lines[k] == run[0] && Embeds(run[1..], lines[k + 1..]);
      EmbeddedNeedLines(run[1..], lines[k + 1..], bullets);
      assert lines == lines[..k] + lines[k..] && lines[k..][1..] == lines[k + 1..];
      BulletLinesAppend(lines[..k], lines[k..], bullets);
      assert run[0] in bullets;
    }
  }

  lemma {:induction false} NoneBeforeZero(at: seq<nat>)
    ensures RenderedBefore(at, 0) == 0
  {
    if at != [] {
      NoneBeforeZero(at[..|at| - 1]);
    }
  }

  lemma {:induction false} BulletLinesBefore(lines: seq<string>, bullets: seq<string>, at: seq<nat>, m: nat)
    requires RenderedAt(lines, bullets, at) && m <= |lines|
    ensures BulletLines(lines[..m], bullets) == RenderedBefore(at, m)
  {
    if m == 0 {
      NoneBeforeZero(at);
    } else {
      BulletLinesBefore(lines, bullets, at, m - 1);
      assert lines[..m] == lines[..m - 1] + [lines[m - 1]];
      BulletLinesAppend(lines[..m - 1], [lines[m - 1]], bullets);
      OneLineMore(lines, bullets, at, m);
    }
  }

  lemma {:induction false} BeforeStep(at: seq<nat>, m: nat)
    requires forall j, k :: 0 <= j < k < |at| ==> at[j] < at[k]
    ensures RenderedBefore(at, m + 1) == RenderedBefore(at, m) + if RendersOn(at, m) then 1 else 0
  {
    if at != [] {
      var front, last := at[..|at| - 1], at[|at| - 1];
      BeforeStep(front, m);
      if last <= m {
        assert forall j :: 0 <= j < |front| ==> front[j] < m;
      }
      if last == m {
        assert at[|at| - 1] == m;
      } else {
        assert forall j :: 0 <= j < |front| ==> front[j] == at[j];
        assert RendersOn(at, m) <==> RendersOn(front, m);
      }
    }
  }

  lemma OneLineMore(lines: seq<string>, bullets: seq<string>, at: seq<nat>, m: nat)
    requires RenderedAt(lines, bullets, at) && 0 < m <= |lines|
    ensures RenderedBefore(at, m) == RenderedBefore(at, m - 1) + BulletLines([lines[m - 1]], bullets)
  {
    BeforeStep(at, m - 1);
    assert [lines[m - 1]][1..] == [];
    if RendersOn(at, m - 1) {
      var j :| 0 <= j < |at| && at[j] == m - 1;
      assert bullets[j] in bullets;
    }
  }

  lemma {:induction false} RenderedEmbeds(lines: seq<string>, bullets: seq<string>, at: seq<nat>, from: nat)
    requires |at| == |bullets| && from <= |lines|
    requires forall j :: 0 <= j < |at| ==> from <= at[j] < |lines| && lines[at[j]] == bullets[j]
    requires forall j, k :: 0 <= j < k < |at| ==> at[j] < at[k]
    ensures Embeds(bullets, lines[from..])
    decreases |bullets|
  {
    if bullets != [] {
      var k := at[0] - from;
      assert lines[from..][k] == bullets[0];
      assert lines[from..][k + 1..] == lines[at[0] + 1..];
      RenderedEmbeds(lines, bullets[1..], at[1..], at[0] + 1);
    }
  }

  /** The bullets rendered on the first `m` lines stay there in order, so the count reaches them. */
  lemma {:induction false} ShownReaches(lines: seq<string>, bullets: seq<string>, at: seq<nat>, m: nat, extra: seq<string>)
    requires RenderedAt(lines, bullets, at) && m <= |lines|
    ensures RenderedBefore(at, m) <= Shown(lines[..m] + extra, bullets)
  {
    hide Shown, Embeds, RenderedAt, RenderedBefore;
    PrefixEmbeds(lines, bullets, at, m);
    var n, kept := RenderedBefore(at, m), lines[..m] + extra;
    assert [] + lines[..m] + extra == kept;
    EmbedsInMore(bullets[..n], [], lines[..m], extra);
    ShownIsLongestRun(kept, bullets, n);
  }

  lemma {:induction false} PrefixEmbeds(lines: seq<string>, bullets: seq<string>, at: seq<nat>, m: nat)
    requires RenderedAt(lines, bullets, at) && m <= |lines|
    ensures RenderedBefore(at, m) <= |bullets| && Embeds(bullets[..RenderedBefore(at, m)], lines[..m])
  {
    hide Embeds;
    var n := RenderedBefore(at, m);
    RenderedBeforeIsPrefix(at, m);
    assert lines[..m][0..] == lines[..m];
    RenderedEmbeds(lines[..m], bullets[..n], at[..n], 0);
  }

  /** No more lines read like bullets than were rendered, so the count goes no further. */
  lemma {:induction false} ShownGoesNoFurther(lines: seq<string>, bullets: seq<string>, at: seq<nat>, m: nat, extra: seq<string>)
    requires RenderedAt(lines, bullets, at) && m <= |lines|
    requires forall i :: 0 <= i < |extra| ==> extra[i] !in bullets
    ensures Shown(lines[..m] + extra, bullets) <= RenderedBefore(at, m)
  {
    hide Shown, Embeds, RenderedAt, BulletLines, RenderedBefore;
    var kept := lines[..m] + extra;
    var shown := Shown(kept, bullets);
    ShownEmbeds(kept, bullets);
    EmbeddedNeedLines(bullets[..shown], kept, bullets);
    BulletLinesAppend(lines[..m], extra, bullets);
    NoBulletLines(extra, bullets);
    BulletLinesBefore(lines, bullets, at, m);
  }

  /**
    When no other line reads like a bullet, the count is exactly the bullets rendered on the kept lines;
    `extra` are the closing tags.
   */
  lemma ShownIsWhatIsKept(lines: seq<string>, bullets: seq<string>, at: seq<nat>, m: nat, extra: seq<string>)
    requires RenderedAt(lines, bullets, at) && m <= |lines|
    requires forall i :: 0 <= i < |extra| ==> extra[i] !in bullets
    ensures Shown(lines[..m] + extra, bullets) == RenderedBefore(at, m)
  {
    hide *;
    ShownReaches(lines, bullets, at, m, extra);
    ShownGoesNoFurther(lines, bullets, at, m, extra);
  }

  lemma LinesOfFirst(line: string, rest: string)
    requires forall k :: 0 <= k < |line| ==> line[k] != '\n'
    ensures Lines(line + "\n" + rest) == [line] + Lines(rest)
    ensures Lines(line) == [line]
  {
    var text := line + "\n" + rest;
    assert forall k :: 0 <= k < |line| ==> text[k] == line[k];
    LineEndIs(text, |line|);
    assert text[..|line|] == line && text[|line| + 1..] == rest;
    assert LineEnd(line) == |line|;
  }

  /** Lines split apart at a line feed. */
  lemma {:induction false} LinesOfTwo(a: string, b: string)
    ensures Lines(a + "\n" + b) == Lines(a) + Lines(b)
    decreases |a|
  {
    hide Lines;
    var e := LineEnd(a);
    if e == |a| {
      LinesOfFirst(a, b);
    } else {
      var line, rest := a[..e], a[e + 1..];
      assert a == line + "\n" + rest;
      assert a + "\n" + b == line + "\n" + (rest + "\n" + b);
      LinesOfFirst(line, rest);
      LinesOfFirst(line, rest + "\n" + b);
      LinesOfTwo(rest, b);
    }
  }

  function Tags(n: nat): (r: seq<string>)
    ensures forall i :: 0 <= i < |r| ==> r[i] == CLOSE
  {
    if n == 0 then [] else Tags(n - 1) + [CLOSE]
  }

  lemma {:induction false} LinesOfClosers(kept: string, n: nat)
    ensures Lines(kept + Closers(n)) == Lines(kept) + Tags(n)
  {
    hide Lines;
    if n == 0 {
      assert kept + Closers(0) == kept;
    } else {
      var before := kept + Closers(n - 1);
      LinesOfClosers(kept, n - 1);
      assert kept + Closers(n) == before + "\n" + CLOSE;
      LinesOfTwo(before, CLOSE);
      CloseIsOneLine();
    }
  }

  lemma CloseIsOneLine()
    ensures Lines(CLOSE) == [CLOSE]
  {
    assert forall k :: 0 <= k < |CLOSE| ==> CLOSE[k] != '\n';
    LinesOfFirst(CLOSE, "");
  }

  /** The first `m` lines, then nothing but closing tags and empty lines. */
  ghost predicate FirstLinesThenTags(shown: seq<string>, lines: seq<string>, m: nat) {
    m <= |lines|
    && exists extra :: shown == lines[..m] + extra && forall i :: 0 <= i < |extra| ==> extra[i] == CLOSE || extra[i] == ""
  }

  /** What ships is the body's first lines and closing tags, and the notice subtracts exactly the bullets on them. */
  lemma NoticeCountsWhatWasRemoved(body: string, footer: string, counted: seq<string>, at: seq<nat>)
    requires RenderedAt(Lines(body), counted, at) && "" !in counted && CLOSE !in counted
    requires WholeLinesOf(body, Kept(body, footer, |counted|))
    ensures exists m: nat ::
              && FirstLinesThenTags(Lines(Shipped(body, footer, |counted|)), Lines(body), m)
              && Shown(Lines(Shipped(body, footer, |counted|)), counted) == RenderedBefore(at, m)
  {
    hide Kept, Lines, Shown, Closers, Unclosed;
    var kept := Kept(body, footer, |counted|);
    var m, rest := KeptLines(body, kept);
    LinesOfClosers(kept, Unclosed(kept));
    var closers := Tags(Unclosed(kept));
    var extra := rest + closers;
    assert Lines(body)[..m] + extra == Lines(kept) + closers;
    ShownIsWhatIsKept(Lines(body), counted, at, m, extra);
    assert FirstLinesThenTags(Lines(body)[..m] + extra, Lines(body), m);
  }

  lemma KeptLines(body: string, kept: string) returns (m: nat, rest: seq<string>)
    requires |kept| <= |body| && kept == body[..|kept|] && WholeLinesOf(body, kept)
    ensures m <= |Lines(body)| && Lines(kept) == Lines(body)[..m] + rest
    ensures forall i :: 0 <= i < |rest| ==> rest[i] == ""
  {
    hide Lines;
    if |kept| == |body| {
      assert kept == body && Lines(body)[..|Lines(body)|] + [] == Lines(body);
      return |Lines(body)|, [];
    } else if body[|kept|] == '\n' {
      var later := body[|kept| + 1..];
      assert body == kept + "\n" + later;
      LinesOfTwo(kept, later);
      assert (Lines(kept) + Lines(later))[..|Lines(kept)|] + [] == Lines(kept);
      return |Lines(kept)|, [];
    } else {
      LinesOfFirst(kept, "");
      return 0, [""];
    }
  }

  // ------------------------------------------------------------------ render

  ghost predicate Balanced(s: string) {
    Count(s, OPEN) == Count(s, CLOSE)
  }

  /** The footer begins a line of its own and holds no markup. */
  ghost predicate PlainFooter(footer: string) {
    '<' !in footer && (footer != "" ==> footer[0] == '\n')
  }

  lemma FooterHoldsNoTags(body: string, footer: string)
    requires Balanced(body) && PlainFooter(footer)
    ensures Balanced(body + footer)
  {
    hide Count;
    if footer == "" {
      assert body + footer == body;
    } else {
      var rest := footer[1..];
      assert body + footer == body + "\n" + rest;
      CountOfTwo(body, rest, OPEN);
      CountOfTwo(body, rest, CLOSE);
      NoStartNoCount(rest, OPEN);
      NoStartNoCount(rest, CLOSE);
    }
  }

  /** The page: the first `m` lines, closing tags, and a notice of this many missing findings. */
  ghost predicate ShowsFirst(page: string, lines: seq<string>, m: nat, dropped: nat, total: nat, footer: string) {
    exists shown, notice ::
      && page == shown + notice + footer && Tells(notice, dropped, total) && FirstLinesThenTags(Lines(shown), lines, m)
  }

  lemma PageShowsFirst(body: string, footer: string, counted: seq<string>, at: seq<nat>) returns (m: nat)
    requires RenderedAt(Lines(body), counted, at) && "" !in counted && CLOSE !in counted
    requires FirstLineFits(body, footer, |counted|)
    ensures var shipped, total := Shipped(body, footer, |counted|), |counted|;
            var missing := total - Shown(Lines(shipped), counted);
            && missing == total - RenderedBefore(at, m)
            && ShowsFirst(shipped + Notice(missing, total) + footer, Lines(body), m, missing, total, footer)
  {
    hide Shipped, Lines, Shown, Notice, RenderedAt, FirstLineFits, WholeLinesOf, RenderedBefore, FirstLinesThenTags, Tells;
    RenderKeepsWholeLines(body, footer, |counted|);
    NoticeCountsWhatWasRemoved(body, footer, counted, at);
    var shipped := Shipped(body, footer, |counted|);
    NoticeTells(|counted| - Shown(Lines(shipped), counted), |counted|);
    m :| FirstLinesThenTags(Lines(shipped), Lines(body), m) && Shown(Lines(shipped), counted) == RenderedBefore(at, m);
  }

  /**
    What render returns once the title and the body are built. It fits the cap or its own tail, leaves no
    fold open, and when cut shows the body's first `m` lines and says exactly how many of the bullets,
    rendered on the lines `at`, are not among them.
   */
  method Render(body: string, footer: string, counted: seq<string>, ghost at: seq<nat>) returns (combined: string, ghost m: nat)
    ensures |body| + |footer| <= SUMMARY_LIMIT ==> combined == body + footer
    ensures |body| + |footer| > SUMMARY_LIMIT ==>
              var shipped, total := Shipped(body, footer, |counted|), |counted|;
              combined == shipped + Notice(total - Shown(Lines(shipped), counted), total) + footer
    ensures |combined| <= Max(SUMMARY_LIMIT, Reserved(body, |counted|) + |footer|)
    ensures WellFolded(body) && Balanced(body) && PlainFooter(footer) ==> Balanced(combined)
    ensures |body| + |footer| > SUMMARY_LIMIT && FirstLineFits(body, footer, |counted|)
            && RenderedAt(Lines(body), counted, at) && "" !in counted && CLOSE !in counted ==>
              ShowsFirst(combined, Lines(body), m, |counted| - RenderedBefore(at, m), |counted|, footer)
  {
    hide Shipped, Kept, Closers, Unclosed, Lines, Shown, Notice, Reserved, WellFolded, Balanced, PlainFooter, FirstLineFits, RenderedAt, ShowsFirst;
    combined, m := body + footer, 0;
    if |combined| > SUMMARY_LIMIT {
      var total := |counted|;
      var kept := Kept(body, footer, total);
      kept := kept + Closers(Unclosed(kept));
      ShippedIsKept(body, footer, total);
      var shown := ShownFindings(kept, counted);
      combined := kept + Notice(total - shown, total) + footer;
      SummaryFits(body, footer, counted, total - shown);
      if WellFolded(body) && PlainFooter(footer) {
        PageBalances(body, footer, total - shown, total);
      }
      if FirstLineFits(body, footer, total) && RenderedAt(Lines(body), counted, at) && "" !in counted && CLOSE !in counted {
        m := PageShowsFirst(body, footer, counted, at);
      }
    } else if Balanced(body) && PlainFooter(footer) {
      FooterHoldsNoTags(body, footer);
    }
  }

  lemma ShippedIsKept(body: string, footer: string, total: nat)
    ensures var kept := Kept(body, footer, total); Shipped(body, footer, total) == kept + Closers(Unclosed(kept))
  {
  }

  lemma PageBalances(body: string, footer: string, dropped: nat, total: nat)
    requires WellFolded(body) && PlainFooter(footer)
    ensures Balanced(Shipped(body, footer, total) + Notice(dropped, total) + footer)
  {
    hide Count, Notice, Shipped, WellFolded;
    SummaryFoldsBalance(body, footer, dropped, total);
  }
}
