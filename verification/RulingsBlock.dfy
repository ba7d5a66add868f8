/** The fenced `doug-rulings` block of a pull request's description (api/doug/rulings.py). */
module RulingsBlock {
  // Cutting a text into prose and fences the way CommonMark does, and reading the one block there may be.

  import opened Common

  const BLOCK_INFO: string := "doug-rulings"

  datatype Fence = Fence(mark: char, length: nat, info: string)

  /** A line of prose, or a fence with its body; an unclosed fence has no closer. */
  datatype Segment = Prose(line: string) | Fenced(opener: string, body: seq<string>, closer: Option<string>)

  // ------------------------------------------------------------- fence lines

  function RunEnd(s: string, i: nat, c: char): (e: nat)
    requires i <= |s|
    ensures i <= e <= |s|
    decreases |s| - i
  {
    if i < |s| && s[i] == c then RunEnd(s, i + 1, c) else i
  }

  /** _FENCE_RE: at most three spaces, at least three marks, an info string. */
  function FenceOf(line: string): Option<Fence> {
    var n := RunEnd(line, 0, ' ');
    if n > 3 || n == |line| || (line[n] != '`' && line[n] != '~') then None
    else
      var e := RunEnd(line, n, line[n]);
      if e - n < 3 then None else Some(Fence(line[n], e - n, Strip(line[e..])))
  }

  /** A line that opens a fence: a backtick fence's info string holds no backtick. */
  function OpenerOf(line: string): Option<Fence> {
    var f := FenceOf(line);
    if f.Some? && f.value.mark == '`' && '`' in f.value.info then None else f
  }

  /** The same mark, at least as often, and nothing after it. */
  predicate Closes(line: string, f: Fence) {
    var n := RunEnd(line, 0, ' ');
    && n <= 3
    && var e := RunEnd(line, n, f.mark);
       e - n >= f.length && forall k :: e <= k < |line| ==> IsSpace(line[k])
  }

  predicate OpensBlock(line: string) {
    FenceOf(line).Some? && FenceOf(line).value.info == BLOCK_INFO
  }

  // ----------------------------------------------------- fence lines, as written

  function Marks(c: char, n: nat): (s: string)
    ensures |s| == n && forall k :: 0 <= k < n ==> s[k] == c
  {
    seq(n, _ => c)
  }

  lemma {:induction false} RunEndIs(s: string, i: nat, e: nat, c: char)
    requires i <= e <= |s|
    ensures RunEnd(s, i, c) == e <==> (forall k :: i <= k < e ==> s[k] == c) && (e < |s| ==> s[e] != c)
    decreases |s| - i
  {
    if i < |s| && s[i] == c && i < e {
      RunEndIs(s, i + 1, e, c);
    } else if i < |s| && s[i] == c {
      RunGoesOn(s, i + 1, c);
    }
  }

  lemma {:induction false} RunGoesOn(s: string, i: nat, c: char)
    requires i <= |s|
    ensures RunEnd(s, i, c) >= i
  {
  }

  /** Up to three spaces, three or more of one mark, and whatever follows them. */
  ghost predicate SpellsFence(line: string, n: nat, mark: char, m: nat, tail: string) {
    && n <= 3 && m >= 3 && (mark == '`' || mark == '~')
    && line == Marks(' ', n) + Marks(mark, m) + tail && (tail != "" ==> tail[0] != mark)
  }

  /** The recognizer takes exactly the lines so spelt, and trims the info string. */
  lemma FenceGrammar(line: string, f: Fence)
    ensures FenceOf(line) == Some(f) <==>
              exists n: nat, tail :: SpellsFence(line, n, f.mark, f.length, tail) && f.info == Strip(tail)
  {
    hide Strip, RunEnd;
    if FenceOf(line) == Some(f) {
      var n := RunEnd(line, 0, ' ');
      var e := RunEnd(line, n, line[n]);
      RunEndIs(line, 0, n, ' ');
      RunEndIs(line, n, e, line[n]);
      assert line == Marks(' ', n) + Marks(line[n], e - n) + line[e..];
      assert SpellsFence(line, n, f.mark, f.length, line[e..]);
    }
    forall n: nat, tail | SpellsFence(line, n, f.mark, f.length, tail) && f.info == Strip(tail) ensures FenceOf(line) == Some(f) {
      SpeltFenceIsRead(line, n, f, tail);
    }
  }

  lemma SpeltFenceIsRead(line: string, n: nat, f: Fence, tail: string)
    requires SpellsFence(line, n, f.mark, f.length, tail) && f.info == Strip(tail)
    ensures FenceOf(line) == Some(f)
  {
    hide Strip, RunEnd;
    var e := n + f.length;
    assert forall k :: 0 <= k < n ==> line[k] == ' ';
    assert forall k :: n <= k < e ==> line[k] == f.mark;
    assert e < |line| ==> line[e] == tail[0];
    assert line[e..] == tail;
    RunEndIs(line, 0, n, ' ');
    RunEndIs(line, n, e, f.mark);
  }

  /** Every fence opens, but for backticks with a backtick in their info string. */
  lemma OpenerGrammar(line: string, f: Fence)
    ensures OpenerOf(line) == Some(f) <==>
              && !(f.mark == '`' && '`' in f.info)
              && exists n: nat, tail :: SpellsFence(line, n, f.mark, f.length, tail) && f.info == Strip(tail)
  {
    hide FenceOf, Strip, SpellsFence;
    FenceGrammar(line, f);
  }

  /** Closed by the same mark, as many times or more, alone on its line. */
  lemma CloserGrammar(line: string, f: Fence)
    requires (f.mark == '`' || f.mark == '~') && f.length > 0
    ensures Closes(line, f) <==> exists n: nat, m: nat, tail :: SpellsCloser(line, f, n, m, tail)
  {
    hide RunEnd;
    var n := RunEnd(line, 0, ' ');
    RunEndIs(line, 0, n, ' ');
    var e := RunEnd(line, n, f.mark);
    RunEndIs(line, n, e, f.mark);
    RunGoesOn(line, n, f.mark);
    if Closes(line, f) {
      assert line == Marks(' ', n) + Marks(f.mark, e - n) + line[e..];
      assert SpellsCloser(line, f, n, e - n, line[e..]);
    }
    forall k: nat, m: nat, tail | SpellsCloser(line, f, k, m, tail) ensures Closes(line, f) {
      SpeltCloserCloses(line, f, k, m, tail);
    }
  }

  ghost predicate SpellsCloser(line: string, f: Fence, n: nat, m: nat, tail: string) {
    && n <= 3 && m >= f.length && line == Marks(' ', n) + Marks(f.mark, m) + tail
    && forall k :: 0 <= k < |tail| ==> IsSpace(tail[k])
  }

  lemma SpeltCloserCloses(line: string, f: Fence, n: nat, m: nat, tail: string)
    requires (f.mark == '`' || f.mark == '~') && f.length > 0 && SpellsCloser(line, f, n, m, tail)
    ensures Closes(line, f)
  {
    hide RunEnd;
    assert !IsSpace('`') && !IsSpace('~');
    var e := n + m;
    assert forall k :: 0 <= k < n ==> line[k] == ' ';
    assert forall k :: n <= k < e ==> line[k] == f.mark;
    assert forall k :: e <= k < |line| ==> line[k] == tail[k - e];
    RunEndIs(line, 0, n, ' ');
    RunEndIs(line, n, e, f.mark);
  }

  /** A block opens at a fence of either mark whose info string is its name and nothing else. */
  lemma BlockLineGrammar(line: string)
    ensures OpensBlock(line) <==>
              exists n: nat, mark, m: nat, tail :: SpellsFence(line, n, mark, m, tail) && Strip(tail) == "doug-rulings"
  {
    hide FenceOf, Strip, SpellsFence;
    if OpensBlock(line) {
      FenceGrammar(line, FenceOf(line).value);
    }
    forall n: nat, mark, m: nat, tail | SpellsFence(line, n, mark, m, tail) && Strip(tail) == "doug-rulings" ensures OpensBlock(line) {
      FenceGrammar(line, Fence(mark, m, Strip(tail)));
    }
  }

  // ---------------------------------------------------------------- segments

  function CloserAt(lines: seq<string>, i: nat, f: Fence): (k: nat)
    requires i <= |lines|
    ensures i <= k <= |lines| && (k < |lines| ==> Closes(lines[k], f)) && forall j :: i <= j < k ==> !Closes(lines[j], f)
    decreases |lines| - i
  {
    if i == |lines| || Closes(lines[i], f) then i else CloserAt(lines, i + 1, f)
  }

  /** The first segment of a text, and how many lines it takes. */
  function FirstSegment(lines: seq<string>): (r: (Segment, nat))
    requires lines != []
    ensures 0 < r.1 <= |lines|
  {
    var opener := OpenerOf(lines[0]);
    if opener.None? then (Prose(lines[0]), 1)
    else
      var k := CloserAt(lines, 1, opener.value);
      if k == |lines| then (Fenced(lines[0], lines[1..], None), k) else (Fenced(lines[0], lines[1..k], Some(lines[k])), k + 1)
  }

  function Segments(lines: seq<string>): seq<Segment>
    decreases |lines|
  {
    if lines == [] then []
    else
      var (first, n) := FirstSegment(lines);
      [first] + Segments(lines[n..])
  }

  function LinesOf(s: Segment): seq<string> {
    match s
    case Prose(line) => [line]
    case Fenced(opener, body, closer) => [opener] + body + if closer.Some? then [closer.value] else []
  }

  function Flatten(segments: seq<Segment>): seq<string> {
    if segments == [] then [] else LinesOf(segments[0]) + Flatten(segments[1..])
  }

  /** Prose opens nothing, a body closes nothing, and only the last fence may stay open. */
  ghost predicate WellFormed(segments: seq<Segment>) {
    segments == [] || (IsSegment(segments[0]) && (StaysOpen(segments[0]) ==> |segments| == 1) && WellFormed(segments[1..]))
  }

  predicate StaysOpen(s: Segment) {
    s.Fenced? && s.closer.None?
  }

  ghost predicate IsSegment(s: Segment) {
    match s
    case Prose(line) => OpenerOf(line).None?
    case Fenced(opener, body, closer) =>
      && OpenerOf(opener).Some?
      && (forall k :: 0 <= k < |body| ==> !Closes(body[k], OpenerOf(opener).value))
      && (closer.Some? ==> Closes(closer.value, OpenerOf(opener).value))
  }

  lemma FirstSegmentIsCut(lines: seq<string>)
    requires lines != []
    ensures var (first, n) := FirstSegment(lines);
            LinesOf(first) + lines[n..] == lines && IsSegment(first) && (StaysOpen(first) ==> n == |lines|)
  {
    hide OpenerOf, Closes;
    var opener := OpenerOf(lines[0]);
    if opener.Some? {
      var k := CloserAt(lines, 1, opener.value);
      assert [lines[0]] + lines[1..k] == lines[..k];
    }
  }

  /** Every line of the text is in exactly one segment, in order, and every segment is what it must be. */
  lemma {:induction false} SegmentsKeepEveryLine(lines: seq<string>)
    ensures Flatten(Segments(lines)) == lines && WellFormed(Segments(lines))
    decreases |lines|
  {
    if lines != [] {
      var (first, n) := FirstSegment(lines);
      FirstSegmentIsCut(lines);
      SegmentsKeepEveryLine(lines[n..]);
      hide FirstSegment, IsSegment, LinesOf;
      assert Segments(lines) == [first] + Segments(lines[n..]);
    }
  }

  lemma CloserAtIs(lines: seq<string>, i: nat, k: nat, f: Fence)
    requires i <= k <= |lines| && (k < |lines| ==> Closes(lines[k], f)) && forall j :: i <= j < k ==> !Closes(lines[j], f)
    ensures CloserAt(lines, i, f) == k
  {
    hide Closes;
  }

  lemma FirstSegmentIsRead(s: Segment, more: seq<string>)
    requires IsSegment(s) && (StaysOpen(s) ==> more == [])
    ensures LinesOf(s) + more != [] && FirstSegment(LinesOf(s) + more) == (s, |LinesOf(s)|)
  {
    hide OpenerOf, Closes;
    var lines := LinesOf(s) + more;
    if s.Fenced? {
      var k := 1 + |s.body|;
      Slices(s.opener, s.body, if s.closer.Some? then [s.closer.value] + more else more, lines);
      CloserAtIs(lines, 1, k, OpenerOf(s.opener).value);
    }
  }

  lemma Slices(first: string, body: seq<string>, more: seq<string>, lines: seq<string>)
    requires lines == [first] + body + more
    ensures lines[0] == first && lines[1..1 + |body|] == body && lines[1..] == body + more
    ensures forall j :: 1 <= j < 1 + |body| ==> lines[j] == body[j - 1]
    ensures more != [] ==> lines[1 + |body|] == more[0]
  {
    assert lines == [first] + (body + more);
  }

  /** Writing well-formed segments out and cutting the text again gives them back: there is one way to cut. */
  lemma {:induction false} SegmentsAreReadBack(segments: seq<Segment>)
    requires WellFormed(segments)
    ensures Segments(Flatten(segments)) == segments
  {
    if segments != [] {
      var first, rest := segments[0], segments[1..];
      SegmentsAreReadBack(rest);
      FirstSegmentIsRead(first, Flatten(rest));
      hide FirstSegment, IsSegment, LinesOf;
      var lines := LinesOf(first) + Flatten(rest);
      assert lines[|LinesOf(first)|..] == Flatten(rest);
    }
  }

  // ---------------------------------------------------------------- _blocks

  datatype Found = Found(blocks: seq<seq<string>>, unclosed: nat, swallowed: nat)

  function Nothing(): Found { Found([], 0, 0) }

  /** What one segment adds to the count. */
  function Counted(found: Found, s: Segment): Found {
    if s.Prose? || OpenerOf(s.opener).None? then found
    else if OpenerOf(s.opener).value.info != BLOCK_INFO then
      if s.closer.None? && exists k :: 0 <= k < |s.body| && OpensBlock(s.body[k])
      then found.(swallowed := found.swallowed + 1) else found
    else if s.closer.Some? then found.(blocks := found.blocks + [s.body])
    else found.(unclosed := found.unclosed + 1)
  }

  function CountAll(found: Found, segments: seq<Segment>): Found
    decreases |segments|
  {
    if segments == [] then found else CountAll(Counted(found, segments[0]), segments[1..])
  }

  method Blocks(lines: seq<string>) returns (found: Found)
    ensures found == CountAll(Nothing(), Segments(lines))
  {
    hide OpenerOf, Closes, OpensBlock, Segments, FirstSegment, Counted, CountAll;
    found := Nothing();
    var i := 0;
    assert lines[0..] == lines;
    while i < |lines|
      invariant i <= |lines|
      invariant CountAll(found, Segments(lines[i..])) == CountAll(Nothing(), Segments(lines))
    {
      Unfold(found, lines[i..]);
      var opener, start := OpenerOf(lines[i]), i;
      i := i + 1;
      if opener.Some? {
        while i < |lines| && !Closes(lines[i], opener.value)
          invariant start < i <= |lines|
          invariant forall j :: start < j < i ==> !Closes(lines[j], opener.value)
        {
          i := i + 1;
        }
        FenceSegment(lines, start, i, opener.value);
        var body, closer := lines[start + 1..i], if i < |lines| then Some(lines[i]) else None;
        i := if closer.Some? then i + 1 else i;
        found := Counted(found, Fenced(lines[start], body, closer));
      } else {
        ProseSegment(lines, start, found);
      }
      assert lines[start..][i - start..] == lines[i..];
    }
    assert lines[i..] == [];
    NothingLeft(found);
  }

  lemma NothingLeft(found: Found)
    ensures CountAll(found, Segments([])) == found
  {
  }

  lemma Unfold(found: Found, lines: seq<string>)
    requires lines != []
    ensures var (first, n) := FirstSegment(lines);
            CountAll(found, Segments(lines)) == CountAll(Counted(found, first), Segments(lines[n..]))
  {
    hide FirstSegment, Counted;
    var (first, n) := FirstSegment(lines);
    assert Segments(lines)[1..] == Segments(lines[n..]);
  }

  lemma ProseSegment(lines: seq<string>, start: nat, found: Found)
    requires start < |lines| && OpenerOf(lines[start]).None?
    ensures FirstSegment(lines[start..]) == (Prose(lines[start]), 1) && Counted(found, Prose(lines[start])) == found
  {
    hide OpenerOf;
  }

  lemma FenceSegment(lines: seq<string>, start: nat, i: nat, f: Fence)
    requires start < i <= |lines| && OpenerOf(lines[start]) == Some(f)
    requires (i < |lines| ==> Closes(lines[i], f)) && forall j :: start < j < i ==> !Closes(lines[j], f)
    ensures var closer := if i < |lines| then Some(lines[i]) else None;
            FirstSegment(lines[start..]) == (Fenced(lines[start], lines[start + 1..i], closer), i - start + if closer.Some? then 1 else 0)
  {
    hide OpenerOf, Closes;
    var rest := lines[start..];
    assert forall j :: 0 <= j < |rest| ==> rest[j] == lines[start + j];
    CloserAtIs(rest, 1, i - start, f);
    assert rest[1..i - start] == lines[start + 1..i] && (i == |lines| ==> rest[1..] == lines[start + 1..i]);
  }

  // ------------------------------------------------------------------- parse

  datatype Reading = NoBlock | Unreadable | Rows(lines: seq<string>)

  /** Which rows `parse` goes on to read. */
  function Read(found: Found): Reading {
    if |found.blocks| + found.unclosed + found.swallowed == 0 then NoBlock
    else if |found.blocks| + found.unclosed + found.swallowed > 1 || found.swallowed > 0 || found.unclosed > 0 then Unreadable
    else Rows(found.blocks[0])
  }

  predicate IsBlock(s: Segment) {
    s.Fenced? && OpenerOf(s.opener).Some? && OpenerOf(s.opener).value.info == BLOCK_INFO
  }

  /** An open fence of another kind over a block's opening line. */
  predicate Swallows(s: Segment) {
    StaysOpen(s) && OpenerOf(s.opener).Some? && !IsBlock(s) && exists k :: 0 <= k < |s.body| && OpensBlock(s.body[k])
  }

  /** The segments that count for anything. */
  function Telling(segments: seq<Segment>): seq<Segment> {
    if segments == [] then []
    else (if IsBlock(segments[0]) || Swallows(segments[0]) then [segments[0]] else []) + Telling(segments[1..])
  }

  lemma {:induction false} CountOfTelling(found: Found, segments: seq<Segment>)
    ensures CountAll(found, segments) == CountAll(found, Telling(segments))
    decreases |segments|
  {
    hide OpenerOf, OpensBlock;
    if segments != [] {
      var first, rest := segments[0], segments[1..];
      CountOfTelling(Counted(found, first), rest);
      assert CountAll(found, segments) == CountAll(Counted(found, first), rest);
      if IsBlock(first) || Swallows(first) {
        var telling := Telling(segments);
        assert telling[0] == first && telling[1..] == Telling(rest);
        assert CountAll(found, telling) == CountAll(Counted(found, first), telling[1..]);
      } else {
        assert Counted(found, first) == found;
        assert Telling(segments) == Telling(rest);
      }
    }
  }

  lemma {:induction false} TotalCounts(found: Found, telling: seq<Segment>)
    requires forall k :: 0 <= k < |telling| ==> IsBlock(telling[k]) || Swallows(telling[k])
    ensures var r := CountAll(found, telling);
            |r.blocks| + r.unclosed + r.swallowed == |found.blocks| + found.unclosed + found.swallowed + |telling|
    decreases |telling|
  {
    hide OpenerOf, OpensBlock;
    if telling != [] {
      TotalCounts(Counted(found, telling[0]), telling[1..]);
    }
  }

  lemma {:induction false} TellingTells(segments: seq<Segment>)
    ensures forall k :: 0 <= k < |Telling(segments)| ==> IsBlock(Telling(segments)[k]) || Swallows(Telling(segments)[k])
  {
    hide IsBlock, Swallows;
    if segments != [] {
      TellingTells(segments[1..]);
    }
  }

  /**
    Rows are read exactly when one closed doug-rulings fence stands in the text outside every other
    fence, and no open fence hides another; an example inside a longer fence is example text.
   */
  lemma OneClosedBlockIsRead(lines: seq<string>, rows: seq<string>)
    ensures var telling := Telling(Segments(lines));
            Read(CountAll(Nothing(), Segments(lines))) == Rows(rows)
            <==> |telling| == 1 && IsBlock(telling[0]) && telling[0].closer.Some? && telling[0].body == rows
    ensures Read(CountAll(Nothing(), Segments(lines))) == NoBlock <==> Telling(Segments(lines)) == []
  {
    var telling := Telling(Segments(lines));
    CountOfTelling(Nothing(), Segments(lines));
    TellingTells(Segments(lines));
    TotalCounts(Nothing(), telling);
    hide OpenerOf, OpensBlock, Segments, Telling;
    if |telling| == 1 {
      assert telling[1..] == [];
      assert CountAll(Nothing(), telling) == Counted(Nothing(), telling[0]);
    }
  }

  // ------------------------------------------------------- a written block

  ghost predicate IsPlainProse(lines: seq<string>) {
    forall k :: 0 <= k < |lines| ==> OpenerOf(lines[k]).None?
  }

  lemma {:induction false} ProseIsCut(lines: seq<string>, rest: seq<string>)
    requires IsPlainProse(lines)
    ensures Segments(lines + rest) == ProseOf(lines) + Segments(rest)
  {
    hide OpenerOf;
    if lines == [] {
      assert lines + rest == rest && ProseOf(lines) == [];
    } else {
      assert (lines + rest)[0] == lines[0] && (lines + rest)[1..] == lines[1..] + rest;
      ProseIsCut(lines[1..], rest);
      OneProseLine(lines + rest);
      assert [Prose(lines[0])] + ProseOf(lines[1..]) == ProseOf(lines);
    }
  }

  function ProseOf(lines: seq<string>): (r: seq<Segment>)
    ensures |r| == |lines| && forall k :: 0 <= k < |r| ==> r[k] == Prose(lines[k])
  {
    seq(|lines|, k requires 0 <= k < |lines| => Prose(lines[k]))
  }

  lemma OneProseLine(lines: seq<string>)
    requires lines != [] && OpenerOf(lines[0]).None?
    ensures Segments(lines) == [Prose(lines[0])] + Segments(lines[1..])
  {
    hide OpenerOf;
  }

  lemma {:induction false} ProseAddsNothing(found: Found, lines: seq<string>)
    ensures CountAll(found, ProseOf(lines)) == found
  {
    if lines != [] {
      ProseAddsNothing(found, lines[1..]);
      assert ProseOf(lines)[1..] == ProseOf(lines[1..]);
    }
  }

  lemma {:induction false} CountSplits(found: Found, a: seq<Segment>, b: seq<Segment>)
    ensures CountAll(found, a + b) == CountAll(CountAll(found, a), b)
    decreases |a|
  {
    hide Counted;
    if a == [] {
      assert a + b == b;
    } else {
      assert (a + b)[0] == a[0] && (a + b)[1..] == a[1..] + b;
      CountSplits(Counted(found, a[0]), a[1..], b);
    }
  }

  /** An author's block, fenced by either mark and with prose around it, is read row for row. */
  lemma WrittenBlockIsRead(before: seq<string>, rows: seq<string>, after: seq<string>, n: nat, mark: char, m: nat, more: nat)
    requires IsPlainProse(before) && IsPlainProse(after) && n <= 3 && m >= 3 && (mark == '`' || mark == '~')
    requires forall k :: 0 <= k < |rows| ==> !Closes(rows[k], Fence(mark, m, "doug-rulings"))
    ensures var opener := Marks(' ', n) + Marks(mark, m) + "doug-rulings";
            var text := before + ([opener] + rows + [Marks(mark, m + more)] + after);
            Read(CountAll(Nothing(), Segments(text))) == Rows(rows)
  {
    hide OpenerOf, Closes, Segments, CountAll, Strip;
    var f := Fence(mark, m, "doug-rulings");
    var opener, closer := Marks(' ', n) + Marks(mark, m) + "doug-rulings", Marks(mark, m + more);
    var s := Fenced(opener, rows, Some(closer));
    BlockOpens(opener, n, f);
    MarksClose(closer, f);
    var rest := [opener] + rows + [closer] + after;
    assert LinesOf(s) + after == rest;
    FirstSegmentIsRead(s, after);
    OneSegmentThenRest(rest, s, after);
    ProseIsCut(before, rest);
    assert after == after + [];
    ProseIsCut(after, []);
    NothingIsCut();
    assert ProseOf(after) + [] == ProseOf(after);
    CountSplits(Nothing(), ProseOf(before), [s] + ProseOf(after));
    ProseAddsNothing(Nothing(), before);
    CountSplits(Nothing(), [s], ProseOf(after));
    OneBlockCounts(s, f);
    ProseAddsNothing(Found([rows], 0, 0), after);
  }

  lemma BlockOpens(opener: string, n: nat, f: Fence)
    requires n <= 3 && f.length >= 3 && (f.mark == '`' || f.mark == '~') && f.info == "doug-rulings"
    requires opener == Marks(' ', n) + Marks(f.mark, f.length) + "doug-rulings"
    ensures OpenerOf(opener) == Some(f)
  {
    hide OpenerOf, Marks, Strip;
    NameHoldsNoMark();
    InfoIsStripped();
    OpenerGrammar(opener, f);
    assert SpellsFence(opener, n, f.mark, f.length, "doug-rulings");
  }

  lemma NameHoldsNoMark()
    ensures '`' !in "doug-rulings" && "doug-rulings"[0] == 'd'
  {
  }

  lemma InfoIsStripped()
    ensures Strip("doug-rulings") == "doug-rulings"
  {
    var s := "doug-rulings";
    assert !IsSpace('d') && !IsSpace('s');
    assert SpaceRun(s, 0) == 0 && s[0..] == s && s[|s| - 1] == 's';
  }

  lemma MarksClose(closer: string, f: Fence)
    requires (f.mark == '`' || f.mark == '~') && f.length > 0 && |closer| >= f.length && closer == Marks(f.mark, |closer|)
    ensures Closes(closer, f)
  {
    assert closer == Marks(' ', 0) + Marks(f.mark, |closer|) + "";
    assert SpellsCloser(closer, f, 0, |closer|, "");
    CloserGrammar(closer, f);
  }

  lemma OneSegmentThenRest(lines: seq<string>, s: Segment, after: seq<string>)
    requires lines == LinesOf(s) + after && lines != [] && FirstSegment(lines) == (s, |LinesOf(s)|)
    ensures Segments(lines) == [s] + Segments(after)
  {
    hide FirstSegment, LinesOf;
    assert lines[|LinesOf(s)|..] == after;
  }

  lemma NothingIsCut()
    ensures Segments([]) == []
  {
  }

  lemma OneBlockCounts(s: Segment, f: Fence)
    requires s.Fenced? && s.closer.Some? && OpenerOf(s.opener) == Some(f) && f.info == "doug-rulings"
    ensures CountAll(Nothing(), [s]) == Found([s.body], 0, 0)
  {
    hide OpenerOf;
    assert CountAll(Counted(Nothing(), s), [s][1..]) == Counted(Nothing(), s);
  }
}
