/**
  The content-hash index over unified diff hunks (api/doug/hunks.py): a hunk is
  identified by its added and removed lines and by nothing else.
 */
module Hunks {

  /** Where Python's splitlines ends a line. */
  predicate IsBreak(c: char) {
    || c == '\n' || c == '\r' || c == '\U{000B}' || c == '\U{000C}' || c == '\U{001C}' || c == '\U{001D}'
    || c == '\U{001E}' || c == '\U{0085}' || c == '\U{2028}' || c == '\U{2029}'
  }

  /** The first line break at or after `i`, or the end. */
  function BreakAt(text: string, i: nat): (e: nat)
    requires i <= |text|
    ensures i <= e <= |text| && (e < |text| ==> IsBreak(text[e]))
    ensures forall k :: i <= k < e ==> !IsBreak(text[k])
    decreases |text| - i
  {
    if i == |text| || IsBreak(text[i]) then i else BreakAt(text, i + 1)
  }

  predicate Clean(line: string) {
    forall k :: 0 <= k < |line| ==> !IsBreak(line[k])
  }

  /** splitlines: a carriage return and line feed are one break, and a final break opens no line. */
  function SplitLines(text: string): (lines: seq<string>)
    ensures forall k :: 0 <= k < |lines| ==> Clean(lines[k])
    decreases |text|
  {
    if text == "" then []
    else
      var e := BreakAt(text, 0);
      if e == |text| then [text]
      else
        var width := if e + 1 < |text| && text[e] == '\r' && text[e + 1] == '\n' then 2 else 1;
        [text[..e]] + SplitLines(text[e + width..])
  }

  function Join(lines: seq<string>): string {
    if lines == [] then ""
    else if |lines| == 1 then lines[0]
    else lines[0] + "\n" + Join(lines[1..])
  }

  lemma SplitFirstLine(first: string, rest: string)
    requires Clean(first)
    ensures SplitLines(first + "\n" + rest) == [first] + SplitLines(rest)
  {
    var text := first + "\n" + rest;
    assert text[|first|] == '\n' && text[..|first|] == first && text[|first| + 1..] == rest;
    assert forall k :: 0 <= k < |first| ==> text[k] == first[k];
    assert BreakAt(text, 0) == |first|;
  }

  /** Any of the ten marks ends a line. */
  lemma EveryMarkEndsALine(first: string, mark: char, rest: string)
    requires Clean(first)
    requires mark in {'\n', '\r', '\U{000B}', '\U{000C}', '\U{001C}', '\U{001D}', '\U{001E}', '\U{0085}', '\U{2028}', '\U{2029}'}
    requires mark == '\r' ==> rest == "" || rest[0] != '\n'
    ensures SplitLines(first + [mark] + rest) == [first] + SplitLines(rest)
  {
    var text, n := first + [mark] + rest, |first|;
    assert text[n] == mark && text[..n] == first && text[n + 1..] == rest;
    assert n + 1 < |text| ==> text[n + 1] == rest[0];
    assert forall k :: 0 <= k < n ==> text[k] == first[k];
    assert BreakAt(text, 0) == n;
  }

  /** A carriage return and line feed end one line together. */
  lemma CrLfIsOneBreak(first: string, rest: string)
    requires Clean(first)
    ensures SplitLines(first + "\r\n" + rest) == [first] + SplitLines(rest)
  {
    var text, n := first + "\r\n" + rest, |first|;
    assert text[n] == '\r' && text[n + 1] == '\n' && text[..n] == first && text[n + 2..] == rest;
    assert forall k :: 0 <= k < n ==> text[k] == first[k];
    assert BreakAt(text, 0) == n;
  }

  /** Nothing else does: white space and every printable character stay on their line. */
  lemma OtherCharactersStay(line: string)
    requires line != "" && forall k :: 0 <= k < |line| ==> ' ' <= line[k] <= '~' || line[k] == '\t'
    ensures SplitLines(line) == [line]
  {
    SplitOneLine(line);
  }

  lemma SplitOneLine(line: string)
    requires Clean(line)
    ensures SplitLines(line) == if line == "" then [] else [line]
  {
    assert BreakAt(line, 0) == |line|;
  }

  /** Splitting what was joined gives the lines back, but for an empty last one. */
  lemma {:induction false} LinesOfJoin(lines: seq<string>)
    requires lines != [] && forall k :: 0 <= k < |lines| ==> Clean(lines[k])
    ensures SplitLines(Join(lines)) == if lines[|lines| - 1] == "" then lines[..|lines| - 1] else lines
  {
    hide SplitLines, Clean;
    if |lines| == 1 {
      SplitOneLine(lines[0]);
    } else {
      var rest := lines[1..];
      SplitFirstLine(lines[0], Join(rest));
      LinesOfJoin(rest);
      assert rest[|rest| - 1] == lines[|lines| - 1];
      assert [lines[0]] + rest == lines && [lines[0]] + rest[..|rest| - 1] == lines[..|lines| - 1];
    }
  }

  // -------------------------------------------------------------- the hunks

  predicate OpensHunk(line: string) {
    |line| >= 2 && line[..2] == "@@"
  }

  predicate IsChange(line: string) {
    |line| >= 1 && (line[0] == '+' || line[0] == '-') && !OpensHunk(line)
  }

  /** The lines grouped hunk by hunk; what precedes the first hunk is dropped. */
  function Grouped(lines: seq<string>): seq<seq<string>> {
    if lines == [] then []
    else
      var front, last := Grouped(lines[..|lines| - 1]), lines[|lines| - 1];
      if OpensHunk(last) then front + [[last]]
      else if front == [] then []
      else front[..|front| - 1] + [front[|front| - 1] + [last]]
  }

  function Texts(groups: seq<seq<string>>): (r: seq<string>)
    ensures |r| == |groups| && forall k :: 0 <= k < |r| ==> r[k] == Join(groups[k])
  {
    if groups == [] then [] else Texts(groups[..|groups| - 1]) + [Join(groups[|groups| - 1])]
  }

  function HunkTexts(patch: string): seq<string> {
    Texts(Grouped(SplitLines(patch)))
  }

  function Opened(done: seq<seq<string>>, current: seq<string>): seq<seq<string>> {
    if current == [] then done else done + [current]
  }

  lemma {:induction false} GroupedTo(lines: seq<string>, i: nat)
    requires i <= |lines|
    ensures Grouped(lines[..0]) == []
    ensures var front := Grouped(lines[..i]);
            i < |lines| ==>
              Grouped(lines[..i + 1]) == if OpensHunk(lines[i]) then front + [[lines[i]]]
                                         else if front == [] then []
                                         else front[..|front| - 1] + [front[|front| - 1] + [lines[i]]]
  {
    if i < |lines| {
      assert lines[..i + 1][..i] == lines[..i];
    }
  }

  method SplitHunks(patch: string) returns (hunks: seq<string>)
    ensures hunks == HunkTexts(patch)
  {
    hide OpensHunk, SplitLines, Join, Grouped;
    var lines := SplitLines(patch);
    assert Grouped(lines[..0]) == [] by { GroupedTo(lines, 0); }
    var current: seq<string>, done: seq<seq<string>> := [], [];
    for i := 0 to |lines|
      invariant Opened(done, current) == Grouped(lines[..i])
      invariant current == [] ==> done == []
    {
      var line := lines[i];
      GroupedTo(lines, i);
      if OpensHunk(line) {
        done := Opened(done, current);
        current := [line];
      } else if current != [] {
        current := current + [line];
      }
    }
    assert lines[..|lines|] == lines;
    return Texts(Opened(done, current));
  }

  function Flatten(groups: seq<seq<string>>): seq<string> {
    if groups == [] then [] else Flatten(groups[..|groups| - 1]) + groups[|groups| - 1]
  }

  /** The preamble holds no hunk header, and each hunk has exactly one, in front. */
  ghost predicate IsSplit(lines: seq<string>, preamble: nat, groups: seq<seq<string>>) {
    && preamble <= |lines|
    && (forall k :: 0 <= k < preamble ==> !OpensHunk(lines[k]))
    && lines[preamble..] == Flatten(groups)
    && (forall g :: 0 <= g < |groups| ==> OneHeader(groups[g]))
  }

  ghost predicate OneHeader(group: seq<string>) {
    |group| > 0 && OpensHunk(group[0]) && forall k :: 0 < k < |group| ==> !OpensHunk(group[k])
  }

  function PreambleLength(lines: seq<string>): (k: nat)
    ensures k <= |lines|
  {
    if lines == [] then 0
    else
      var k := PreambleLength(lines[..|lines| - 1]);
      if k == |lines| - 1 && !OpensHunk(lines[k]) then |lines| else k
  }

  lemma SplitOneMore(front: seq<string>, last: string, preamble: nat, groups: seq<seq<string>>)
    requires IsSplit(front, preamble, groups)
    ensures OpensHunk(last) ==> IsSplit(front + [last], preamble, groups + [[last]])
    ensures !OpensHunk(last) && groups != [] ==>
              IsSplit(front + [last], preamble, groups[..|groups| - 1] + [groups[|groups| - 1] + [last]])
    ensures !OpensHunk(last) && groups == [] ==> IsSplit(front + [last], |front| + 1, [])
  {
    hide OpensHunk, Flatten, OneHeader;
    var lines := front + [last];
    assert lines[preamble..] == front[preamble..] + [last];
    if groups == [] {
      NothingFlattens();
      assert preamble == |front|;
    }
    if OpensHunk(last) {
      HunkOfOne(last);
      FlattenAppend(groups, [last]);
    } else if groups != [] {
      var early, final := groups[..|groups| - 1], groups[|groups| - 1];
      LastGrows(early, final, last);
      HunkGrows(final, last);
      assert early + [final] == groups;
    }
  }

  lemma NothingFlattens()
    ensures Flatten([]) == []
  {
  }

  lemma HunkOfOne(line: string)
    requires OpensHunk(line)
    ensures OneHeader([line])
  {
  }

  lemma {:induction false} LastGrows(early: seq<seq<string>>, final: seq<string>, last: string)
    ensures Flatten(early + [final + [last]]) == Flatten(early + [final]) + [last]
  {
    hide Flatten;
    FlattenAppend(early, final);
    FlattenAppend(early, final + [last]);
  }

  lemma HunkGrows(group: seq<string>, last: string)
    requires OneHeader(group) && !OpensHunk(last)
    ensures OneHeader(group + [last])
  {
    hide OpensHunk;
  }

  lemma FlattenAppend(groups: seq<seq<string>>, last: seq<string>)
    ensures Flatten(groups + [last]) == Flatten(groups) + last
  {
    assert (groups + [last])[..|groups|] == groups;
  }

  /** No line after the preamble is lost, repeated or moved. */
  lemma {:induction false} HunksKeepEveryLine(lines: seq<string>)
    ensures IsSplit(lines, PreambleLength(lines), Grouped(lines))
    ensures Grouped(lines) == [] <==> PreambleLength(lines) == |lines|
  {
    hide IsSplit, OpensHunk;
    if lines == [] {
      NothingSplits();
    } else {
      var front, last := lines[..|lines| - 1], lines[|lines| - 1];
      HunksKeepEveryLine(front);
      assert lines == front + [last];
      SplitOneMore(front, last, PreambleLength(front), Grouped(front));
    }
  }

  lemma NothingSplits()
    ensures IsSplit([], 0, [])
  {
  }

  /** There is only one way to split lines so. */
  lemma {:induction false} SplitIsUnique(lines: seq<string>, a: nat, left: seq<seq<string>>, b: nat, right: seq<seq<string>>)
    requires IsSplit(lines, a, left) && IsSplit(lines, b, right)
    ensures a == b && left == right
    decreases |lines|
  {
    if left == [] {
      EmptySplit(lines, a, left, b, right);
    } else if right == [] {
      EmptySplit(lines, b, right, a, left);
    } else {
      var m, n := |left| - 1, |right| - 1;
      LastGroup(lines, a, left);
      LastGroup(lines, b, right);
      var p, q := |lines| - |left[m]|, |lines| - |right[n]|;
      assert p == q;
      SplitIsUnique(lines[..p], a, left[..m], b, right[..n]);
      assert left == left[..m] + [left[m]] && right == right[..n] + [right[n]];
    }
  }

  lemma EmptySplit(lines: seq<string>, a: nat, left: seq<seq<string>>, b: nat, right: seq<seq<string>>)
    requires IsSplit(lines, a, left) && IsSplit(lines, b, right) && left == []
    ensures a == |lines| == b && right == []
  {
    if right != [] {
      LastGroup(lines, b, right);
    }
  }

  lemma LastGroup(lines: seq<string>, preamble: nat, groups: seq<seq<string>>)
    requires IsSplit(lines, preamble, groups) && groups != []
    ensures var last := groups[|groups| - 1]; var p := |lines| - |last|;
            && preamble <= p < |lines| && lines[p..] == last && OpensHunk(lines[p])
            && (forall k :: p < k < |lines| ==> !OpensHunk(lines[k]))
            && IsSplit(lines[..p], preamble, groups[..|groups| - 1])
  {
    var last := groups[|groups| - 1];
    var rest := Flatten(groups[..|groups| - 1]);
    var p := |lines| - |last|;
    assert lines == lines[..preamble] + (rest + last);
    assert p == preamble + |rest|;
    assert lines[p..] == last;
    assert lines[..p][preamble..] == rest;
    forall k | p < k < |lines| ensures !OpensHunk(lines[k]) {
      assert lines[k] == last[k - p];
    }
  }

  // -------------------------------------------------------------- the index

  /** A cryptographic hash, taken to be one to one. */
  datatype Digest = Sha256(text: string)

  function ChangedLines(lines: seq<string>): (r: seq<string>)
    ensures forall k :: 0 <= k < |r| ==> IsChange(r[k]) && r[k] in lines
  {
    if lines == [] then []
    else ChangedLines(lines[..|lines| - 1]) + if IsChange(lines[|lines| - 1]) then [lines[|lines| - 1]] else []
  }

  function HashHunk(hunk: string): Digest {
    Sha256(Join(ChangedLines(SplitLines(hunk))))
  }

  function Hashes(patch: string): (r: seq<Digest>)
    ensures |r| == |HunkTexts(patch)| && forall k :: 0 <= k < |r| ==> r[k] == HashHunk(HunkTexts(patch)[k])
  {
    var texts := HunkTexts(patch);
    seq(|texts|, k requires 0 <= k < |texts| => HashHunk(texts[k]))
  }

  lemma {:induction false} GroupsAreClean(lines: seq<string>)
    requires forall k :: 0 <= k < |lines| ==> Clean(lines[k])
    ensures forall g, k :: 0 <= g < |Grouped(lines)| && 0 <= k < |Grouped(lines)[g]| ==> Clean(Grouped(lines)[g][k])
    ensures forall g :: 0 <= g < |Grouped(lines)| ==> Grouped(lines)[g] != []
  {
    if lines != [] {
      GroupsAreClean(lines[..|lines| - 1]);
    }
  }

  /** Joining a hunk and splitting it again keeps its changed lines. */
  lemma HashIsOfChangedLines(group: seq<string>)
    requires group != [] && forall k :: 0 <= k < |group| ==> Clean(group[k])
    ensures HashHunk(Join(group)) == Sha256(Join(ChangedLines(group)))
  {
    hide Join, SplitLines, Clean;
    LinesOfJoin(group);
    if group[|group| - 1] == "" {
      ChangedOfFront(group);
    }
  }

  lemma ChangedOfFront(lines: seq<string>)
    requires lines != [] && lines[|lines| - 1] == ""
    ensures ChangedLines(lines[..|lines| - 1]) == ChangedLines(lines)
  {
  }

  lemma ChangesAreRecoverable(a: seq<string>, b: seq<string>)
    requires forall k :: 0 <= k < |a| ==> Clean(a[k])
    requires forall k :: 0 <= k < |b| ==> Clean(b[k])
    requires Join(ChangedLines(a)) == Join(ChangedLines(b))
    ensures ChangedLines(a) == ChangedLines(b)
  {
    var x, y := ChangedLines(a), ChangedLines(b);
    if x == [] || y == [] {
      NoChangesJoinEmpty(a);
      NoChangesJoinEmpty(b);
    } else {
      LinesOfJoin(x);
      LinesOfJoin(y);
    }
  }

  lemma NoChangesJoinEmpty(a: seq<string>)
    ensures Join(ChangedLines(a)) == "" <==> ChangedLines(a) == []
  {
    var x := ChangedLines(a);
    if x != [] {
      assert IsChange(x[0]);
    }
  }

  ghost predicate SameChanges(a: seq<seq<string>>, b: seq<seq<string>>) {
    |a| == |b| && forall k :: 0 <= k < |a| ==> ChangedLines(a[k]) == ChangedLines(b[k])
  }

  /**
    Two patches have one index exactly when their hunks change the same lines in order:
    positions, section headings and context never show.
   */
  lemma IndexIsOfChangesOnly(p: string, q: string)
    ensures Hashes(p) == Hashes(q) <==> SameChanges(Grouped(SplitLines(p)), Grouped(SplitLines(q)))
  {
    var a, b := Grouped(SplitLines(p)), Grouped(SplitLines(q));
    GroupsAreClean(SplitLines(p));
    GroupsAreClean(SplitLines(q));
    forall k | 0 <= k < |a| ensures Hashes(p)[k] == Sha256(Join(ChangedLines(a[k]))) {
      HashIsOfChangedLines(a[k]);
    }
    forall k | 0 <= k < |b| ensures Hashes(q)[k] == Sha256(Join(ChangedLines(b[k]))) {
      HashIsOfChangedLines(b[k]);
    }
    if Hashes(p) == Hashes(q) {
      forall k | 0 <= k < |a| ensures ChangedLines(a[k]) == ChangedLines(b[k]) {
        assert Hashes(p)[k] == Hashes(q)[k];
        ChangesAreRecoverable(a[k], b[k]);
      }
    }
  }
}
