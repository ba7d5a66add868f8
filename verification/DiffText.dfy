/**
  The diff the model reads as one text (api/doug/reader.py, api/doug/review.py):
  printing files into it, and finding them again by their header lines.
 */
module DiffText {
  import opened Common

  // ------------------------------------------------------------ header lines

  predicate IsLower(c: char) { 'a' <= c <= 'z' }

  /** The words GitHub has for a file's status. */
  lemma StatusesAreLower()
    ensures AllLower("added") && AllLower("modified") && AllLower("removed") && AllLower("renamed") && AllLower("copied")
    ensures AllLower("changed") && AllLower("unchanged") && AllLower("abcdefghijklmnopqrstuvwxyz")
    ensures !IsLower('`') && !IsLower('{') && !IsLower(',')
  {
  }

  /** The end of the run of lower-case letters at `i`. */
  function LowerRun(s: string, i: nat): (e: nat)
    requires i <= |s|
    ensures i <= e <= |s| && (forall k :: i <= k < e ==> IsLower(s[k])) && (e < |s| ==> !IsLower(s[e]))
    decreases |s| - i
  {
    if i < |s| && IsLower(s[i]) then LowerRun(s, i + 1) else i
  }

  function DigitRun(s: string, i: nat): (e: nat)
    requires i <= |s|
    ensures i <= e <= |s| && (forall k :: i <= k < e ==> IsDigit(s[k])) && (e < |s| ==> !IsDigit(s[e]))
    decreases |s| - i
  {
    if i < |s| && IsDigit(s[i]) then DigitRun(s, i + 1) else i
  }

  /** What follows the opening parenthesis: a status word and the two counts. */
  predicate ParsesAsCounts(s: string) {
    var a := LowerRun(s, 0);
    && a > 0 && a + 3 <= |s| && s[a..a + 3] == ", +"
    && var d := DigitRun(s, a + 3);
       && d > a + 3 && d + 2 <= |s| && s[d..d + 2] == "/-"
       && var e := DigitRun(s, d + 2); e > d + 2 && s[e..] == ")"
  }

  function LastParen(s: string): (r: Option<nat>)
    ensures r.Some? ==> r.value < |s| && s[r.value] == '(' && forall k :: r.value < k < |s| ==> s[k] != '('
    ensures r.None? ==> forall k :: 0 <= k < |s| ==> s[k] != '('
  {
    if s == "" then None
    else if s[|s| - 1] == '(' then Some(|s| - 1)
    else LastParen(s[..|s| - 1])
  }

  /** The file a line is the header of: _FILE_HEADER on one line. */
  function HeaderName(line: string): (r: Option<string>) {
    match LastParen(line)
    case None => None
    case Some(q) =>
      if q >= 6 && line[..4] == "### " && line[q - 1] == ' ' && ParsesAsCounts(line[q + 1..])
      then Some(line[4..q - 1])
      else None
  }

  predicate AllLower(s: string) { forall k :: 0 <= k < |s| ==> IsLower(s[k]) }

  function Counts(status: string, additions: string, deletions: string): string {
    status + ", +" + additions + "/-" + deletions + ")"
  }

  /** A line is a header of `name` when it is written like one. */
  ghost predicate IsHeaderOf(line: string, name: string) {
    exists status, additions, deletions ::
      WrittenCounts(status, additions, deletions) && line == "### " + name + " (" + Counts(status, additions, deletions)
  }

  ghost predicate WrittenCounts(status: string, additions: string, deletions: string) {
    && status != "" && AllLower(status)
    && additions != "" && AllDigits(additions)
    && deletions != "" && AllDigits(deletions)
  }

  lemma Pieces(s: string, a: nat, d: nat, e: nat)
    requires a + 3 <= d && d + 2 <= e <= |s|
    requires s[a..a + 3] == ", +" && s[d..d + 2] == "/-" && s[e..] == ")"
    ensures s == Counts(s[..a], s[a + 3..d], s[d + 2..e])
  {
    assert s == s[..a] + s[a..a + 3] + s[a + 3..d] + s[d..d + 2] + s[d + 2..e] + s[e..];
  }

  lemma RunsAreAll(s: string, i: nat)
    requires i <= |s|
    ensures AllLower(s[i..LowerRun(s, i)]) && AllDigits(s[i..DigitRun(s, i)])
  {
  }

  lemma ParsedCountsAreWritten(s: string)
    requires ParsesAsCounts(s)
    ensures exists status, additions, deletions :: WrittenCounts(status, additions, deletions) && s == Counts(status, additions, deletions)
  {
    var a := LowerRun(s, 0);
    var d := DigitRun(s, a + 3);
    var e := DigitRun(s, d + 2);
    var status, additions, deletions := s[..a], s[a + 3..d], s[d + 2..e];
    RunsAreAll(s, 0);
    RunsAreAll(s, a + 3);
    RunsAreAll(s, d + 2);
    assert s[0..a] == s[..a];
    Pieces(s, a, d, e);
    hide AllLower, AllDigits, Counts, LowerRun, DigitRun;
    assert WrittenCounts(status, additions, deletions) && s == Counts(status, additions, deletions);
  }

  lemma LowerRunIs(s: string, i: nat, e: nat)
    requires i <= e < |s| && AllLower(s[i..e]) && !IsLower(s[e])
    ensures LowerRun(s, i) == e
  {
    assert forall k :: i <= k < e ==> s[k] == s[i..e][k - i];
  }

  lemma DigitRunIs(s: string, i: nat, e: nat)
    requires i <= e < |s| && AllDigits(s[i..e]) && !IsDigit(s[e])
    ensures DigitRun(s, i) == e
  {
    assert forall k :: i <= k < e ==> s[k] == s[i..e][k - i];
  }

  /** Where each part of the counts stands. */
  lemma CountsLayout(status: string, additions: string, deletions: string)
    ensures var s, a := Counts(status, additions, deletions), |status|;
            var d := a + 3 + |additions|;
            var e := d + 2 + |deletions|;
            && |s| == e + 1 && s[..a] == status && s[a + 3..d] == additions && s[d + 2..e] == deletions
            && s[a..a + 3] == ", +" && s[d..d + 2] == "/-" && s[e..] == ")"
  {
  }

  lemma RunsParse(s: string, a: nat, d: nat, e: nat)
    requires a > 0 && a + 3 < d && d + 2 < e < |s|
    requires s[a..a + 3] == ", +" && s[d..d + 2] == "/-" && s[e..] == ")"
    requires LowerRun(s, 0) == a && DigitRun(s, a + 3) == d && DigitRun(s, d + 2) == e
    ensures ParsesAsCounts(s)
  {
  }

  lemma WrittenCountsParse(status: string, additions: string, deletions: string)
    requires WrittenCounts(status, additions, deletions)
    ensures ParsesAsCounts(Counts(status, additions, deletions))
  {
    var s, a := Counts(status, additions, deletions), |status|;
    var d := a + 3 + |additions|;
    var e := d + 2 + |deletions|;
    CountsLayout(status, additions, deletions);
    hide Counts;
    assert s[a] == s[a..a + 3][0] == ',' && s[d] == s[d..d + 2][0] == '/' && s[e] == s[e..][0] == ')';
    assert s[0..a] == s[..a];
    hide AllLower, AllDigits, ParsesAsCounts, IsLower, IsDigit;
    LowerRunIs(s, 0, a);
    DigitRunIs(s, a + 3, d);
    DigitRunIs(s, d + 2, e);
    RunsParse(s, a, d, e);
  }

  lemma CountsHoldNoParen(status: string, additions: string, deletions: string)
    requires WrittenCounts(status, additions, deletions)
    ensures forall k :: 0 <= k < |Counts(status, additions, deletions)| ==> Counts(status, additions, deletions)[k] !in {'(', '\n'}
  {
    CountsLayout(status, additions, deletions);
    assert forall c: char :: IsLower(c) || IsDigit(c) ==> c !in {'(', '\n'};
  }

  /** The recognizer agrees with the grammar, and a line is the header of at most one name. */
  lemma HeaderNameIsExact(line: string, name: string)
    ensures HeaderName(line) == Some(name) <==> name != "" && IsHeaderOf(line, name)
  {
    if HeaderName(line) == Some(name) {
      ParsedHeaderIsWritten(line);
    }
    if name != "" && IsHeaderOf(line, name) {
      var status, additions, deletions :|
        WrittenCounts(status, additions, deletions) && line == "### " + name + " (" + Counts(status, additions, deletions);
      hide *;
      WrittenHeaderParses(name, status, additions, deletions);
    }
  }

  lemma ParsedHeaderIsWritten(line: string)
    requires HeaderName(line).Some?
    ensures var name := HeaderName(line).value; name != "" && IsHeaderOf(line, name)
  {
    hide ParsesAsCounts, WrittenCounts, Counts;
    var q := LastParen(line).value;
    ParsedCountsAreWritten(line[q + 1..]);
    assert line == line[..4] + line[4..q - 1] + line[q - 1..q + 1] + line[q + 1..];
    assert line[q - 1..q + 1] == " (";
  }

  lemma WrittenHeaderParses(name: string, status: string, additions: string, deletions: string)
    requires name != "" && WrittenCounts(status, additions, deletions)
    ensures HeaderName("### " + name + " (" + Counts(status, additions, deletions)) == Some(name)
  {
    hide ParsesAsCounts, WrittenCounts;
    var counts := Counts(status, additions, deletions);
    var line := "### " + name + " (" + counts;
    WrittenCountsParse(status, additions, deletions);
    CountsHoldNoParen(status, additions, deletions);
    hide Counts;
    var q := |name| + 5;
    assert line[q] == '(' && line[q - 1] == ' ' && line[..4] == "### " && line[4..q - 1] == name && line[q + 1..] == counts;
    assert forall k :: q < k < |line| ==> line[k] == counts[k - q - 1];
  }

  // ---------------------------------------------------- finding the headers

  /** A header line's place: `text[start..end]`, without its line feed. */
  datatype Header = Header(start: nat, end: nat, name: string)

  function HeaderAt(line: string, base: nat): seq<Header> {
    match HeaderName(line)
    case None => []
    case Some(name) => [Header(base, base + |line|, name)]
  }

  /** Every header line of the text, in order; `base` is where the text begins. */
  function HeadersFrom(text: string, base: nat): seq<Header>
    decreases |text|
  {
    var e := LineEnd(text);
    HeaderAt(text[..e], base) + if e < |text| then HeadersFrom(text[e + 1..], base + e + 1) else []
  }

  function Headers(text: string): seq<Header> {
    HeadersFrom(text, 0)
  }

  ghost predicate InOrder(headers: seq<Header>, from: nat, to: nat) {
    && (forall k :: 0 <= k < |headers| ==> from <= headers[k].start < headers[k].end <= to)
    && (forall k, l :: 0 <= k < l < |headers| ==> headers[k].end < headers[l].start)
  }

  lemma HeaderAtIsInOrder(line: string, base: nat)
    ensures InOrder(HeaderAt(line, base), base, base + |line|)
  {
  }

  lemma OrdersCompose(first: seq<Header>, rest: seq<Header>, from: nat, mid: nat, to: nat)
    requires InOrder(first, from, mid) && InOrder(rest, mid + 1, to) && from <= mid < to + 1
    ensures InOrder(first + rest, from, to)
  {
  }

  /** Headers are whole lines of the text, one after the other. */
  lemma {:induction false} HeadersAreInOrder(text: string, base: nat)
    ensures InOrder(HeadersFrom(text, base), base, base + |text|)
    decreases |text|
  {
    hide HeaderAt, InOrder;
    var e := LineEnd(text);
    HeaderAtIsInOrder(text[..e], base);
    if e < |text| {
      HeadersAreInOrder(text[e + 1..], base + e + 1);
      assert base + e + 1 + |text[e + 1..]| == base + |text|;
      OrdersCompose(HeaderAt(text[..e], base), HeadersFrom(text[e + 1..], base + e + 1), base, base + e, base + |text|);
    } else {
      assert HeadersFrom(text, base) == HeaderAt(text[..e], base);
    }
  }

  // --------------------------------------------------- the headers of pieces

  lemma HeadersOfFirstLine(line: string, rest: string, base: nat)
    requires forall k :: 0 <= k < |line| ==> line[k] != '\n'
    ensures HeadersFrom(line + "\n" + rest, base) == HeaderAt(line, base) + HeadersFrom(rest, base + |line| + 1)
  {
    hide HeaderAt;
    var text := line + "\n" + rest;
    assert forall k :: 0 <= k < |line| ==> text[k] == line[k];
    LineEndIs(text, |line|);
    assert text[..|line|] == line && text[|line| + 1..] == rest;
  }

  /** A line feed between two texts keeps their headers apart. */
  lemma {:induction false} HeadersOfTwo(a: string, b: string, base: nat)
    ensures HeadersFrom(a + "\n" + b, base) == HeadersFrom(a, base) + HeadersFrom(b, base + |a| + 1)
    decreases |a|
  {
    hide HeaderAt, HeadersFrom;
    var e := LineEnd(a);
    if e == |a| {
      HeadersOfFirstLine(a, b, base);
      HeadersOfLine(a, base);
    } else {
      var line, rest := a[..e], a[e + 1..];
      assert a == line + "\n" + rest;
      assert a + "\n" + b == line + "\n" + (rest + "\n" + b);
      HeadersOfFirstLine(line, rest, base);
      HeadersOfFirstLine(line, rest + "\n" + b, base);
      HeadersOfTwo(rest, b, base + e + 1);
      assert base + e + 1 + |rest| + 1 == base + |a| + 1;
    }
  }

  lemma HeadersOfLine(line: string, base: nat)
    requires forall k :: 0 <= k < |line| ==> line[k] != '\n'
    ensures HeadersFrom(line, base) == HeaderAt(line, base)
  {
    assert LineEnd(line) == |line| && line[..|line|] == line;
  }

  /** Where the text begins does not matter to whether it holds a header. */
  lemma {:induction false} NoHeadersAnywhere(text: string, base: nat, other: nat)
    requires HeadersFrom(text, base) == []
    ensures HeadersFrom(text, other) == []
    decreases |text|
  {
    hide HeaderAt, HeadersFrom;
    var e := LineEnd(text);
    NoHeaderElsewhere(text[..e], base, other);
    FirstLineThenRest(text, base);
    FirstLineThenRest(text, other);
    if e < |text| {
      NoHeadersAnywhere(text[e + 1..], base + e + 1, other + e + 1);
    }
  }

  lemma {:induction false} FirstLineThenRest(text: string, base: nat)
    ensures var e := LineEnd(text);
            HeadersFrom(text, base) == HeaderAt(text[..e], base) + if e < |text| then HeadersFrom(text[e + 1..], base + e + 1) else []
  {
    hide HeaderAt, LineEnd;
  }

  lemma NoHeaderElsewhere(line: string, base: nat, other: nat)
    ensures HeaderAt(line, base) == [] ==> HeaderAt(line, other) == []
  {
  }

  /** No line begins with a number sign: each line of a unified patch begins with @, a space, +, - or a backslash. */
  ghost predicate NoNumberSignLine(text: string) {
    forall i :: 0 <= i < |text| && text[i] == '#' ==> i > 0 && text[i - 1] != '\n'
  }

  /** Hence no unified patch holds a line shaped like a header. */
  lemma {:induction false} UnifiedPatchHoldsNoHeader(text: string, base: nat)
    requires NoNumberSignLine(text)
    ensures HeadersFrom(text, base) == []
    decreases |text|
  {
    hide HeaderAt, HeadersFrom, NoNumberSignLine;
    var e := LineEnd(text);
    FirstLineHasNoSign(text, e);
    NoHeaderWithoutSign(text[..e], base);
    FirstLineThenRest(text, base);
    if e < |text| {
      UnifiedPatchHoldsNoHeader(text[e + 1..], base + e + 1);
    }
  }

  lemma FirstLineHasNoSign(text: string, e: nat)
    requires NoNumberSignLine(text) && e <= |text| && (e < |text| ==> text[e] == '\n')
    ensures e > 0 ==> text[..e][0] != '#'
    ensures e < |text| ==> NoNumberSignLine(text[e + 1..])
  {
    if e < |text| {
      var rest := text[e + 1..];
      forall i | 0 <= i < |rest| && rest[i] == '#' ensures i > 0 && rest[i - 1] != '\n' {
        assert text[e + 1 + i] == '#' && text[e + i] != '\n';
      }
    }
  }

  lemma HeaderBeginsWithSign(line: string)
    ensures HeaderName(line).Some? ==> line != "" && line[0] == '#'
  {
    if HeaderName(line).Some? {
      assert line[..4][0] == '#';
    }
  }

  lemma NoHeaderWithoutSign(line: string, base: nat)
    requires line != "" ==> line[0] != '#'
    ensures HeaderAt(line, base) == []
  {
    HeaderBeginsWithSign(line);
  }

  // ---------------------------------------------------------- printing files

  datatype FileDiff = FileDiff(name: string, status: string, additions: nat, deletions: nat, patch: string)

  /** diff_chunk. */
  function DiffChunk(f: FileDiff): string {
    HeaderLine(f) + "\n" + f.patch
  }

  function HeaderLine(f: FileDiff): string {
    "### " + f.name + " (" + Counts(f.status, Decimal(f.additions), Decimal(f.deletions))
  }

  const SEPARATOR: string := "\n\n"

  /** The chunks joined by the separator. */
  function Assemble(files: seq<FileDiff>): string {
    if files == [] then ""
    else if |files| == 1 then DiffChunk(files[0])
    else Assemble(files[..|files| - 1]) + SEPARATOR + DiffChunk(files[|files| - 1])
  }

  /** A name and status as GitHub gives them, and a patch with no line shaped like a header. */
  ghost predicate Printable(f: FileDiff) {
    && f.name != "" && (forall k :: 0 <= k < |f.name| ==> f.name[k] != '\n')
    && f.status != "" && AllLower(f.status)
    && Headers(f.patch) == []
  }

  /** Where file `k`'s chunk begins and where its patch ends. */
  function ChunkStart(files: seq<FileDiff>, k: nat): nat
    requires k < |files|
  {
    if k == 0 then 0 else |Assemble(files[..k])| + |SEPARATOR|
  }

  function ChunkEnd(files: seq<FileDiff>, k: nat): nat
    requires k < |files|
  {
    |Assemble(files[..k + 1])|
  }

  lemma HeadersOfChunk(f: FileDiff, base: nat)
    requires Printable(f)
    ensures HeadersFrom(DiffChunk(f), base) == [Header(base, base + |HeaderLine(f)|, f.name)]
  {
    hide Headers, HeadersFrom, Counts, Decimal, HeaderName, AllLower, AllDigits;
    var additions, deletions := Decimal(f.additions), Decimal(f.deletions);
    HeadersOfTwo(HeaderLine(f), f.patch, base);
    CountsHoldNoParen(f.status, additions, deletions);
    WrittenHeaderParses(f.name, f.status, additions, deletions);
    HeadersOfLine(HeaderLine(f), base);
    NoHeadersAtAll(f.patch, base + |HeaderLine(f)| + 1);
  }

  lemma NoHeadersAtAll(text: string, base: nat)
    requires Headers(text) == []
    ensures HeadersFrom(text, base) == []
  {
    NoHeadersAnywhere(text, 0, base);
  }

  /** The headers found are the files printed, in order, each where its chunk begins. */
  ghost predicate FindsFiles(files: seq<FileDiff>, headers: seq<Header>) {
    && |headers| == |files|
    && forall k :: 0 <= k < |files| ==>
         headers[k] == Header(ChunkStart(files, k), ChunkStart(files, k) + |HeaderLine(files[k])|, files[k].name)
  }

  lemma {:induction false} HeadersOfAssembled(files: seq<FileDiff>)
    requires forall k :: 0 <= k < |files| ==> Printable(files[k])
    ensures FindsFiles(files, Headers(Assemble(files)))
  {
    hide HeadersFrom, Printable, DiffChunk, HeaderLine;
    if |files| == 0 {
      HeadersOfLine("", 0);
    } else if |files| == 1 {
      HeadersOfChunk(files[0], 0);
    } else {
      var front, last := files[..|files| - 1], files[|files| - 1];
      var text := Assemble(front);
      HeadersOfAssembled(front);
      HeadersOfNext(text, last);
      StartsOfFront(files);
    }
  }

  /** One more chunk brings one more header. */
  lemma HeadersOfNext(text: string, f: FileDiff)
    requires Printable(f)
    ensures var start := |text| + |SEPARATOR|;
            Headers(text + SEPARATOR + DiffChunk(f)) == Headers(text) + [Header(start, start + |HeaderLine(f)|, f.name)]
  {
    hide HeadersFrom, Printable, DiffChunk, HeaderLine;
    assert text + SEPARATOR + DiffChunk(f) == text + "\n" + ("" + "\n" + DiffChunk(f));
    HeadersOfTwo(text, "" + "\n" + DiffChunk(f), 0);
    HeadersOfTwo("", DiffChunk(f), |text| + 1);
    HeadersOfLine("", |text| + 1);
    HeadersOfChunk(f, |text| + 2);
  }

  lemma StartsOfFront(files: seq<FileDiff>)
    requires files != []
    ensures forall k :: 0 <= k < |files| - 1 ==> ChunkStart(files, k) == ChunkStart(files[..|files| - 1], k)
  {
    var front := files[..|files| - 1];
    assert forall k :: 0 <= k < |files| - 1 ==> front[..k] == files[..k];
  }

  /** The text of the first files is how the text of all of them begins. */
  lemma {:induction false} AssembleGrows(files: seq<FileDiff>, k: nat)
    requires k <= |files|
    ensures |Assemble(files[..k])| <= |Assemble(files)|
    ensures Assemble(files)[..|Assemble(files[..k])|] == Assemble(files[..k])
  {
    hide DiffChunk;
    if k < |files| {
      var front := files[..|files| - 1];
      AssembleGrows(front, k);
      assert front[..k] == files[..k];
      assert |files| >= 2 ==> Assemble(files)[..|Assemble(front)|] == Assemble(front);
    } else {
      assert files[..k] == files;
    }
  }

  /** Chunk `k` stands in the text between its start and its end. */
  lemma {:induction false} ChunkInPlace(files: seq<FileDiff>, k: nat)
    requires k < |files|
    ensures ChunkStart(files, k) + |HeaderLine(files[k])| + 1 + |files[k].patch| == ChunkEnd(files, k) <= |Assemble(files)|
    ensures Assemble(files)[ChunkStart(files, k)..ChunkEnd(files, k)] == DiffChunk(files[k])
    ensures k + 1 < |files| ==> ChunkStart(files, k + 1) == ChunkEnd(files, k) + |SEPARATOR|
  {
    AssembleGrows(files, k + 1);
    var upTo := files[..k + 1];
    assert upTo[|upTo| - 1] == files[k] && upTo[..|upTo| - 1] == files[..k];
    assert Assemble(upTo)[ChunkStart(files, k)..] == DiffChunk(files[k]);
  }

  lemma PatchInPlace(files: seq<FileDiff>, k: nat)
    requires k < |files|
    ensures var from := ChunkStart(files, k) + |HeaderLine(files[k])| + 1;
            from <= ChunkEnd(files, k) <= |Assemble(files)| && Assemble(files)[from..ChunkEnd(files, k)] == files[k].patch
  {
    hide Assemble, HeaderLine, ChunkStart, ChunkEnd;
    ChunkInPlace(files, k);
    var chunk, h, text := DiffChunk(files[k]), |HeaderLine(files[k])|, Assemble(files);
    assert chunk[h + 1..] == files[k].patch;
    SliceOfSlice(text, ChunkStart(files, k), ChunkEnd(files, k), h + 1);
  }

  lemma SliceOfSlice(text: string, from: nat, to: nat, skip: nat)
    requires from + skip <= to <= |text|
    ensures text[from..to][skip..] == text[from + skip..to]
  {
  }
}
