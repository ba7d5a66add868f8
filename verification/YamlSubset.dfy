/** The indentation-driven YAML subset workflow files are read with (api/doug/ci_evidence.py). */
module YamlSubset {
  // What the lines mean, as functions of line sequences. `YamlParser` holds the parser that advances one
  // index over an array of lines and rewrites the line of `- key: value` in place.

  import opened Common
  import Hunks

  datatype Entry = Entry(key: string, value: Node)

  datatype Node =
    | Text(text: string)
    | Mapping(entries: seq<Entry>)   // in insertion order, keys distinct
    | Items(items: seq<Node>)

  // ------------------------------------------------------------------- lines

  function Indent(line: string): (n: nat)
    ensures n <= |line| && (n < |line| ==> line[n] != ' ') && forall k :: 0 <= k < n ==> line[k] == ' '
  {
    if line != "" && line[0] == ' ' then 1 + Indent(line[1..]) else 0
  }

  function Spaces(n: nat): (s: string)
    ensures |s| == n && forall k :: 0 <= k < n ==> s[k] == ' '
  {
    if n == 0 then "" else " " + Spaces(n - 1)
  }

  /** Neither blank, nor a comment, nor a document marker. */
  predicate HasContent(line: string) {
    var s := Strip(line);
    s != "" && s[0] != '#' && s != "---" && s != "..."
  }

  function SkipBlank(lines: seq<string>): (r: seq<string>)
    ensures |r| <= |lines| && r == lines[|lines| - |r|..]
    ensures r != [] ==> HasContent(r[0])
  {
    if lines == [] || HasContent(lines[0]) then lines else SkipBlank(lines[1..])
  }

  // ------------------------------------------------------------------ tokens

  predicate IsKeyChar(c: char) {
    'a' <= c <= 'z' || 'A' <= c <= 'Z' || '0' <= c <= '9' || c == '_' || c == '.' || c == '-'
  }

  function KeyRun(s: string, i: nat): (e: nat)
    requires i <= |s|
    ensures i <= e <= |s| && (e < |s| ==> !IsKeyChar(s[e])) && forall k :: i <= k < e ==> IsKeyChar(s[k])
    decreases |s| - i
  {
    if i < |s| && IsKeyChar(s[i]) then KeyRun(s, i + 1) else i
  }

  datatype KeyLine = KeyLine(key: string, rest: Option<string>)

  /** _KEY_RE. */
  function MatchKey(s: string): Option<KeyLine> {
    var k := KeyRun(s, 0);
    var colon := SpaceRun(s, k);
    if k == 0 || colon == |s| || s[colon] != ':' then None
    else if colon + 1 == |s| then Some(KeyLine(s[..k], None))
    else if !IsSpace(s[colon + 1]) then None
    else Some(KeyLine(s[..k], Some(s[SpaceRun(s, colon + 1)..])))
  }

  /** _SEQ_RE: what follows the dash, if anything. */
  function MatchDash(s: string): Option<Option<string>> {
    if s == "" || s[0] != '-' then None
    else if |s| == 1 then Some(None)
    else if !IsSpace(s[1]) then None
    else Some(Some(s[SpaceRun(s, 1)..]))
  }

  /** Where a trailing comment outside quotes begins. */
  function CommentAt(value: string, i: nat, quote: Option<char>): (e: nat)
    requires i <= |value|
    ensures e <= |value|
    decreases |value| - i
  {
    if i == |value| then i
    else
      var c := value[i];
      if quote.Some? then CommentAt(value, i + 1, if c == quote.value then None else quote)
      else if c == '"' || c == '\'' then CommentAt(value, i + 1, Some(c))
      else if c == '#' && (i == 0 || value[i - 1] == ' ' || value[i - 1] == '\t') then i
      else CommentAt(value, i + 1, None)
  }

  function Uncomment(value: string): string {
    Strip(value[..CommentAt(value, 0, None)])
  }

  /** _scalar; None where an anchor, alias or tag makes the document unreadable. */
  function Scalar(value: string): Option<string> {
    var v := Uncomment(value);
    if |v| >= 2 && v[0] == v[|v| - 1] && (v[0] == '"' || v[0] == '\'') then Some(v[1..|v| - 1])
    else if v != "" && (v[0] == '&' || v[0] == '*' || v[0] == '!') then None
    else Some(v)
  }

  predicate IsEmptyValue(rest: Option<string>) {
    rest.None? || Uncomment(rest.value) == ""
  }

  predicate OpensBlock(rest: string) {
    rest != "" && (rest[0] == '|' || rest[0] == '>')
  }

  // ------------------------------------------------------------- the meaning

  /** What a parse yields from the lines it is given: a node and the lines after it. */
  datatype Parsed = Read(node: Node, rest: seq<string>) | Unparseable

  function Put(entries: seq<Entry>, key: string, value: Node): seq<Entry> {
    if entries == [] then [Entry(key, value)]
    else if entries[0].key == key then [Entry(key, value)] + entries[1..]
    else [entries[0]] + Put(entries[1..], key, value)
  }

  predicate Opens(lines: seq<string>, indent: nat) {
    lines != [] && HasContent(lines[0]) && Indent(lines[0]) == indent
  }

  ghost predicate IsSuffix(rest: seq<string>, lines: seq<string>) {
    |rest| <= |lines| && rest == lines[|lines| - |rest|..]
  }

  lemma SuffixesCompose(b: seq<string>, c: seq<string>)
    requires IsSuffix(b, c)
    ensures forall a :: IsSuffix(a, b) ==> IsSuffix(a, c)
  {
    forall a | IsSuffix(a, b) ensures IsSuffix(a, c) {
      assert c[|c| - |b|..][|b| - |a|..] == c[|c| - |a|..];
    }
  }

  function ParseNode(lines: seq<string>, indent: nat): (r: Parsed)
    requires lines != []
    ensures r.Read? ==> IsSuffix(r.rest, lines) && (Opens(lines, indent) ==> |r.rest| < |lines|)
    decreases |lines|, 4
  {
    if MatchDash(Strip(lines[0])).Some? then ParseItems([], lines, indent)
    else if MatchKey(Strip(lines[0])).None? then Unparseable
    else ParseEntries([], lines, indent)
  }

  /** The value under a key with nothing after its colon. */
  function ParseNested(lines: seq<string>, indent: nat): (r: Parsed)
    ensures r.Read? ==> IsSuffix(r.rest, lines)
    decreases |lines|, 5
  {
    var next := SkipBlank(lines);
    assert IsSuffix(next, lines);
    SuffixesCompose(next, lines);
    if next != [] && Indent(next[0]) > indent then ParseNode(next, Indent(next[0]))
    else if next != [] && Indent(next[0]) == indent && MatchDash(Strip(next[0])).Some? then ParseItems([], next, indent)
    else Read(Text(""), lines)
  }

  function ParseValue(key: KeyLine, lines: seq<string>, indent: nat): (r: Parsed)
    ensures r.Read? ==> IsSuffix(r.rest, lines)
    decreases |lines|, 6
  {
    if IsEmptyValue(key.rest) then ParseNested(lines, indent)
    else if OpensBlock(key.rest.value) then
      var (text, rest) := BlockScalar(lines, indent);
      Read(Text(text), rest)
    else match Scalar(key.rest.value) case None => Unparseable case Some(text) => Read(Text(text), lines)
  }

  function ParseEntries(entries: seq<Entry>, lines: seq<string>, indent: nat): (r: Parsed)
    ensures r.Read? ==> IsSuffix(r.rest, lines) && (Opens(lines, indent) ==> |r.rest| < |lines|)
    decreases |lines|, 0
  {
    var here := SkipBlank(lines);
    assert IsSuffix(here, lines);
    SuffixesCompose(here, lines);
    if here == [] || Indent(here[0]) != indent then Read(Mapping(entries), here)
    else
      match MatchKey(Strip(here[0]))
      case None => Unparseable
      case Some(key) =>
        SuffixesCompose(here[1..], here);
        match ParseValue(key, here[1..], indent)
        case Unparseable => Unparseable
        case Read(value, rest) =>
          SuffixesCompose(rest, lines);
          ParseEntries(Put(entries, key.key, value), rest, indent)
  }

  /** The dash's line as if its key stood at its own indent. */
  function Rewritten(s: string, rest: string, indent: nat): string
    requires |rest| <= |s|
  {
    Spaces(indent + |s| - |rest|) + rest
  }

  /** The item under a dash with nothing after it. */
  function ParseBelowDash(lines: seq<string>, indent: nat): (r: Parsed)
    ensures r.Read? ==> IsSuffix(r.rest, lines)
    decreases |lines|, 5
  {
    var next := SkipBlank(lines);
    assert IsSuffix(next, lines);
    SuffixesCompose(next, lines);
    if next != [] && Indent(next[0]) > indent then ParseNode(next, Indent(next[0])) else Read(Text(""), lines)
  }

  /** `- key: value`: a mapping whose first key shares the dash's line. */
  function ParseDashedEntries(lines: seq<string>, rest: string, indent: nat): (r: Parsed)
    requires lines != [] && MatchDash(Strip(lines[0])) == Some(Some(rest)) && MatchKey(rest).Some?
    ensures r.Read? ==> IsSuffix(r.rest, lines) && |r.rest| < |lines|
    decreases |lines|, 1
  {
    var s := Strip(lines[0]);
    StripIsStripped(lines[0]);
    RewrittenOpens(s, rest, indent);
    var rewritten := [Rewritten(s, rest, indent)] + lines[1..];
    ParseEntries([], rewritten, indent + |s| - |rest|)
  }

  /** One item, given the dash's line and what follows the dash. */
  function ParseItem(lines: seq<string>, rest: Option<string>, indent: nat): (r: Parsed)
    requires lines != [] && HasContent(lines[0])
    requires MatchDash(Strip(lines[0])) == Some(rest)
    ensures r.Read? ==> IsSuffix(r.rest, lines) && |r.rest| < |lines|
    decreases |lines|, 2
  {
    SuffixesCompose(lines[1..], lines);
    if IsEmptyValue(rest) then ParseBelowDash(lines[1..], indent)
    else if MatchKey(rest.value).Some? then ParseDashedEntries(lines, rest.value, indent)
    else match Scalar(rest.value) case None => Unparseable case Some(text) => Read(Text(text), lines[1..])
  }

  function ParseItems(items: seq<Node>, lines: seq<string>, indent: nat): (r: Parsed)
    ensures r.Read? ==> IsSuffix(r.rest, lines) && (Opens(lines, indent) ==> |r.rest| < |lines|)
    decreases |lines|, 3
  {
    var here := SkipBlank(lines);
    assert IsSuffix(here, lines);
    SuffixesCompose(here, lines);
    if here == [] || Indent(here[0]) != indent then Read(Items(items), here)
    else
      match MatchDash(Strip(here[0]))
      case None => Unparseable
      case Some(rest) =>
        match ParseItem(here, rest, indent)
        case Unparseable => Unparseable
        case Read(item, after) =>
          SuffixesCompose(after, lines);
          ParseItems(items + [item], after, indent)
  }

  function BlockScalar(lines: seq<string>, indent: nat): (r: (string, seq<string>))
    ensures IsSuffix(r.1, lines)
  {
    var (texts, rest) := BlockLines(lines, indent, None);
    (Hunks.Join(DropEmptyEnd(texts)), rest)
  }

  function BlockLines(lines: seq<string>, indent: nat, block: Option<nat>): (r: (seq<string>, seq<string>))
    ensures IsSuffix(r.1, lines)
  {
    if lines == [] then ([], [])
    else if Strip(lines[0]) == "" then
      var (texts, rest) := BlockLines(lines[1..], indent, block);
      ([""] + texts, rest)
    else if Indent(lines[0]) <= indent then ([], lines)
    else
      var at := if block.Some? then block.value else Indent(lines[0]);
      var text := if Indent(lines[0]) >= at then lines[0][at..] else Strip(lines[0]);
      var (texts, rest) := BlockLines(lines[1..], indent, Some(at));
      ([text] + texts, rest)
  }

  function DropEmptyEnd(texts: seq<string>): seq<string> {
    if texts != [] && texts[|texts| - 1] == "" then DropEmptyEnd(texts[..|texts| - 1]) else texts
  }

  lemma DashRest(s: string, rest: string)
    requires MatchDash(s) == Some(Some(rest)) && Stripped(s) && rest != ""
    ensures |rest| < |s| && s[|s| - |rest|..] == rest && Stripped(rest)
  {
  }

  lemma KeyedIsContent(rest: string)
    requires MatchKey(rest).Some?
    ensures rest != "" && rest[0] != '#' && rest != "---" && rest != "..."
  {
    var k := KeyRun(rest, 0);
    assert IsKeyChar(rest[0]);
    assert rest[SpaceRun(rest, k)] == ':';
  }

  /** The rewritten line is content at its own indent, so the mapping under it consumes it. */
  lemma RewrittenOpens(s: string, rest: string, indent: nat)
    requires MatchDash(s) == Some(Some(rest)) && MatchKey(rest).Some? && Stripped(s)
    ensures |rest| <= |s|
    ensures Opens([Rewritten(s, rest, indent)], indent + |s| - |rest|)
    ensures Strip(Rewritten(s, rest, indent)) == rest
  {
    hide MatchKey, MatchDash, Strip, Indent, Stripped;
    KeyedIsContent(rest);
    DashRest(s, rest);
    SpacesThen(indent + |s| - |rest|, rest);
  }

  /** No white space at either end. */
  predicate Stripped(s: string) {
    s != "" ==> !IsSpace(s[0]) && !IsSpace(s[|s| - 1])
  }

  lemma {:induction false} TrimEndIsStripped(s: string)
    ensures TrimEnd(s) != "" ==> !IsSpace(TrimEnd(s)[|TrimEnd(s)| - 1]) && |TrimEnd(s)| <= |s| && TrimEnd(s)[0] == s[0]
  {
    if s != "" && IsSpace(s[|s| - 1]) {
      TrimEndIsStripped(s[..|s| - 1]);
    }
  }

  lemma StripIsStripped(line: string)
    ensures Stripped(Strip(line))
  {
    TrimEndIsStripped(line[SpaceRun(line, 0)..]);
  }

  lemma {:induction false} SpacesThen(n: nat, s: string)
    requires s != "" && Stripped(s)
    ensures Indent(Spaces(n) + s) == n && Strip(Spaces(n) + s) == s
  {
    hide Spaces, Indent, SpaceRun;
    var line := Spaces(n) + s;
    assert line[n] == s[0];
    assert forall k :: 0 <= k < n ==> line[k] == ' ';
    assert SpaceRun(line, 0) == n;
    assert line[n..] == s;
  }

  // --------------------------------------------------------- quoted scalars

  lemma {:induction false} QuoteRunsToItsEnd(value: string, i: nat, end: nat, quote: char)
    requires i <= end < |value| && value[end] == quote && forall k :: i <= k < end ==> value[k] != quote
    ensures CommentAt(value, i, Some(quote)) == CommentAt(value, end + 1, None)
    decreases end - i
  {
    if i < end {
      QuoteRunsToItsEnd(value, i + 1, end, quote);
    }
  }

  /** Quoted text is read as it stands, whatever marks it holds, with or without a comment after it. */
  lemma QuotedScalarIsRead(text: string, quote: char, comment: string)
    requires quote == '"' || quote == '\''
    requires forall k :: 0 <= k < |text| ==> text[k] != quote
    ensures Scalar([quote] + text + [quote]) == Some(text)
    ensures Scalar([quote] + text + [quote] + " #" + comment) == Some(text)
  {
    var quoted := [quote] + text + [quote];
    var long, n := quoted + " #" + comment, |text| + 1;
    QuoteRunsToItsEnd(quoted, 1, n, quote);
    QuoteRunsToItsEnd(long, 1, n, quote);
    assert !IsSpace(quote);
    hide Strip;
    assert long[n + 1] == ' ' && long[n + 2] == '#' && long[..n + 2] == quoted + " ";
    assert CommentAt(long, n + 1, None) == CommentAt(long, n + 2, None) == n + 2;
    assert CommentAt(quoted, 0, None) == |quoted| && quoted[..|quoted|] == quoted;
    StripTrims(quoted);
    assert Uncomment(quoted) == quoted && Uncomment(long) == quoted;
    hide Uncomment, CommentAt;
    assert quoted[1..|quoted| - 1] == text;
  }

  lemma StripTrims(s: string)
    requires s != "" && Stripped(s)
    ensures Strip(s) == s && Strip(s + " ") == s
  {
    SpacesThen(0, s);
    assert Spaces(0) + s == s;
    var longer := s + " ";
    assert longer[..|s|] == s && SpaceRun(longer, 0) == 0 && longer[0..] == longer;
    assert SpaceRun(s, 0) == 0 && s[0..] == s && TrimEnd(s) == s;
    assert IsSpace(longer[|s|]) && TrimEnd(longer) == TrimEnd(longer[..|s|]);
  }

  // ---------------------------------------------------------- block scalars

  /** Lines a block scalar under this indent takes: blank, or deeper. */
  ghost predicate InBlock(lines: seq<string>, indent: nat) {
    forall k :: 0 <= k < |lines| ==> Strip(lines[k]) == "" || Indent(lines[k]) > indent
  }

  /** What ends it: the end of the text, or the first line that is neither. */
  ghost predicate EndsBlock(rest: seq<string>, indent: nat) {
    rest == [] || (Strip(rest[0]) != "" && Indent(rest[0]) <= indent)
  }

  /** `at` is the indent of the first line that is not blank. */
  ghost predicate FirstAt(lines: seq<string>, at: nat) {
    forall k :: 0 <= k < |lines| && Strip(lines[k]) != "" && (forall j :: 0 <= j < k ==> Strip(lines[j]) == "") ==> Indent(lines[k]) == at
  }

  /** A line's text: nothing if blank, what stands from column `at` on, or all of a line that starts before it. */
  ghost predicate IsTextOf(text: string, line: string, at: nat) {
    if Strip(line) == "" then text == ""
    else if Indent(line) >= at then line == Spaces(at) + text
    else text == Strip(line)
  }

  /** The text of a block: a text a line, and no empty one at the end. */
  lemma BlockScalarMeans(lines: seq<string>, rest: seq<string>, indent: nat, at: nat, texts: seq<string>, n: nat)
    requires InBlock(lines, indent) && EndsBlock(rest, indent) && FirstAt(lines, at)
    requires |texts| == |lines| && forall k :: 0 <= k < |lines| ==> IsTextOf(texts[k], lines[k], at)
    requires n <= |texts| && (n > 0 ==> texts[n - 1] != "") && forall k :: n <= k < |texts| ==> texts[k] == ""
    ensures BlockScalar(lines + rest, indent) == (Hunks.Join(texts[..n]), rest)
  {
    hide BlockLines, DropEmptyEnd, InBlock, EndsBlock, FirstAt, IsTextOf;
    BlockLinesMean(lines, rest, indent, None, at, texts);
    EmptyEndDrops(texts, n);
  }

  lemma {:induction false} EmptyEndDrops(texts: seq<string>, n: nat)
    requires n <= |texts| && (n > 0 ==> texts[n - 1] != "") && forall k :: n <= k < |texts| ==> texts[k] == ""
    ensures DropEmptyEnd(texts) == texts[..n]
  {
    if n < |texts| {
      EmptyEndDrops(texts[..|texts| - 1], n);
      assert texts[..|texts| - 1][..n] == texts[..n];
    } else {
      assert texts[..n] == texts;
    }
  }

  lemma {:induction false} BlockLinesMean(lines: seq<string>, rest: seq<string>, indent: nat, block: Option<nat>, at: nat, texts: seq<string>)
    requires InBlock(lines, indent) && EndsBlock(rest, indent)
    requires if block.Some? then block.value == at else FirstAt(lines, at)
    requires |texts| == |lines| && forall k :: 0 <= k < |lines| ==> IsTextOf(texts[k], lines[k], at)
    ensures BlockLines(lines + rest, indent, block) == (texts, rest)
  {
    hide Indent, Strip;
    if lines == [] {
      assert lines + rest == rest && texts == [];
      BlockStops(rest, indent, block);
    } else {
      var more, tail := lines[1..], texts[1..];
      assert (lines + rest)[1..] == more + rest && (lines + rest)[0] == lines[0];
      assert texts == [texts[0]] + tail;
      var next := if Strip(lines[0]) == "" then block else Some(at);
      if next.None? {
        FirstAtLater(lines, at);
      }
      if Strip(lines[0]) != "" && block.None? {
        assert Indent(lines[0]) == at;
      }
      TextIs(texts[0], lines[0], at);
      forall k | 0 <= k < |more| ensures IsTextOf(tail[k], more[k], at) {
        assert IsTextOf(texts[k + 1], lines[k + 1], at);
      }
      BlockLinesMean(more, rest, indent, next, at, tail);
      hide IsTextOf, FirstAt;
    }
  }

  lemma BlockStops(rest: seq<string>, indent: nat, block: Option<nat>)
    requires EndsBlock(rest, indent)
    ensures BlockLines(rest, indent, block) == ([], rest)
  {
    hide Indent, Strip;
  }

  lemma FirstAtLater(lines: seq<string>, at: nat)
    requires lines != [] && FirstAt(lines, at) && Strip(lines[0]) == ""
    ensures FirstAt(lines[1..], at)
  {
    hide Indent, Strip;
    var more := lines[1..];
    forall k | 0 <= k < |more| && Strip(more[k]) != "" && (forall j :: 0 <= j < k ==> Strip(more[j]) == "")
      ensures Indent(more[k]) == at
    {
      assert more[k] == lines[k + 1];
      forall j | 0 <= j < k + 1 ensures Strip(lines[j]) == "" {
        if j > 0 {
          assert more[j - 1] == lines[j];
        }
      }
    }
  }

  lemma TextIs(text: string, line: string, at: nat)
    requires IsTextOf(text, line, at)
    ensures Strip(line) == "" ==> text == ""
    ensures Strip(line) != "" && Indent(line) >= at ==> text == line[at..]
    ensures Strip(line) != "" && Indent(line) < at ==> text == Strip(line)
  {
    hide Strip;
    if Strip(line) != "" && Indent(line) >= at {
      assert (Spaces(at) + text)[at..] == text;
    }
  }
}
