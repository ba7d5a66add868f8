/** Blank lines, comments and document markers never matter to the workflow parser, outside block scalars. */
module YamlNoise {
  // Stated over any two texts at all, readable or not: if their lines with content are the same, so is
  // what is read, down to being unreadable.

  import opened Common
  import opened YamlSubset
  import opened YamlPrinting
  import opened YamlTokens
  import Hunks

  /** The lines with content, in order. */
  function Ink(lines: seq<string>): seq<string> {
    if lines == [] then [] else (if HasContent(lines[0]) then [lines[0]] else []) + Ink(lines[1..])
  }

  predicate KeyOpensBlock(s: string) {
    MatchKey(s).Some? && MatchKey(s).value.rest.Some? && OpensBlock(MatchKey(s).value.rest.value)
  }

  /** A key, on its own line or after a dash, whose value is a block scalar. */
  predicate MayOpenBlock(line: string) {
    var s := Strip(line);
    KeyOpensBlock(s) || (MatchDash(s).Some? && MatchDash(s).value.Some? && KeyOpensBlock(MatchDash(s).value.value))
  }

  ghost predicate NoBlocks(lines: seq<string>) {
    forall k :: 0 <= k < |lines| ==> !MayOpenBlock(lines[k])
  }

  /** What has no content: white space, and a comment or a marker alone on its line. */
  lemma NoiseHasNoContent(before: string, after: string, text: string)
    requires AllSpace(before) && AllSpace(after)
    ensures !HasContent(before) && !HasContent(before + "#" + text)
    ensures !HasContent(before + "---" + after) && !HasContent(before + "..." + after)
  {
    hide HasContent;
    BlankIsNoise(before);
    CommentIsNoise(before, text);
    MarkerIsNoise(before, "---", after);
    MarkerIsNoise(before, "...", after);
  }

  lemma BlankIsNoise(line: string)
    requires AllSpace(line)
    ensures !HasContent(line)
  {
    SpaceRunIs(line, 0, |line|);
    assert line[|line|..] == "";
  }

  lemma CommentIsNoise(before: string, text: string)
    requires AllSpace(before)
    ensures !HasContent(before + "#" + text)
  {
    var line, n := before + "#" + text, |before|;
    assert line[n] == '#' && !IsSpace('#') && forall k :: 0 <= k < n ==> line[k] == before[k];
    SpaceRunIs(line, 0, n);
    assert line[n..][0] == '#';
    EndKeeps(line[n..], 0);
    TrimEndIsStripped(line[n..]);
  }

  lemma MarkerIsNoise(before: string, mark: string, after: string)
    requires AllSpace(before) && AllSpace(after) && (mark == "---" || mark == "...")
    ensures !HasContent(before + mark + after)
  {
    var line, n := before + mark + after, |before|;
    assert forall k :: 0 <= k < n ==> line[k] == before[k];
    assert line[n] == mark[0] && !IsSpace(mark[0]) && !IsSpace(mark[2]);
    SpaceRunIs(line, 0, n);
    assert line[n..] == mark + after;
    TrimEndMeans(mark, after);
  }

  // ------------------------------------------------- the two parses side by side

  /** The same node, and rests with the same content; or unreadable both. */
  ghost predicate Alike(p: Parsed, q: Parsed) {
    (p.Read? <==> q.Read?) && (p.Read? ==> p.node == q.node && Ink(p.rest) == Ink(q.rest))
  }

  lemma {:induction false} SkipKeepsInk(lines: seq<string>)
    ensures Ink(SkipBlank(lines)) == Ink(lines)
    ensures SkipBlank(lines) == [] <==> Ink(lines) == []
    ensures SkipBlank(lines) != [] ==> Ink(lines) == [SkipBlank(lines)[0]] + Ink(SkipBlank(lines)[1..])
  {
    hide HasContent;
    if lines != [] && !HasContent(lines[0]) {
      SkipKeepsInk(lines[1..]);
    }
  }

  /** After what has no content both texts go on with the same line, or both are at their end. */
  lemma SkipAlike(a: seq<string>, b: seq<string>)
    requires Ink(a) == Ink(b)
    ensures var x, y := SkipBlank(a), SkipBlank(b);
            && (x == [] <==> y == []) && Ink(x) == Ink(y)
            && (x != [] && y != [] ==> x[0] == y[0] && Ink(x[1..]) == Ink(y[1..]))
  {
    hide Ink, SkipBlank;
    SkipKeepsInk(a);
    SkipKeepsInk(b);
    if SkipBlank(a) != [] && SkipBlank(b) != [] {
      var x, y := SkipBlank(a), SkipBlank(b);
      assert ([x[0]] + Ink(x[1..]))[0] == ([y[0]] + Ink(y[1..]))[0];
      assert ([x[0]] + Ink(x[1..]))[1..] == Ink(x[1..]) && ([y[0]] + Ink(y[1..]))[1..] == Ink(y[1..]);
    }
  }

  lemma SuffixHasNoBlocks(rest: seq<string>, lines: seq<string>)
    requires NoBlocks(lines) && IsSuffix(rest, lines)
    ensures NoBlocks(rest)
  {
    hide MayOpenBlock;
    forall k | 0 <= k < |rest| ensures !MayOpenBlock(rest[k]) {
      assert rest[k] == lines[|lines| - |rest| + k];
    }
  }

  lemma SkipHasNoBlocks(lines: seq<string>)
    requires NoBlocks(lines)
    ensures NoBlocks(SkipBlank(lines)) && (SkipBlank(lines) != [] ==> NoBlocks(SkipBlank(lines)[1..]) && !MayOpenBlock(SkipBlank(lines)[0]))
  {
    hide MayOpenBlock;
    SuffixHasNoBlocks(SkipBlank(lines), lines);
  }

  /** Two texts at the same line with content. */
  ghost predicate AtSameLine(a: seq<string>, b: seq<string>) {
    && a != [] && b != [] && a[0] == b[0] && HasContent(a[0]) && Ink(a[1..]) == Ink(b[1..])
    && NoBlocks(a) && NoBlocks(b)
  }

  lemma AfterSkip(a: seq<string>, b: seq<string>)
    requires Ink(a) == Ink(b) && NoBlocks(a) && NoBlocks(b) && SkipBlank(a) != []
    ensures AtSameLine(SkipBlank(a), SkipBlank(b)) && NoBlocks(SkipBlank(a)[1..]) && NoBlocks(SkipBlank(b)[1..])
  {
    hide Ink, MayOpenBlock;
    SkipAlike(a, b);
    SkipHasNoBlocks(a);
    SkipHasNoBlocks(b);
  }

  lemma {:induction false} EntriesAlike(entries: seq<Entry>, a: seq<string>, b: seq<string>, indent: nat)
    requires Ink(a) == Ink(b) && NoBlocks(a) && NoBlocks(b)
    ensures Alike(ParseEntries(entries, a, indent), ParseEntries(entries, b, indent))
    decreases |a| + |b|, 0
  {
    hide Ink, SkipBlank, NoBlocks, MatchKey, Strip, Indent, HasContent, Put, ParseValue, OpensBlock;
    var x, y := SkipBlank(a), SkipBlank(b);
    SkipAlike(a, b);
    if x != [] {
      AfterSkip(a, b);
      if Indent(x[0]) == indent && MatchKey(Strip(x[0])).Some? {
        var key := MatchKey(Strip(x[0])).value;
        HeadKeyOpensNoBlock(x);
        ValueAlike(key, x[1..], y[1..], indent);
        var p, q := ParseValue(key, x[1..], indent), ParseValue(key, y[1..], indent);
        if p.Read? {
          SuffixHasNoBlocks(p.rest, x[1..]);
          SuffixHasNoBlocks(q.rest, y[1..]);
          EntriesAlike(Put(entries, key.key, p.node), p.rest, q.rest, indent);
        }
      }
    }
  }

  lemma HeadKeyOpensNoBlock(lines: seq<string>)
    requires NoBlocks(lines) && lines != []
    ensures !KeyOpensBlock(Strip(lines[0]))
    ensures MatchDash(Strip(lines[0])).Some? && MatchDash(Strip(lines[0])).value.Some? ==>
              !KeyOpensBlock(MatchDash(Strip(lines[0])).value.value)
  {
    hide KeyOpensBlock, Strip, MatchDash;
    assert !MayOpenBlock(lines[0]);
  }

  lemma {:induction false} ValueAlike(key: KeyLine, a: seq<string>, b: seq<string>, indent: nat)
    requires Ink(a) == Ink(b) && NoBlocks(a) && NoBlocks(b)
    requires key.rest.Some? ==> !OpensBlock(key.rest.value)
    ensures Alike(ParseValue(key, a, indent), ParseValue(key, b, indent))
    decreases |a| + |b|, 6
  {
    hide Ink, NoBlocks, Uncomment, OpensBlock, Scalar, ParseNested, BlockScalar;
    if IsEmptyValue(key.rest) {
      NestedAlike(a, b, indent);
    }
  }

  lemma {:induction false} NestedAlike(a: seq<string>, b: seq<string>, indent: nat)
    requires Ink(a) == Ink(b) && NoBlocks(a) && NoBlocks(b)
    ensures Alike(ParseNested(a, indent), ParseNested(b, indent))
    decreases |a| + |b|, 5
  {
    hide Ink, SkipBlank, NoBlocks, Strip, Indent, HasContent, MatchDash, ParseNode, ParseItems, AtSameLine;
    SkipAlike(a, b);
    if SkipBlank(a) != [] {
      AfterSkip(a, b);
      var x, y := SkipBlank(a), SkipBlank(b);
      SameLineHasSameInk(x, y);
      NodeAlike(x, y, Indent(x[0]));
      ItemsAlike([], x, y, indent);
    }
  }

  lemma SameLineHasSameInk(a: seq<string>, b: seq<string>)
    requires AtSameLine(a, b)
    ensures Ink(a) == Ink(b) && NoBlocks(a) && NoBlocks(b) && a[0] == b[0] && a != [] && b != []
  {
    hide HasContent, NoBlocks;
  }

  lemma {:induction false} NodeAlike(a: seq<string>, b: seq<string>, indent: nat)
    requires AtSameLine(a, b)
    ensures Alike(ParseNode(a, indent), ParseNode(b, indent))
    decreases |a| + |b|, 4
  {
    hide Ink, NoBlocks, Strip, MatchDash, MatchKey, ParseEntries, ParseItems, ParseNode, AtSameLine, HasContent, Indent, Alike;
    SameLineHasSameInk(a, b);
    NodeIs(a, indent);
    NodeIs(b, indent);
    ItemsAlike([], a, b, indent);
    EntriesAlike([], a, b, indent);
    NothingAlike();
  }

  /** The first line alone decides what a node is. */
  lemma {:induction false} NodeIs(lines: seq<string>, indent: nat)
    requires lines != []
    ensures ParseNode(lines, indent)
         == if MatchDash(Strip(lines[0])).Some? then ParseItems([], lines, indent)
            else if MatchKey(Strip(lines[0])).None? then Unparseable
            else ParseEntries([], lines, indent)
  {
    hide MatchDash, MatchKey, Strip, ParseEntries, ParseItems, HasContent, Indent;
  }

  lemma NothingAlike()
    ensures Alike(Unparseable, Unparseable)
  {
  }

  lemma {:induction false} ItemsAlike(items: seq<Node>, a: seq<string>, b: seq<string>, indent: nat)
    requires Ink(a) == Ink(b) && NoBlocks(a) && NoBlocks(b)
    ensures Alike(ParseItems(items, a, indent), ParseItems(items, b, indent))
    decreases |a| + |b|, 3
  {
    hide Ink, SkipBlank, NoBlocks, MatchDash, Strip, Indent, HasContent, ParseItem;
    var x, y := SkipBlank(a), SkipBlank(b);
    SkipAlike(a, b);
    if x != [] {
      AfterSkip(a, b);
      if Indent(x[0]) == indent && MatchDash(Strip(x[0])).Some? {
        var rest := MatchDash(Strip(x[0])).value;
        ItemAlike(x, y, rest, indent);
        var p, q := ParseItem(x, rest, indent), ParseItem(y, rest, indent);
        if p.Read? {
          SuffixHasNoBlocks(p.rest, x);
          SuffixHasNoBlocks(q.rest, y);
          ItemsAlike(items + [p.node], p.rest, q.rest, indent);
        }
      }
    }
  }

  lemma {:induction false} ItemAlike(a: seq<string>, b: seq<string>, rest: Option<string>, indent: nat)
    requires AtSameLine(a, b) && MatchDash(Strip(a[0])) == Some(rest)
    ensures Alike(ParseItem(a, rest, indent), ParseItem(b, rest, indent))
    decreases |a| + |b|, 2
  {
    hide Ink, SkipBlank, MatchDash, MatchKey, Strip, Indent, HasContent, Uncomment, Scalar, ParseBelowDash, ParseDashedEntries, MayOpenBlock;
    if IsEmptyValue(rest) {
      BelowDashAlike(a[1..], b[1..], indent);
    } else if MatchKey(rest.value).Some? {
      DashedAlike(a, b, rest.value, indent);
    }
  }

  lemma {:induction false} BelowDashAlike(a: seq<string>, b: seq<string>, indent: nat)
    requires Ink(a) == Ink(b) && NoBlocks(a) && NoBlocks(b)
    ensures Alike(ParseBelowDash(a, indent), ParseBelowDash(b, indent))
    decreases |a| + |b|, 5
  {
    hide Ink, SkipBlank, NoBlocks, Indent, HasContent, ParseNode, AtSameLine;
    SkipAlike(a, b);
    if SkipBlank(a) != [] {
      AfterSkip(a, b);
      var x, y := SkipBlank(a), SkipBlank(b);
      SameLineHasSameInk(x, y);
      NodeAlike(x, y, Indent(x[0]));
    }
  }

  lemma {:induction false} DashedAlike(a: seq<string>, b: seq<string>, rest: string, indent: nat)
    requires AtSameLine(a, b) && MatchDash(Strip(a[0])) == Some(Some(rest)) && MatchKey(rest).Some?
    ensures Alike(ParseDashedEntries(a, rest, indent), ParseDashedEntries(b, rest, indent))
    decreases |a| + |b|, 1
  {
    hide Ink, NoBlocks, Strip, MatchDash, MatchKey, HasContent, Indent, Rewritten, ParseEntries, ParseDashedEntries, MayOpenBlock;
    var s := Strip(a[0]);
    var line := DashedIs(a, rest, indent);
    var same := DashedIs(b, rest, indent);
    PutBack(a, line);
    PutBack(b, line);
    EntriesAlike([], [line] + a[1..], [line] + b[1..], indent + |s| - |rest|);
  }

  /** What stands after the dash is parsed as if it stood on a line of its own. */
  lemma DashedIs(lines: seq<string>, rest: string, indent: nat) returns (line: string)
    requires lines != [] && NoBlocks(lines) && MatchDash(Strip(lines[0])) == Some(Some(rest)) && MatchKey(rest).Some?
    ensures |rest| <= |Strip(lines[0])| && line == Rewritten(Strip(lines[0]), rest, indent)
    ensures HasContent(line) && !MayOpenBlock(line)
    ensures ParseDashedEntries(lines, rest, indent) == ParseEntries([], [line] + lines[1..], indent + |Strip(lines[0])| - |rest|)
  {
    hide NoBlocks, Strip, MatchDash, MatchKey, HasContent, Indent, ParseEntries, MayOpenBlock, Rewritten, Stripped;
    var s := Strip(lines[0]);
    StripIsStripped(lines[0]);
    RewrittenOpens(s, rest, indent);
    line := Rewritten(s, rest, indent);
    RewrittenOpensNoBlock(lines, line, rest);
  }

  /** The rewritten line opens no block either. */
  lemma RewrittenOpensNoBlock(lines: seq<string>, line: string, rest: string)
    requires NoBlocks(lines) && lines != [] && MatchDash(Strip(lines[0])) == Some(Some(rest)) && MatchKey(rest).Some?
    requires Strip(line) == rest
    ensures !MayOpenBlock(line)
  {
    HeadKeyOpensNoBlock(lines);
    hide Strip, KeyOpensBlock, NoBlocks;
    if MatchDash(rest).Some? && MatchDash(rest).value.Some? {
      KeyDashIsNoKey(rest);
    }
  }

  /** Where `-` is itself the key, nothing after the dash is one. */
  lemma KeyDashIsNoKey(s: string)
    requires MatchKey(s).Some? && MatchDash(s).Some? && MatchDash(s).value.Some?
    ensures !KeyOpensBlock(MatchDash(s).value.value)
  {
    SpaceIsNoKeyChar(s[1]);
    assert KeyRun(s, 0) == 1;
    var colon := SpaceRun(s, 1);
    assert s[colon..][0] == ':';
    assert KeyRun(s[colon..], 0) == 0;
  }

  lemma PutBack(lines: seq<string>, line: string)
    requires lines != [] && NoBlocks(lines) && HasContent(line) && !MayOpenBlock(line)
    ensures NoBlocks([line] + lines[1..]) && Ink([line] + lines[1..]) == [line] + Ink(lines[1..])
  {
    hide HasContent, MayOpenBlock;
    assert ([line] + lines[1..])[1..] == lines[1..];
  }

  /** Texts whose lines with content are the same are read the same, or are unreadable both. */
  lemma NoiseChangesNothing(a: string, b: string)
    requires Ink(Hunks.SplitLines(a)) == Ink(Hunks.SplitLines(b))
    requires NoBlocks(Hunks.SplitLines(a)) && NoBlocks(Hunks.SplitLines(b))
    ensures ParseDocument(a) == ParseDocument(b)
  {
    hide Ink, NoBlocks, Hunks.SplitLines, ParseNode, HasContent, Indent, AtSameLine, SkipBlank;
    var x, y := Hunks.SplitLines(a), Hunks.SplitLines(b);
    SkipAlike(x, y);
    if SkipBlank(x) != [] {
      AfterSkip(x, y);
      SameLineHasSameInk(SkipBlank(x), SkipBlank(y));
      NodeAlike(SkipBlank(x), SkipBlank(y), Indent(SkipBlank(x)[0]));
    }
  }
}
