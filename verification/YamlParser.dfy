/**
  The parser itself (api/doug/ci_evidence.py): one index that never moves back, over an array of lines
  of which only the dash lines already passed are rewritten; it computes the meaning of `YamlSubset`.
 */
module YamlParser {
  import opened Common
  import opened YamlSubset
  import opened YamlPrinting
  import Hunks

  /** A node and the index after it. */
  datatype Outcome = Found(node: Node, next: nat) | Unreadable

  /** The outcome is what the lines from `start` mean, and stops where that meaning stops. */
  ghost predicate Means(r: Outcome, p: Parsed, length: nat) {
    && (r.Found? <==> p.Read?)
    && (r.Found? ==> r.node == p.node && |p.rest| <= length && r.next == length - |p.rest|)
  }

  /** Only lines in `from..to` may have changed. */
  ghost predicate Kept(before: seq<string>, after: seq<string>, from: nat, to: nat) {
    && |before| == |after| && from <= to <= |before|
    && after[..from] == before[..from] && after[to..] == before[to..]
  }

  lemma KeptFurther(a: seq<string>, b: seq<string>, c: seq<string>, from: nat, mid: nat, to: nat)
    requires Kept(a, b, from, mid) && Kept(b, c, mid, to)
    ensures Kept(a, c, from, to)
  {
    assert c[..from] == c[..mid][..from] == b[..mid][..from] == b[..from];
    assert b[to..] == b[mid..][to - mid..] == a[mid..][to - mid..] == a[to..];
  }

  lemma KeptWider(a: seq<string>, b: seq<string>, from: nat, mid: nat, to: nat)
    requires Kept(a, b, from, mid) && mid <= to <= |a|
    ensures Kept(a, b, from, to)
  {
    assert b[to..] == b[mid..][to - mid..] == a[mid..][to - mid..] == a[to..];
  }

  method NextContent(lines: array<string>, start: nat) returns (i: nat)
    requires start <= lines.Length
    ensures start <= i <= lines.Length && lines[..][i..] == SkipBlank(lines[..][start..])
    ensures i < lines.Length ==> HasContent(lines[i])
  {
    hide HasContent, SkipBlank;
    ghost var text := lines[..];
    i := start;
    while i < lines.Length && !HasContent(lines[i])
      invariant start <= i <= lines.Length
      invariant SkipBlank(text[i..]) == SkipBlank(text[start..])
    {
      SkipStep(text, i);
      i := i + 1;
    }
    SkipStep(text, i);
  }

  lemma SkipStep(lines: seq<string>, i: nat)
    requires i <= |lines|
    ensures i < |lines| && !HasContent(lines[i]) ==> SkipBlank(lines[i..]) == SkipBlank(lines[i + 1..])
    ensures i == |lines| || HasContent(lines[i]) ==> SkipBlank(lines[i..]) == lines[i..]
  {
    hide HasContent;
    assert i < |lines| ==> lines[i..][0] == lines[i] && lines[i..][1..] == lines[i + 1..];
  }

  method ParseAt(lines: array<string>, start: nat, indent: nat) returns (r: Outcome)
    requires start < lines.Length
    modifies lines
    ensures Means(r, ParseNode(old(lines[..][start..]), indent), lines.Length)
    ensures r.Found? ==> start <= r.next && Kept(old(lines[..]), lines[..], start, r.next)
    decreases lines.Length - start, 4
  {
    hide MatchDash, MatchKey, Strip, HasContent, Indent, ParseItems, ParseEntries;
    var s := Strip(lines[start]);
    if MatchDash(s).Some? {
      r := ParseItemsAt(lines, start, indent);
    } else if MatchKey(s).None? {
      r := Unreadable;
    } else {
      r := ParseEntriesAt(lines, start, indent);
    }
  }

  // ------------------------------------------------------ one step unfolded

  /** `i` is where the next line with content stands. */
  lemma EntriesUnfold(entries: seq<Entry>, lines: seq<string>, from: nat, i: nat, indent: nat)
    requires from <= i <= |lines| && lines[i..] == SkipBlank(lines[from..])
    ensures var r := ParseEntries(entries, lines[from..], indent);
            && (i == |lines| || Indent(lines[i]) != indent ==> r == Read(Mapping(entries), lines[i..]))
            && (i < |lines| && Indent(lines[i]) == indent ==>
                  var key := MatchKey(Strip(lines[i]));
                  && (key.None? ==> r == Unparseable)
                  && (key.Some? ==>
                        var value := ParseValue(key.value, lines[i + 1..], indent);
                        r == if value.Unparseable? then Unparseable else ParseEntries(Put(entries, key.value.key, value.node), value.rest, indent)))
  {
    hide MatchKey, Strip, HasContent, Indent, ParseValue, Put, SkipBlank;
    assert i < |lines| ==> lines[i..][0] == lines[i] && lines[i..][1..] == lines[i + 1..];
  }

  lemma ItemsUnfold(items: seq<Node>, lines: seq<string>, from: nat, i: nat, indent: nat)
    requires from <= i <= |lines| && lines[i..] == SkipBlank(lines[from..])
    ensures var r := ParseItems(items, lines[from..], indent);
            && (i == |lines| || Indent(lines[i]) != indent ==> r == Read(Items(items), lines[i..]))
            && (i < |lines| && Indent(lines[i]) == indent ==>
                  var rest := MatchDash(Strip(lines[i]));
                  && (rest.None? ==> r == Unparseable)
                  && (rest.Some? ==>
                        var item := ParseItem(lines[i..], rest.value, indent);
                        r == if item.Unparseable? then Unparseable else ParseItems(items + [item.node], item.rest, indent)))
  {
    hide MatchDash, Strip, HasContent, Indent, ParseItem, SkipBlank;
  }

  /** _parse_map. */
  method ParseEntriesAt(lines: array<string>, start: nat, indent: nat) returns (r: Outcome)
    requires start <= lines.Length
    modifies lines
    ensures Means(r, ParseEntries([], old(lines[..][start..]), indent), lines.Length)
    ensures r.Found? ==> start <= r.next && Kept(old(lines[..]), lines[..], start, r.next)
    decreases lines.Length - start, 0
  {
    hide MatchKey, Strip, HasContent, Indent, ParseValue, ParseEntries, Put, SkipBlank, Kept, IsSuffix, Opens, Means;
    ghost var text := lines[..];
    var entries, i := [], start;
    Untouched(text, start, start);
    while true
      invariant start <= i <= lines.Length && Kept(text, lines[..], start, i)
      invariant ParseEntries(entries, lines[..][i..], indent) == ParseEntries([], text[start..], indent)
      decreases lines.Length - i
    {
      ghost var before, from := lines[..], i;
      i := NextContent(lines, i);
      EntriesUnfold(entries, before, from, i, indent);
      KeptWider(text, before, start, from, i);
      if i == lines.Length || Indent(lines[i]) != indent {
        ReadHere(Mapping(entries), before, i);
        return Found(Mapping(entries), i);
      }
      var key := MatchKey(Strip(lines[i]));
      if key.None? {
        NothingRead(lines.Length);
        return Unreadable;
      }
      ghost var meant := ParseValue(key.value, before[i + 1..], indent);
      var value := ParseValueAt(lines, i, key.value, indent);
      MeansOf(value, meant, lines.Length);
      if value.Unreadable? {
        return Unreadable;
      }
      PartParsed(text, before, lines[..], start, i, i + 1, value, meant);
      i := value.next;
      assert lines[..][i..] == meant.rest;
      entries := Put(entries, key.value.key, value.node);
    }
  }

  lemma Untouched(text: seq<string>, from: nat, to: nat)
    requires from <= to <= |text|
    ensures Kept(text, text, from, to)
  {
  }

  /** After a part that begins at `at`, what is left to parse still stands in the array. */
  lemma MeansOf(r: Outcome, p: Parsed, length: nat)
    requires Means(r, p, length)
    ensures r.Found? <==> p.Read?
    ensures r.Found? ==> r.node == p.node
    ensures r.Unreadable? ==> Means(r, Unparseable, length)
  {
  }

  lemma ReadHere(node: Node, lines: seq<string>, i: nat)
    requires i <= |lines|
    ensures Means(Found(node, i), Read(node, lines[i..]), |lines|)
  {
  }

  lemma NothingRead(length: nat)
    ensures Means(Unreadable, Unparseable, length)
  {
  }

  lemma PartParsed(text: seq<string>, before: seq<string>, after: seq<string>, start: nat, at: nat, from: nat, r: Outcome, p: Parsed)
    requires Kept(text, before, start, at) && r.Found? && Kept(before, after, at, r.next)
    requires from <= |before| && Means(r, p, |before|) && IsSuffix(p.rest, before[from..])
    ensures Kept(text, after, start, r.next) && after[r.next..] == p.rest && r.next <= |before|
  {
    KeptFurther(text, before, after, start, at, r.next);
  }

  /** The value of the key on line `at`: nested, a block scalar, or a scalar on that line. */
  method ParseValueAt(lines: array<string>, at: nat, key: KeyLine, indent: nat) returns (r: Outcome)
    requires at < lines.Length
    modifies lines
    ensures Means(r, ParseValue(key, old(lines[..][at + 1..]), indent), lines.Length)
    ensures r.Found? ==> at < r.next && Kept(old(lines[..]), lines[..], at, r.next)
    decreases lines.Length - at - 1, 6
  {
    hide Uncomment, OpensBlock, Scalar, BlockScalar, ParseNested, Kept;
    ghost var text := lines[..];
    Untouched(text, at, at + 1);
    if IsEmptyValue(key.rest) {
      r := ParseNestedAt(lines, at + 1, indent);
      if r.Found? {
        KeptFurther(text, text, lines[..], at, at + 1, r.next);
      }
    } else if OpensBlock(key.rest.value) {
      r := BlockScalarAt(lines, at + 1, indent);
      KeptFurther(text, text, text, at, at + 1, r.next);
    } else {
      var word := Scalar(key.rest.value);
      if word.None? {
        return Unreadable;
      }
      r := Found(Text(word.value), at + 1);
    }
  }

  method ParseNestedAt(lines: array<string>, start: nat, indent: nat) returns (r: Outcome)
    requires start <= lines.Length
    modifies lines
    ensures Means(r, ParseNested(old(lines[..][start..]), indent), lines.Length)
    ensures r.Found? ==> start <= r.next && Kept(old(lines[..]), lines[..], start, r.next)
    decreases lines.Length - start, 5
  {
    hide MatchDash, Strip, HasContent, Indent, ParseNode, ParseItems, Kept, SkipBlank;
    ghost var text := lines[..];
    Untouched(text, start, start);
    var next := NextContent(lines, start);
    Untouched(text, start, next);
    if next < lines.Length && Indent(lines[next]) > indent {
      r := ParseAt(lines, next, Indent(lines[next]));
    } else if next < lines.Length && Indent(lines[next]) == indent && MatchDash(Strip(lines[next])).Some? {
      r := ParseItemsAt(lines, next, indent);
    } else {
      return Found(Text(""), start);
    }
    if r.Found? {
      KeptFurther(text, text, lines[..], start, next, r.next);
    }
  }

  /** _parse_seq. */
  method ParseItemsAt(lines: array<string>, start: nat, indent: nat) returns (r: Outcome)
    requires start <= lines.Length
    modifies lines
    ensures Means(r, ParseItems([], old(lines[..][start..]), indent), lines.Length)
    ensures r.Found? ==> start <= r.next && Kept(old(lines[..]), lines[..], start, r.next)
    decreases lines.Length - start, 3
  {
    hide MatchDash, Strip, HasContent, Indent, ParseItem, ParseItems, SkipBlank, Kept, IsSuffix, Opens, Means;
    ghost var text := lines[..];
    var items, i := [], start;
    Untouched(text, start, start);
    while true
      invariant start <= i <= lines.Length && Kept(text, lines[..], start, i)
      invariant ParseItems(items, lines[..][i..], indent) == ParseItems([], text[start..], indent)
      decreases lines.Length - i
    {
      ghost var before, from := lines[..], i;
      i := NextContent(lines, i);
      ItemsUnfold(items, before, from, i, indent);
      KeptWider(text, before, start, from, i);
      if i == lines.Length || Indent(lines[i]) != indent {
        ReadHere(Items(items), before, i);
        return Found(Items(items), i);
      }
      var rest := MatchDash(Strip(lines[i]));
      if rest.None? {
        NothingRead(lines.Length);
        return Unreadable;
      }
      ghost var meant := ParseItem(before[i..], rest.value, indent);
      var item := ParseItemAt(lines, i, rest.value, indent);
      MeansOf(item, meant, lines.Length);
      if item.Unreadable? {
        return Unreadable;
      }
      PartParsed(text, before, lines[..], start, i, i, item, meant);
      i := item.next;
      assert lines[..][i..] == meant.rest;
      items := items + [item.node];
    }
  }

  method ParseBelowDashAt(lines: array<string>, start: nat, indent: nat) returns (r: Outcome)
    requires start <= lines.Length
    modifies lines
    ensures Means(r, ParseBelowDash(old(lines[..][start..]), indent), lines.Length)
    ensures r.Found? ==> start <= r.next && Kept(old(lines[..]), lines[..], start, r.next)
    decreases lines.Length - start, 5
  {
    hide HasContent, Indent, ParseNode, Kept, SkipBlank;
    ghost var text := lines[..];
    Untouched(text, start, start);
    var next := NextContent(lines, start);
    Untouched(text, start, next);
    if next < lines.Length && Indent(lines[next]) > indent {
      r := ParseAt(lines, next, Indent(lines[next]));
      if r.Found? {
        KeptFurther(text, text, lines[..], start, next, r.next);
      }
    } else {
      r := Found(Text(""), start);
    }
  }

  /** The dash's line is rewritten as if its key stood at its own indent, and the mapping parsed from there. */
  method ParseDashedEntriesAt(lines: array<string>, start: nat, rest: string, indent: nat) returns (r: Outcome)
    requires start < lines.Length && MatchDash(Strip(lines[start])) == Some(Some(rest)) && MatchKey(rest).Some?
    modifies lines
    ensures Means(r, ParseDashedEntries(old(lines[..][start..]), rest, indent), lines.Length)
    ensures r.Found? ==> start < r.next && Kept(old(lines[..]), lines[..], start, r.next)
    decreases lines.Length - start, 1
  {
    hide MatchDash, MatchKey, Strip, HasContent, Indent, ParseEntries, Rewritten, Kept, SkipBlank;
    ghost var text := lines[..];
    var s := Strip(lines[start]);
    StripIsStripped(lines[start]);
    RewrittenOpens(s, rest, indent);
    lines[start] := Rewritten(s, rest, indent);
    ghost var rewritten := lines[..];
    LineRewritten(text, rewritten, start);
    assert text[start..][1..] == text[start + 1..];
    r := ParseEntriesAt(lines, start, indent + |s| - |rest|);
    if r.Found? {
      KeptWider(text, rewritten, start, start + 1, r.next);
      KeptThrough(text, rewritten, lines[..], start, r.next);
    }
  }

  /** One item: nested below its dash, or on the dash's line. */
  method ParseItemAt(lines: array<string>, start: nat, rest: Option<string>, indent: nat) returns (r: Outcome)
    requires start < lines.Length && HasContent(lines[start]) && MatchDash(Strip(lines[start])) == Some(rest)
    modifies lines
    ensures Means(r, ParseItem(old(lines[..][start..]), rest, indent), lines.Length)
    ensures r.Found? ==> start < r.next && Kept(old(lines[..]), lines[..], start, r.next)
    decreases lines.Length - start, 2
  {
    hide MatchDash, MatchKey, Strip, HasContent, Indent, Uncomment, Scalar, ParseBelowDash, ParseDashedEntries, Kept, SkipBlank, IsSuffix;
    ghost var text := lines[..];
    Untouched(text, start, start + 1);
    assert text[start..][1..] == text[start + 1..];
    if IsEmptyValue(rest) {
      r := ParseBelowDashAt(lines, start + 1, indent);
      if r.Found? {
        KeptFurther(text, text, lines[..], start, start + 1, r.next);
      }
    } else if MatchKey(rest.value).Some? {
      r := ParseDashedEntriesAt(lines, start, rest.value, indent);
    } else {
      var word := Scalar(rest.value);
      if word.None? {
        return Unreadable;
      }
      r := Found(Text(word.value), start + 1);
    }
  }

  lemma LineRewritten(before: seq<string>, after: seq<string>, at: nat)
    requires |before| == |after| && at < |before|
    requires forall k :: 0 <= k < |before| && k != at ==> after[k] == before[k]
    ensures Kept(before, after, at, at + 1) && after[at..] == [after[at]] + before[at + 1..]
  {
  }

  lemma KeptThrough(a: seq<string>, b: seq<string>, c: seq<string>, from: nat, to: nat)
    requires Kept(a, b, from, to) && Kept(b, c, from, to)
    ensures Kept(a, c, from, to)
  {
  }

  /** _parse_block_scalar. */
  method BlockScalarAt(lines: array<string>, start: nat, indent: nat) returns (r: Outcome)
    requires start <= lines.Length
    ensures r.Found? && start <= r.next <= lines.Length
    ensures var (text, rest) := BlockScalar(lines[..][start..], indent); r.node == Text(text) && r.next == lines.Length - |rest|
    ensures Kept(lines[..], lines[..], start, r.next)
  {
    hide Strip, Indent, Kept, BlockLines, Hunks.Join, DropEmptyEnd;
    ghost var text := lines[..];
    var texts: seq<string>, block: Option<nat>, i := [], None, start;
    ghost var all := BlockLines(text[start..], indent, None);
    assert texts + all.0 == all.0;
    while i < lines.Length && (Strip(lines[i]) == "" || Indent(lines[i]) > indent)
      invariant start <= i <= lines.Length
      invariant all.0 == texts + BlockLines(text[i..], indent, block).0
      invariant all.1 == BlockLines(text[i..], indent, block).1
    {
      BlockStep(text, i, indent, block);
      if Strip(lines[i]) == "" {
        texts := texts + [""];
      } else {
        var at := if block.Some? then block.value else Indent(lines[i]);
        texts := texts + [if Indent(lines[i]) >= at then lines[i][at..] else Strip(lines[i])];
        block := Some(at);
      }
      i := i + 1;
    }
    BlockStep(text, i, indent, block);
    assert texts + [] == texts;
    Untouched(text, start, i);
    return Found(Text(Hunks.Join(DropEmptyEnd(texts))), i);
  }

  lemma BlockStep(lines: seq<string>, i: nat, indent: nat, block: Option<nat>)
    requires i <= |lines|
    ensures var here := BlockLines(lines[i..], indent, block);
            if i == |lines| || (Strip(lines[i]) != "" && Indent(lines[i]) <= indent) then here == ([], lines[i..])
            else if Strip(lines[i]) == "" then
              var more := BlockLines(lines[i + 1..], indent, block); here == ([""] + more.0, more.1)
            else
              var at := if block.Some? then block.value else Indent(lines[i]);
              var more := BlockLines(lines[i + 1..], indent, Some(at));
              here == ([if Indent(lines[i]) >= at then lines[i][at..] else Strip(lines[i])] + more.0, more.1)
  {
    hide Strip, Indent;
    assert i < |lines| ==> lines[i..][0] == lines[i] && lines[i..][1..] == lines[i + 1..];
  }

  /** parse_yaml_subset, on the lines splitlines gives. */
  method Parse(text: string) returns (r: Option<Node>)
    ensures r == ParseDocument(text)
  {
    hide HasContent, Indent, ParseNode, SkipBlank, Hunks.SplitLines;
    var split := Hunks.SplitLines(text);
    var lines := new string[|split|](k requires 0 <= k < |split| => split[k]);
    assert lines[..] == split && lines[0..] == split;
    var i := NextContent(lines, 0);
    if i == lines.Length {
      return Some(Mapping([]));
    }
    var outcome := ParseAt(lines, i, Indent(lines[i]));
    return if outcome.Found? then Some(outcome.node) else None;
  }
}
