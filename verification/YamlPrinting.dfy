/**
  Canonical block printing of a tree (section 8.2 of YAML 1.2.2) and its inverse, the meaning that
  `YamlSubset` gives lines: whatever a non-empty tree is printed as is read back as that very tree,
  its keys in order.
 */
module YamlPrinting {
  import opened Common
  import opened YamlSubset
  import Hunks

  // ---------------------------------------------------------------- printing

  function PrintEntry(e: Entry, indent: nat): seq<string>
    decreases e, 0
  {
    var key := Spaces(indent) + e.key + ":";
    match e.value
    case Text(text) =>
      if !OnOneLine(text) then [key + " |"] + Indented(Hunks.SplitLines(text), indent + 2)
      else [if Shown(text) == "" then key else key + " " + Shown(text)]
    case _ => [key] + Print(e.value, indent + 2)
  }

  function PrintEntries(entries: seq<Entry>, indent: nat): seq<string>
    decreases entries, 1
  {
    if entries == [] then [] else PrintEntry(entries[0], indent) + PrintEntries(entries[1..], indent)
  }

  /** A mapping starts on its dash's line; a sequence under a dash starts below it. */
  function PrintItem(item: Node, indent: nat): seq<string>
    decreases item, 2
  {
    match item
    case Text(text) => [Spaces(indent) + if Shown(text) == "" then "-" else "- " + Shown(text)]
    case Items(_) => [Spaces(indent) + "-"] + Print(item, indent + 2)
    case Mapping(_) => Dashed(Print(item, indent + 2), indent)
  }

  function Dashed(lines: seq<string>, indent: nat): seq<string> {
    if lines == [] || |lines[0]| < indent + 2 then lines
    else [Spaces(indent) + "- " + lines[0][indent + 2..]] + lines[1..]
  }

  function PrintItems(items: seq<Node>, indent: nat): seq<string>
    decreases items, 3
  {
    if items == [] then [] else PrintItem(items[0], indent) + PrintItems(items[1..], indent)
  }

  function Print(node: Node, indent: nat): seq<string>
    decreases node, 0
  {
    match node
    case Text(text) => [Spaces(indent) + Shown(text)]
    case Mapping(entries) => PrintEntries(entries, indent)
    case Items(items) => PrintItems(items, indent)
  }

  /** The lines of a literal block; blank ones stay empty. */
  function Indented(lines: seq<string>, indent: nat): (r: seq<string>)
    ensures |r| == |lines| && forall k :: 0 <= k < |r| ==> r[k] == if lines[k] == "" then "" else Spaces(indent) + lines[k]
  {
    if lines == [] then []
    else [if lines[0] == "" then "" else Spaces(indent) + lines[0]] + Indented(lines[1..], indent)
  }

  // ------------------------------------------------------- what can be printed

  predicate IsPlainChar(c: char) {
    !Hunks.IsBreak(c) && c != ':' && c != '#' && c != '"' && c != '\''
  }

  /** A plain scalar of any number of words, or nothing. */
  predicate IsPlain(s: string) {
    && (forall k :: 0 <= k < |s| ==> IsPlainChar(s[k]))
    && Stripped(s)
    && (s != "" ==> s[0] != '|' && s[0] != '>' && s[0] != '&' && s[0] != '*' && s[0] != '!')
  }

  /** Text on one line that does not hold both quotes. */
  predicate IsQuotable(s: string) {
    Hunks.Clean(s) && ('"' !in s || '\'' !in s)
  }

  predicate OnOneLine(s: string) {
    IsPlain(s) || IsQuotable(s)
  }

  /**
    Text a literal block can hold: lines none of which is only white space, the first neither empty nor
    indented, the last not empty. Lines may be indented further, and empty ones may stand between.
   */
  predicate IsBlockText(s: string) {
    var lines := Hunks.SplitLines(s);
    && s == Hunks.Join(lines) && lines != []
    && (forall k :: 0 <= k < |lines| && lines[k] != "" ==> Strip(lines[k]) != "")
    && lines[0] != "" && lines[0][0] != ' ' && lines[|lines| - 1] != ""
  }

  /** How text is written: as it stands if plain, otherwise in whichever quotes it does not hold. */
  function Shown(text: string): string {
    if IsPlain(text) then text else if '"' !in text then Quoted(text, '"') else Quoted(text, '\'')
  }

  function Quoted(text: string, quote: char): string {
    [quote] + text + [quote]
  }

  /** What stands after a key: a scalar, nothing, or the mark of a literal block. */
  predicate IsWord(w: string) {
    IsShown(w) || w == "|"
  }

  /** What is written for some text: a plain scalar or a quoted one. */
  predicate IsShown(w: string) {
    IsPlain(w) || IsQuoted(w)
  }

  predicate IsQuoted(w: string) {
    && |w| >= 2 && Hunks.Clean(w) && (w[0] == '"' || w[0] == '\'') && w[|w| - 1] == w[0]
    && forall k :: 0 < k < |w| - 1 ==> w[k] != w[0]
  }

  /** The text a written scalar stands for. */
  function Meant(w: string): string {
    if IsPlain(w) || |w| < 2 then w else w[1..|w| - 1]
  }

  predicate IsKey(s: string) {
    s != "" && forall k :: 0 <= k < |s| ==> IsKeyChar(s[k])
  }

  /** Non-empty collections, distinct keys, text that can be written on one line or under a key as a block. */
  predicate Printable(node: Node)
    decreases node, 0
  {
    match node
    case Text(text) => OnOneLine(text) || IsBlockText(text)
    case Mapping(entries) => entries != [] && PrintableEntries(entries)
    case Items(items) => items != [] && PrintableItems(items)
  }

  predicate PrintableEntries(entries: seq<Entry>)
    decreases entries, 1
  {
    entries == [] || (
      && IsKey(entries[0].key) && Printable(entries[0].value)
      && !HasKey(entries[1..], entries[0].key)
      && PrintableEntries(entries[1..]))
  }

  predicate PrintableItems(items: seq<Node>)
    decreases items, 1
  {
    items == [] || (Printable(items[0]) && FitsItem(items[0]) && PrintableItems(items[1..]))
  }

  /** The parser reads no block under a dash. */
  predicate FitsItem(item: Node) {
    item.Text? ==> OnOneLine(item.text)
  }

  predicate HasKey(entries: seq<Entry>, key: string) {
    exists k :: 0 <= k < |entries| && entries[k].key == key
  }

  /** The scalar printed on an entry's own line. */
  function WordOf(value: Node): string {
    match value case Text(text) => if OnOneLine(text) then Shown(text) else "|" case _ => ""
  }

  /** What the regular expressions tell of an entry's line. */
  function KeyLineOf(e: Entry): KeyLine {
    KeyLine(e.key, if WordOf(e.value) == "" then None else Some(WordOf(e.value)))
  }

  // ------------------------------------------------------- one line read back

  function EntryLine(key: string, text: string): string {
    if text == "" then key + ":" else key + ": " + text
  }

  predicate NoQuotes(s: string) {
    forall k :: 0 <= k < |s| ==> s[k] != '#' && s[k] != '"' && s[k] != '\''
  }

  /** Marks only count from where the first one stands. */
  lemma {:induction false} NoComment(s: string, i: nat, n: nat)
    requires i <= n <= |s| && forall k :: i <= k < n ==> s[k] != '#' && s[k] != '"' && s[k] != '\''
    ensures CommentAt(s, i, None) == CommentAt(s, n, None)
    decreases n - i
  {
    if i < n {
      NoComment(s, i + 1, n);
    }
  }

  lemma StripKeeps(s: string)
    requires Stripped(s)
    ensures Strip(s) == s
  {
    if s != "" {
      SpacesThen(0, s);
      assert Spaces(0) + s == s;
    }
  }

  lemma UncommentKeeps(s: string)
    requires CommentAt(s, 0, None) == |s| && Stripped(s)
    ensures Uncomment(s) == s
  {
    assert s[..|s|] == s;
    StripKeeps(s);
  }

  /** A written scalar holds no comment, wherever on its line it stands. */
  lemma ShownHoldsNoComment(prefix: string, w: string)
    requires IsShown(w)
    ensures CommentAt(prefix + w, |prefix|, None) == |prefix + w|
  {
    var s, n := prefix + w, |prefix|;
    assert forall k :: 0 <= k < |w| ==> s[n + k] == w[k];
    assert forall k :: n <= k < |s| ==> s[k] == w[k - n];
    if IsPlain(w) {
      NoComment(s, n, |s|);
    } else {
      QuoteRunsToItsEnd(s, n + 1, |s| - 1, w[0]);
    }
  }

  /** The scalar of what is written is the text. */
  lemma ShownMeansText(text: string)
    requires OnOneLine(text)
    ensures IsShown(Shown(text)) && Meant(Shown(text)) == text && (Shown(text) == "" <==> text == "")
  {
    if !IsPlain(text) {
      QuotedIsShown(text, if '"' !in text then '"' else '\'');
    }
  }

  lemma QuotedIsShown(text: string, quote: char)
    requires Hunks.Clean(text) && quote !in text && (quote == '"' || quote == '\'')
    ensures IsQuoted(Quoted(text, quote)) && !IsPlain(Quoted(text, quote)) && Meant(Quoted(text, quote)) == text
  {
    var w := Quoted(text, quote);
    assert w[0] == quote && !IsPlainChar(w[0]);
    assert forall k :: 0 < k < |w| - 1 ==> w[k] == text[k - 1] && text[k - 1] in text;
    assert w[1..|w| - 1] == text;
  }

  lemma WordIsRead(w: string)
    requires IsShown(w)
    ensures Stripped(w) && Uncomment(w) == w && Scalar(w) == Some(Meant(w))
    ensures w != "" ==> !OpensBlock(w) && !IsEmptyValue(Some(w)) && MatchKey(w) == None
  {
    ShownIsStripped(w);
    ShownHoldsNoComment("", w);
    assert "" + w == w;
    UncommentKeeps(w);
    hide Uncomment, Stripped, IsShown, IsPlain, IsQuoted, Meant, Scalar, OpensBlock, MatchKey;
    ScalarIsMeant(w);
    ShownIsNoKey(w);
  }

  lemma ScalarIsMeant(w: string)
    requires IsShown(w) && Uncomment(w) == w
    ensures Scalar(w) == Some(Meant(w))
    ensures w != "" ==> !OpensBlock(w)
  {
    hide Uncomment, Stripped, Hunks.Clean, Hunks.IsBreak;
    assert IsPlain(w) && w != "" ==> IsPlainChar(w[0]);
  }

  lemma WordIsStripped(w: string)
    requires IsWord(w)
    ensures Stripped(w)
  {
    assert !IsSpace('|');
    if IsShown(w) {
      ShownIsStripped(w);
    }
    hide IsShown;
  }

  lemma WordHoldsNoComment(prefix: string, w: string)
    requires IsWord(w)
    ensures CommentAt(prefix + w, |prefix|, None) == |prefix + w|
  {
    hide IsShown;
    if IsShown(w) {
      ShownHoldsNoComment(prefix, w);
    } else {
      NoComment(prefix + w, |prefix|, |prefix + w|);
    }
  }

  lemma ShownIsStripped(w: string)
    requires IsShown(w)
    ensures Stripped(w)
  {
    assert !IsSpace('"') && !IsSpace('\'');
  }

  lemma ShownIsNoKey(w: string)
    requires IsShown(w)
    ensures MatchKey(w) == None
  {
    if IsPlain(w) {
      assert forall k :: 0 <= k < |w| ==> w[k] != ':';
    } else {
      assert !IsKeyChar(w[0]);
    }
  }

  lemma KeyRunIs(s: string, i: nat, e: nat)
    requires i <= e <= |s| && (e < |s| ==> !IsKeyChar(s[e])) && forall k :: i <= k < e ==> IsKeyChar(s[k])
    ensures KeyRun(s, i) == e
  {
  }

  lemma KeyCharIsPlain(c: char)
    requires IsKeyChar(c)
    ensures !IsSpace(c) && c != '#' && c != '"' && c != '\'' && c != ':' && c != ' '
  {
  }

  lemma EntryLineShape(key: string, text: string)
    requires IsKey(key) && IsWord(text)
    ensures var s := EntryLine(key, text);
            && |s| > |key| && s[..|key|] == key && s[|key|] == ':' && !IsSpace(':')
            && (forall k :: 0 <= k < |key| ==> s[k] == key[k])
            && (text == "" ==> |s| == |key| + 1)
            && (text != "" ==> |s| > |key| + 2 && s[|key| + 1] == ' ' && s[|key| + 2..] == text && !IsSpace(s[|key| + 2]))
            && Stripped(s) && s != "---" && s != "..."
  {
    var s := EntryLine(key, text);
    forall k | 0 <= k < |key| ensures !IsSpace(key[k]) {
      KeyCharIsPlain(key[k]);
    }
    WordIsStripped(text);
    hide IsWord;
    assert s[|key|] == ':' && s[0] == key[0];
    assert text != "" ==> s[|key| + 2] == text[0] && s[|s| - 1] == text[|text| - 1];
  }

  lemma EntryLineHoldsNoComment(key: string, text: string)
    requires IsKey(key) && IsWord(text)
    ensures CommentAt(EntryLine(key, text), 0, None) == |EntryLine(key, text)|
  {
    var s, prefix := EntryLine(key, text), if text == "" then key + ":" else key + ": ";
    forall k | 0 <= k < |key| ensures key[k] != '#' && key[k] != '"' && key[k] != '\'' {
      KeyCharIsPlain(key[k]);
    }
    assert s == prefix + text;
    hide IsWord;
    WordHoldsNoComment(prefix, text);
    NoComment(s, 0, |prefix|);
  }

  /** A key's line gives its key, and its word if it has one. */
  lemma EntryLineIsRead(key: string, text: string)
    requires IsKey(key) && IsWord(text)
    ensures var s := EntryLine(key, text);
            MatchKey(s) == Some(KeyLine(key, if text == "" then None else Some(text))) && MatchDash(s) == None
  {
    var s := EntryLine(key, text);
    EntryLineShape(key, text);
    hide EntryLine, IsWord, Stripped;
    KeyRunIs(s, 0, |key|);
    KeyCharIsPlain(s[0]);
    if |key| > 1 {
      KeyCharIsPlain(s[1]);
    }
  }

  /** A line of the print: content at its own indentation. */
  lemma LineIsContent(s: string, indent: nat)
    requires s != "" && Stripped(s) && s[0] != '#' && s != "---" && s != "..."
    ensures var line := Spaces(indent) + s; HasContent(line) && Indent(line) == indent && Strip(line) == s
  {
    SpacesThen(indent, s);
  }

  lemma EntryLineInPlace(key: string, text: string, indent: nat)
    requires IsKey(key) && IsWord(text)
    ensures var line := Spaces(indent) + EntryLine(key, text);
            HasContent(line) && Indent(line) == indent && Strip(line) == EntryLine(key, text)
  {
    var s := EntryLine(key, text);
    EntryLineShape(key, text);
    KeyCharIsPlain(key[0]);
    hide EntryLine;
    assert s[0] == key[0];
    LineIsContent(s, indent);
  }

  function DashLine(rest: string): string {
    if rest == "" then "-" else "- " + rest
  }

  lemma DashLineInPlace(rest: string, indent: nat)
    requires Stripped(rest)
    ensures var line := Spaces(indent) + DashLine(rest);
            && HasContent(line) && Indent(line) == indent && Strip(line) == DashLine(rest)
            && MatchDash(DashLine(rest)) == Some(if rest == "" then None else Some(rest))
  {
    var s := DashLine(rest);
    assert s[0] == '-' && (rest != "" ==> s[1] == ' ' && s[2..] == rest && s[2] == rest[0] && s[|s| - 1] == rest[|rest| - 1]);
    assert !IsSpace('-') && IsSpace(' ');
    LineIsContent(s, indent);
  }

  // ---------------------------------------------------- unfolding the parser

  lemma ContentIsNotSkipped(lines: seq<string>)
    requires lines != [] ==> HasContent(lines[0])
    ensures SkipBlank(lines) == lines
  {
  }

  lemma EntryStep(entries: seq<Entry>, lines: seq<string>, indent: nat, key: KeyLine, value: Node, rest: seq<string>)
    requires Opens(lines, indent) && MatchKey(Strip(lines[0])) == Some(key)
    requires ParseValue(key, lines[1..], indent) == Read(value, rest)
    ensures ParseEntries(entries, lines, indent) == ParseEntries(Put(entries, key.key, value), rest, indent)
  {
    hide HasContent, Indent, MatchKey, Strip, ParseValue, Put;
    ContentIsNotSkipped(lines);
    hide SkipBlank;
  }

  lemma ItemStep(items: seq<Node>, lines: seq<string>, indent: nat, rest: Option<string>, item: Node, after: seq<string>)
    requires Opens(lines, indent) && MatchDash(Strip(lines[0])) == Some(rest)
    requires ParseItem(lines, rest, indent) == Read(item, after)
    ensures ParseItems(items, lines, indent) == ParseItems(items + [item], after, indent)
  {
    hide HasContent, Indent, MatchDash, Strip, ParseItem;
    ContentIsNotSkipped(lines);
    hide SkipBlank;
  }

  /** Nothing, or content of an enclosing block. */
  ghost predicate Ends(tail: seq<string>, indent: nat) {
    tail == [] || (HasContent(tail[0]) && Indent(tail[0]) < indent)
  }

  /** What may follow an entry or an item at this indentation. */
  ghost predicate Follows(tail: seq<string>, indent: nat) {
    tail == [] || (HasContent(tail[0]) && Indent(tail[0]) <= indent)
  }

  /** What may follow an entry: its dash would otherwise be taken for the key's own. */
  ghost predicate FollowsEntry(tail: seq<string>, indent: nat) {
    Follows(tail, indent) && (tail != [] && Indent(tail[0]) == indent ==> MatchDash(Strip(tail[0])) == None)
  }

  lemma EntriesEnd(entries: seq<Entry>, tail: seq<string>, indent: nat)
    requires Ends(tail, indent)
    ensures ParseEntries(entries, tail, indent) == Read(Mapping(entries), tail)
  {
    hide HasContent, Indent;
    ContentIsNotSkipped(tail);
    hide SkipBlank;
  }

  lemma ItemsEnd(items: seq<Node>, tail: seq<string>, indent: nat)
    requires Ends(tail, indent)
    ensures ParseItems(items, tail, indent) == Read(Items(items), tail)
  {
    hide HasContent, Indent;
    ContentIsNotSkipped(tail);
    hide SkipBlank;
  }

  // ------------------------------------------------------------ the first line

  lemma MappingPrint(entries: seq<Entry>, indent: nat)
    requires entries != []
    ensures Print(Mapping(entries), indent) == PrintEntry(entries[0], indent) + PrintEntries(entries[1..], indent)
  {
    hide PrintEntry;
  }

  lemma ItemsPrint(items: seq<Node>, indent: nat)
    requires items != []
    ensures Print(Items(items), indent) == PrintItem(items[0], indent) + PrintItems(items[1..], indent)
  {
    hide PrintItem;
  }

  lemma EntryOpens(e: Entry, indent: nat)
    requires IsKey(e.key) && Printable(e.value)
    ensures IsWord(WordOf(e.value)) && PrintEntry(e, indent) != [] && Opens(PrintEntry(e, indent), indent)
    ensures PrintEntry(e, indent)[0] == Spaces(indent) + EntryLine(e.key, WordOf(e.value))
    ensures MatchKey(Strip(PrintEntry(e, indent)[0])) == Some(KeyLineOf(e)) && MatchDash(Strip(PrintEntry(e, indent)[0])) == None
  {
    hide PrintEntry, EntryLine, MatchKey, MatchDash, Strip, HasContent, Indent;
    EntryHead(e, indent);
    EntryLineInPlace(e.key, WordOf(e.value), indent);
    EntryLineIsRead(e.key, WordOf(e.value));
  }

  lemma FirstOfMany(lines: seq<string>, more: seq<string>, indent: nat)
    requires Opens(lines, indent)
    ensures Opens(lines + more, indent) && (lines + more)[0] == lines[0] && (lines + more)[1..] == lines[1..] + more
  {
  }

  /** The print of a collection starts with content at its own indentation. */
  lemma {:induction false} PrintOpens(node: Node, indent: nat)
    requires Printable(node) && !node.Text?
    ensures Print(node, indent) != [] && Opens(Print(node, indent), indent)
    ensures node.Mapping? ==>
              var first := node.entries[0];
              && Printable(first.value) && IsKey(first.key)
              && Print(node, indent)[0] == Spaces(indent) + EntryLine(first.key, WordOf(first.value))
    ensures node.Items? ==> MatchDash(Strip(Print(node, indent)[0])).Some?
    decreases node, 0
  {
    hide Print, PrintEntry, PrintEntries, PrintItem, PrintItems, EntryLine, MatchDash, Strip, HasContent, Indent, MatchKey;
    if node.Mapping? {
      MappingPrint(node.entries, indent);
      EntryOpens(node.entries[0], indent);
      FirstOfMany(PrintEntry(node.entries[0], indent), PrintEntries(node.entries[1..], indent), indent);
    } else {
      ItemsPrint(node.items, indent);
      ItemOpens(node.items[0], indent);
      FirstOfMany(PrintItem(node.items[0], indent), PrintItems(node.items[1..], indent), indent);
    }
  }

  lemma EntryHead(e: Entry, indent: nat)
    requires IsKey(e.key) && Printable(e.value)
    ensures var text := WordOf(e.value);
            IsWord(text) && PrintEntry(e, indent) != [] && PrintEntry(e, indent)[0] == Spaces(indent) + EntryLine(e.key, text)
  {
    hide Printable, IsWord, IsKey, Spaces, Shown, Print, OnOneLine, Indented;
    var text := WordOf(e.value);
    WordIsPrintable(e.value);
    assert Spaces(indent) + e.key + ":" == Spaces(indent) + (e.key + ":");
    assert Spaces(indent) + e.key + ":" + " " + text == Spaces(indent) + (e.key + ": " + text);
  }

  lemma {:induction false} ItemOpens(item: Node, indent: nat)
    requires Printable(item) && FitsItem(item)
    ensures PrintItem(item, indent) != [] && Opens(PrintItem(item, indent), indent)
    ensures MatchDash(Strip(PrintItem(item, indent)[0])) == Some(AfterDash(item))
    decreases item, 2
  {
    hide Print, EntryLine, MatchDash, Strip, HasContent, Indent, IsShown;
    if item.Mapping? {
      MappingItemOpens(item, indent);
    } else if item.Items? {
      DashLineInPlace("", indent);
    } else {
      ShownMeansText(item.text);
      WordIsRead(Shown(item.text));
      DashLineInPlace(Shown(item.text), indent);
    }
  }

  lemma {:induction false} MappingItemOpens(item: Node, indent: nat)
    requires Printable(item) && item.Mapping?
    ensures var first, inner := item.entries[0], Print(item, indent + 2);
            var body := EntryLine(first.key, WordOf(first.value));
            && inner != [] && IsKey(first.key) && Printable(first.value) && body != "" && Stripped(body)
            && inner[0] == Spaces(indent + 2) + body
            && PrintItem(item, indent) == [Spaces(indent) + DashLine(body)] + inner[1..]
            && Opens(PrintItem(item, indent), indent)
            && Strip(PrintItem(item, indent)[0]) == DashLine(body)
            && MatchDash(DashLine(body)) == Some(Some(body))
    decreases item, 1
  {
    hide Print, EntryLine, MatchDash, Strip, HasContent, Indent, Dashed, DashLine, Stripped;
    var first := item.entries[0];
    var body := EntryLine(first.key, WordOf(first.value));
    PrintOpens(item, indent + 2);
    WordIsPrintable(first.value);
    EntryLineShape(first.key, WordOf(first.value));
    DashedHead(Print(item, indent + 2), body, indent);
    DashLineInPlace(body, indent);
  }

  lemma WordIsPrintable(value: Node)
    requires Printable(value)
    ensures IsWord(WordOf(value))
  {
    if value.Text? && OnOneLine(value.text) {
      ShownMeansText(value.text);
    }
  }

  /** What stands after an item's dash. */
  function AfterDash(item: Node): Option<string> {
    match item
    case Text(text) => if Shown(text) == "" then None else Some(Shown(text))
    case Items(_) => None
    case Mapping(entries) =>
      if entries == [] then None
      else Some(EntryLine(entries[0].key, WordOf(entries[0].value)))
  }

  lemma DashedHead(lines: seq<string>, body: string, indent: nat)
    requires lines != [] && lines[0] == Spaces(indent + 2) + body && body != ""
    ensures Dashed(lines, indent) == [Spaces(indent) + DashLine(body)] + lines[1..]
  {
    assert lines[0][indent + 2..] == body;
    assert Spaces(indent) + "- " + body == Spaces(indent) + ("- " + body);
  }

  // ------------------------------------------------------------ the round trip

  lemma {:induction false} PutAppends(entries: seq<Entry>, key: string, value: Node)
    requires !HasKey(entries, key)
    ensures Put(entries, key, value) == entries + [Entry(key, value)]
  {
    if entries != [] {
      assert entries[0].key != key;
      forall k | 0 <= k < |entries[1..]| ensures entries[1..][k].key != key {
        assert entries[k + 1].key != key;
      }
      PutAppends(entries[1..], key, value);
    }
  }

  lemma {:induction false} ValueBack(e: Entry, indent: nat, more: seq<string>)
    requires IsKey(e.key) && Printable(e.value) && FollowsEntry(more, indent)
    ensures PrintEntry(e, indent) != []
    ensures ParseValue(KeyLineOf(e), PrintEntry(e, indent)[1..] + more, indent) == Read(e.value, more)
    decreases e, 0
  {
    var below := PrintEntry(e, indent)[1..] + more;
    if e.value.Text? && !OnOneLine(e.value.text) {
      BlockValueBack(e, indent, more);
    } else if e.value.Text? {
      assert below == more;
      ShownMeansText(e.value.text);
      WordIsRead(Shown(e.value.text));
      NothingNested(more, indent);
    } else {
      assert below == Print(e.value, indent + 2) + more;
      PrintOpens(e.value, indent + 2);
      FirstOfMany(Print(e.value, indent + 2), more, indent + 2);
      NodeBack(e.value, indent + 2, more);
      NestedBlock(below, indent);
    }
    hide Scalar, Uncomment, OpensBlock, IsShown, ParseNested, Print, ParseNode, Printable, PrintEntry, HasContent, Indent, MatchDash, Strip, OnOneLine;
  }

  lemma BlockValueBack(e: Entry, indent: nat, more: seq<string>)
    requires e.value.Text? && !OnOneLine(e.value.text) && IsBlockText(e.value.text) && FollowsEntry(more, indent)
    ensures PrintEntry(e, indent) != []
    ensures ParseValue(KeyLineOf(e), PrintEntry(e, indent)[1..] + more, indent) == Read(e.value, more)
  {
    var lines := Hunks.SplitLines(e.value.text);
    BlockBack(lines, indent, more);
    BarOpensBlock();
    assert PrintEntry(e, indent)[1..] == Indented(lines, indent + 2);
    hide BlockScalar, OnOneLine, Uncomment, OpensBlock, Indented, Print, Shown;
  }

  lemma BarOpensBlock()
    ensures !IsEmptyValue(Some("|")) && OpensBlock("|")
  {
    NoComment("|", 0, 1);
    assert Stripped("|") by {
      assert !IsSpace('|');
    }
    UncommentKeeps("|");
  }

  /** A printed literal block is read back, whatever shallower content comes after it. */
  lemma BlockBack(lines: seq<string>, indent: nat, more: seq<string>)
    requires lines != [] && lines[0] != "" && lines[0][0] != ' ' && lines[|lines| - 1] != ""
    requires forall k :: 0 <= k < |lines| && lines[k] != "" ==> Strip(lines[k]) != ""
    requires Follows(more, indent)
    ensures BlockScalar(Indented(lines, indent + 2) + more, indent) == (Hunks.Join(lines), more)
  {
    hide BlockScalar, Strip, Indent, HasContent, Hunks.Join, IsTextOf, InBlock, EndsBlock, FirstAt;
    var at, printed := indent + 2, Indented(lines, indent + 2);
    forall k | 0 <= k < |lines| ensures IsTextOf(lines[k], printed[k], at) && BlockLineShape(lines[k], printed[k], at) {
      BlockLineBack(lines[k], at);
    }
    PrintedBlockIsBlock(lines, printed, indent);
    FollowsEndsBlock(more, indent);
    BlockScalarMeans(printed, more, indent, at, lines, |lines|);
    assert lines[..|lines|] == lines;
  }

  ghost predicate BlockLineShape(line: string, printed: string, at: nat) {
    && (Strip(printed) == "" <==> line == "")
    && (line != "" ==> Indent(printed) >= at) && (line != "" && line[0] != ' ' ==> Indent(printed) == at)
  }

  lemma PrintedBlockIsBlock(lines: seq<string>, printed: seq<string>, indent: nat)
    requires lines != [] && lines[0] != "" && lines[0][0] != ' ' && |printed| == |lines|
    requires forall k :: 0 <= k < |lines| ==> BlockLineShape(lines[k], printed[k], indent + 2)
    ensures InBlock(printed, indent) && FirstAt(printed, indent + 2)
  {
    hide Strip, Indent;
    assert BlockLineShape(lines[0], printed[0], indent + 2);
    forall k | 0 <= k < |printed| ensures Strip(printed[k]) == "" || Indent(printed[k]) > indent {
      assert BlockLineShape(lines[k], printed[k], indent + 2);
    }
  }

  lemma FollowsEndsBlock(more: seq<string>, indent: nat)
    requires Follows(more, indent)
    ensures EndsBlock(more, indent)
  {
  }

  lemma BlockLineBack(line: string, at: nat)
    requires line != "" ==> Strip(line) != ""
    ensures var printed := if line == "" then "" else Spaces(at) + line;
            BlockLineShape(line, printed, at) && IsTextOf(line, printed, at)
  {
    if line != "" {
      var s := Spaces(at) + line;
      assert forall k :: 0 <= k < |line| ==> s[at + k] == line[k];
      SomethingStays(line, s, at);
    }
  }

  lemma SomethingStays(line: string, s: string, at: nat)
    requires Strip(line) != "" && s == Spaces(at) + line
    ensures Strip(s) != ""
  {
    var k := NotAllSpace(line);
    assert s[at + k] == line[k];
    SomethingLeft(s, at + k);
  }

  lemma NotAllSpace(line: string) returns (k: nat)
    requires Strip(line) != ""
    ensures k < |line| && !IsSpace(line[k])
  {
    k := SpaceRun(line, 0);
    assert line[|line|..] == "";
  }

  lemma SomethingLeft(s: string, k: nat)
    requires k < |s| && !IsSpace(s[k])
    ensures Strip(s) != ""
  {
    var from := SpaceRun(s, 0);
    assert from <= k;
    assert s[from..][k - from] == s[k];
    EndKeeps(s[from..], k - from);
  }

  lemma {:induction false} EndKeeps(s: string, k: nat)
    requires k < |s| && !IsSpace(s[k])
    ensures TrimEnd(s) != ""
  {
    if IsSpace(s[|s| - 1]) {
      EndKeeps(s[..|s| - 1], k);
    }
  }

  lemma NothingNested(more: seq<string>, indent: nat)
    requires FollowsEntry(more, indent)
    ensures ParseNested(more, indent) == Read(Text(""), more)
  {
    hide HasContent, Indent, MatchDash, Strip, ParseNode, ParseItems;
    ContentIsNotSkipped(more);
  }

  lemma NestedBlock(lines: seq<string>, indent: nat)
    requires Opens(lines, indent + 2)
    ensures ParseNested(lines, indent) == ParseNode(lines, indent + 2)
  {
    hide HasContent, Indent, MatchDash, Strip, ParseNode, ParseItems;
    ContentIsNotSkipped(lines);
  }

  lemma {:induction false} NodeBack(node: Node, indent: nat, tail: seq<string>)
    requires Printable(node) && !node.Text? && Ends(tail, indent)
    ensures Print(node, indent) != [] && ParseNode(Print(node, indent) + tail, indent) == Read(node, tail)
    decreases node, 0
  {
    hide Print, PrintEntries, PrintItems, MatchDash, MatchKey, Strip, ParseNode, ParseEntries, ParseItems, EntryLine, HasContent, Indent, IsShown, IsWord, Ends, FreshKeys;
    PrintOpens(node, indent);
    FirstOfMany(Print(node, indent), tail, indent);
    if node.Mapping? {
      var first := node.entries[0];
      WordIsPrintable(first.value);
      EntryLineInPlace(first.key, WordOf(first.value), indent);
      EntryLineIsRead(first.key, WordOf(first.value));
      PrintOfEntries(node.entries, indent);
      NothingBefore(node.entries);
      EntriesBack([], node.entries, indent, tail);
      assert [] + node.entries == node.entries;
    } else {
      PrintOfItems(node.items, indent);
      ItemsBack([], node.items, indent, tail);
      assert [] + node.items == node.items;
    }
    NodeChoice(Print(node, indent) + tail, indent);
  }

  lemma NodeChoice(lines: seq<string>, indent: nat)
    requires lines != []
    ensures MatchDash(Strip(lines[0])).Some? ==> ParseNode(lines, indent) == ParseItems([], lines, indent)
    ensures MatchDash(Strip(lines[0])).None? && MatchKey(Strip(lines[0])).Some? ==> ParseNode(lines, indent) == ParseEntries([], lines, indent)
  {
    hide MatchDash, MatchKey, Strip, ParseEntries, ParseItems, HasContent, Indent;
  }

  lemma NothingPrinted(indent: nat)
    ensures PrintEntries([], indent) == [] && PrintItems([], indent) == []
  {
  }

  ghost predicate FreshKeys(entries: seq<Entry>, more: seq<Entry>) {
    forall k :: 0 <= k < |more| ==> !HasKey(entries, more[k].key)
  }

  lemma {:induction false} EntriesBack(entries: seq<Entry>, more: seq<Entry>, indent: nat, tail: seq<string>)
    requires PrintableEntries(more) && FreshKeys(entries, more) && Ends(tail, indent)
    ensures ParseEntries(entries, PrintEntries(more, indent) + tail, indent) == Read(Mapping(entries + more), tail)
    decreases more, 1
  {
    hide Print, PrintEntries, ParseEntries, HasContent, Indent, Ends, FreshKeys;
    if more == [] {
      NothingPrinted(indent);
      assert PrintEntries(more, indent) + tail == tail && entries + more == entries;
      EntriesEnd(entries, tail, indent);
    } else {
      EntriesStepBack(entries, more, indent, tail);
      EntriesBack(entries + [more[0]], more[1..], indent, tail);
      assert entries + [more[0]] + more[1..] == entries + more;
    }
  }

  lemma {:induction false} EntriesStepBack(entries: seq<Entry>, more: seq<Entry>, indent: nat, tail: seq<string>)
    requires more != [] && PrintableEntries(more) && FreshKeys(entries, more) && Ends(tail, indent)
    ensures ParseEntries(entries, PrintEntries(more, indent) + tail, indent)
         == ParseEntries(entries + [more[0]], PrintEntries(more[1..], indent) + tail, indent)
    ensures FreshKeys(entries + [more[0]], more[1..]) && PrintableEntries(more[1..])
    decreases more, 0
  {
    hide Print, PrintEntry, PrintEntries, ParseValue, ParseEntries, EntryLine, HasContent, Indent, MatchKey, MatchDash, Strip, Put, Ends, FreshKeys, FollowsEntry;
    var e, rest := more[0], more[1..];
    var after, head := PrintEntries(rest, indent) + tail, PrintEntry(e, indent);
    MappingPrint(more, indent);
    PrintOfEntries(more, indent);
    assert PrintEntries(more, indent) + tail == head + after;
    EntryOpens(e, indent);
    FirstOfMany(head, after, indent);
    AfterEntry(rest, indent, tail);
    ValueBack(e, indent, after);
    FreshAfter(entries, more);
    PutAppends(entries, e.key, e.value);
    EntryStep(entries, head + after, indent, KeyLineOf(e), e.value, after);
  }

  lemma PrintOfEntries(entries: seq<Entry>, indent: nat)
    ensures Print(Mapping(entries), indent) == PrintEntries(entries, indent)
  {
    hide PrintEntries;
  }

  lemma PrintOfItems(items: seq<Node>, indent: nat)
    ensures Print(Items(items), indent) == PrintItems(items, indent)
  {
    hide PrintItems;
  }

  lemma FreshAfter(entries: seq<Entry>, more: seq<Entry>)
    requires more != [] && PrintableEntries(more) && FreshKeys(entries, more)
    ensures !HasKey(entries, more[0].key) && FreshKeys(entries + [more[0]], more[1..])
  {
    var e, rest := more[0], more[1..];
    forall k | 0 <= k < |rest| ensures !HasKey(entries + [e], rest[k].key) {
      assert rest[k] == more[k + 1];
      assert rest[k].key != e.key;
    }
  }

  /** Another entry of the mapping, or its end, may follow an entry. */
  lemma AfterEntry(rest: seq<Entry>, indent: nat, tail: seq<string>)
    requires PrintableEntries(rest) && Ends(tail, indent)
    ensures FollowsEntry(PrintEntries(rest, indent) + tail, indent)
  {
    if rest != [] {
      hide Print, PrintEntry, PrintEntries, HasContent, Indent, Strip, EntryLine, MatchDash, MatchKey;
      MappingPrint(rest, indent);
      PrintOfEntries(rest, indent);
      EntryOpens(rest[0], indent);
      FirstOfMany(PrintEntry(rest[0], indent), PrintEntries(rest[1..], indent), indent);
      FirstOfMany(PrintEntries(rest, indent), tail, indent);
    } else {
      assert PrintEntries(rest, indent) + tail == tail;
    }
  }

  lemma {:induction false} ItemsBack(items: seq<Node>, more: seq<Node>, indent: nat, tail: seq<string>)
    requires PrintableItems(more) && Ends(tail, indent)
    ensures ParseItems(items, PrintItems(more, indent) + tail, indent) == Read(Items(items + more), tail)
    decreases more, 1
  {
    hide Print, PrintItems, ParseItems, HasContent, Indent, Ends;
    if more == [] {
      NothingPrinted(indent);
      assert PrintItems(more, indent) + tail == tail && items + more == items;
      ItemsEnd(items, tail, indent);
    } else {
      ItemsStepBack(items, more, indent, tail);
      ItemsBack(items + [more[0]], more[1..], indent, tail);
      assert items + [more[0]] + more[1..] == items + more;
    }
  }

  lemma {:induction false} ItemsStepBack(items: seq<Node>, more: seq<Node>, indent: nat, tail: seq<string>)
    requires more != [] && PrintableItems(more) && Ends(tail, indent)
    ensures ParseItems(items, PrintItems(more, indent) + tail, indent)
         == ParseItems(items + [more[0]], PrintItems(more[1..], indent) + tail, indent)
    ensures PrintableItems(more[1..])
    decreases more, 0
  {
    hide Print, PrintItem, PrintItems, ParseItem, ParseItems, HasContent, Indent, MatchDash, Strip, AfterDash, Ends, Follows;
    var item, rest := more[0], more[1..];
    var after, head := PrintItems(rest, indent) + tail, PrintItem(item, indent);
    ItemsPrint(more, indent);
    PrintOfItems(more, indent);
    assert PrintItems(more, indent) + tail == head + after;
    ItemOpens(item, indent);
    FirstOfMany(head, after, indent);
    AfterItem(rest, indent, tail);
    ItemBack(item, indent, after);
    ItemStep(items, head + after, indent, AfterDash(item), item, after);
  }

  lemma AfterItem(rest: seq<Node>, indent: nat, tail: seq<string>)
    requires PrintableItems(rest) && Ends(tail, indent)
    ensures Follows(PrintItems(rest, indent) + tail, indent)
  {
    if rest != [] {
      hide Print, PrintItem, PrintItems, HasContent, Indent, Strip, MatchDash, AfterDash;
      ItemsPrint(rest, indent);
      PrintOfItems(rest, indent);
      ItemOpens(rest[0], indent);
      FirstOfMany(PrintItem(rest[0], indent), PrintItems(rest[1..], indent), indent);
      FirstOfMany(PrintItems(rest, indent), tail, indent);
    } else {
      assert PrintItems(rest, indent) + tail == tail;
    }
  }

  lemma {:induction false} ItemBack(item: Node, indent: nat, more: seq<string>)
    requires Printable(item) && FitsItem(item) && Follows(more, indent)
    ensures PrintItem(item, indent) != [] && Opens(PrintItem(item, indent) + more, indent)
    ensures MatchDash(Strip((PrintItem(item, indent) + more)[0])) == Some(AfterDash(item))
    ensures ParseItem(PrintItem(item, indent) + more, AfterDash(item), indent) == Read(item, more)
    decreases item, 1
  {
    hide Print, ParseItem, ParseNode, HasContent, Indent, Strip, MatchDash, Dashed, IsShown;
    ItemOpens(item, indent);
    var lines := PrintItem(item, indent) + more;
    FirstOfMany(PrintItem(item, indent), more, indent);
    match item
    case Text(text) =>
      assert lines[1..] == more;
      TextItem(lines, text, indent);
    case Items(_) =>
      assert lines[1..] == Print(item, indent + 2) + more;
      PrintOpens(item, indent + 2);
      FirstOfMany(Print(item, indent + 2), more, indent + 2);
      NodeBack(item, indent + 2, more);
      NestedItem(lines, indent);
    case Mapping(entries) =>
      MappingItem(item, indent, more);
  }

  lemma TextItem(lines: seq<string>, text: string, indent: nat)
    requires Opens(lines, indent) && OnOneLine(text) && Follows(lines[1..], indent)
    requires MatchDash(Strip(lines[0])) == Some(if Shown(text) == "" then None else Some(Shown(text)))
    ensures ParseItem(lines, if Shown(text) == "" then None else Some(Shown(text)), indent) == Read(Text(text), lines[1..])
  {
    hide Shown, Meant, OnOneLine, Scalar, Uncomment, MatchKey, MatchDash, Strip, HasContent, Indent, IsShown, IsEmptyValue;
    ShownMeansText(text);
    WordIsRead(Shown(text));
    ScalarItem(lines, Shown(text), indent);
  }

  /** Unfolding the parser on a dash followed by a scalar, or by nothing. */
  lemma ScalarItem(lines: seq<string>, w: string, indent: nat)
    requires Opens(lines, indent) && Follows(lines[1..], indent)
    requires MatchDash(Strip(lines[0])) == Some(if w == "" then None else Some(w))
    requires Scalar(w) == Some(Meant(w)) && (w != "" ==> !IsEmptyValue(Some(w)) && MatchKey(w) == None)
    ensures ParseItem(lines, if w == "" then None else Some(w), indent) == Read(Text(Meant(w)), lines[1..])
  {
    hide Scalar, Uncomment, MatchKey, MatchDash, Strip, HasContent, Indent, IsPlain;
    ContentIsNotSkipped(lines[1..]);
  }

  lemma NestedItem(lines: seq<string>, indent: nat)
    requires Opens(lines, indent) && Opens(lines[1..], indent + 2)
    requires MatchDash(Strip(lines[0])) == Some(None)
    ensures ParseItem(lines, None, indent) == ParseNode(lines[1..], indent + 2)
  {
    ContentIsNotSkipped(lines[1..]);
    hide MatchDash, Strip, HasContent, Indent, ParseNode;
  }

  lemma AfterDashOfMapping(item: Node)
    requires Printable(item) && item.Mapping?
    ensures item.entries != [] && AfterDash(item) == Some(EntryLine(item.entries[0].key, WordOf(item.entries[0].value)))
  {
    hide EntryLine, WordOf;
  }

  lemma {:induction false} DashedMappingIsItsEntries(item: Node, indent: nat, more: seq<string>)
    requires Printable(item) && item.Mapping?
    requires PrintItem(item, indent) != [] && Opens(PrintItem(item, indent) + more, indent)
    requires MatchDash(Strip((PrintItem(item, indent) + more)[0])) == Some(AfterDash(item))
    ensures ParseItem(PrintItem(item, indent) + more, AfterDash(item), indent)
         == ParseEntries([], PrintEntries(item.entries, indent + 2) + more, indent + 2)
  {
    hide EntryLine, Print, PrintItem, PrintEntries, Dashed, DashLine, HasContent, Indent, Strip, MatchKey, MatchDash, Uncomment, ParseEntries, Stripped, ParseItem, Rewritten, IsShown, IsWord;
    AfterDashOfMapping(item);
    hide AfterDash, WordOf;
    var first := item.entries[0];
    var body := EntryLine(first.key, WordOf(first.value));
    var lines, inner := PrintItem(item, indent) + more, Print(item, indent + 2);
    MappingItemOpens(item, indent);
    FirstOfMany(PrintItem(item, indent), more, indent);
    WordIsPrintable(first.value);
    EntryLineShape(first.key, WordOf(first.value));
    EntryLineIsRead(first.key, WordOf(first.value));
    EntryLineHoldsNoComment(first.key, WordOf(first.value));
    UncommentKeeps(body);
    RewrittenIsInner(body, indent);
    assert PrintItem(item, indent)[1..] == inner[1..];
    assert [Spaces(indent + 2) + body] + lines[1..] == inner + more;
    PrintOfEntries(item.entries, indent + 2);
    DashedItem(lines, body, indent);
  }

  /** Rewriting the dash's line restores the mapping's own first line. */
  lemma {:induction false} MappingItem(item: Node, indent: nat, more: seq<string>)
    requires Printable(item) && item.Mapping? && Follows(more, indent)
    requires PrintItem(item, indent) != [] && Opens(PrintItem(item, indent) + more, indent)
    requires MatchDash(Strip((PrintItem(item, indent) + more)[0])) == Some(AfterDash(item))
    ensures ParseItem(PrintItem(item, indent) + more, AfterDash(item), indent) == Read(item, more)
    decreases item, 0
  {
    hide PrintItem, PrintEntries, ParseEntries, ParseItem, AfterDash;
    DashedMappingIsItsEntries(item, indent, more);
    NothingBefore(item.entries);
    EntriesBack([], item.entries, indent + 2, more);
    assert [] + item.entries == item.entries;
  }

  lemma NothingBefore(entries: seq<Entry>)
    ensures FreshKeys([], entries)
  {
  }

  lemma RewrittenIsInner(body: string, indent: nat)
    requires body != ""
    ensures |DashLine(body)| == |body| + 2 && Rewritten(DashLine(body), body, indent) == Spaces(indent + 2) + body
  {
  }

  /** Unfolding the parser on a dash followed by a key. */
  lemma DashedItem(lines: seq<string>, body: string, indent: nat)
    requires Opens(lines, indent) && Strip(lines[0]) == DashLine(body) && MatchDash(DashLine(body)) == Some(Some(body))
    requires MatchKey(body).Some? && Uncomment(body) == body && body != ""
    requires |DashLine(body)| == |body| + 2 && Rewritten(DashLine(body), body, indent) == Spaces(indent + 2) + body
    ensures ParseItem(lines, Some(body), indent) == ParseEntries([], [Spaces(indent + 2) + body] + lines[1..], indent + 2)
  {
    assert ParseItem(lines, Some(body), indent) == ParseDashedEntries(lines, body, indent);
    hide HasContent, Indent, Strip, MatchKey, MatchDash, Uncomment, ParseEntries, DashLine, Rewritten;
  }

  // ------------------------------------------------------------- the document

  /** parse_yaml_subset. */
  function ParseDocument(text: string): Option<Node> {
    var lines := SkipBlank(Hunks.SplitLines(text));
    if lines == [] then Some(Mapping([]))
    else match ParseNode(lines, Indent(lines[0])) case Unparseable => None case Read(node, _) => Some(node)
  }

  ghost predicate CleanLines(lines: seq<string>) {
    (forall k :: 0 <= k < |lines| ==> Hunks.Clean(lines[k])) && (lines != [] ==> lines[|lines| - 1] != "")
  }

  lemma CleanText(prefix: nat, s: string)
    requires forall k :: 0 <= k < |s| ==> !Hunks.IsBreak(s[k])
    ensures Hunks.Clean(Spaces(prefix) + s)
  {
  }

  lemma NoBreaks(key: string, text: string)
    requires IsKey(key) && IsWord(text)
    ensures forall k :: 0 <= k < |EntryLine(key, text)| ==> !Hunks.IsBreak(EntryLine(key, text)[k])
    ensures forall k :: 0 <= k < |text| ==> !Hunks.IsBreak(text[k])
  {
    forall k | 0 <= k < |key| ensures !Hunks.IsBreak(key[k]) {
      KeyCharIsPlain(key[k]);
    }
  }

  lemma {:induction false} PrintIsClean(node: Node, indent: nat)
    requires Printable(node) && !node.Text?
    ensures CleanLines(Print(node, indent))
    decreases node, 0
  {
    if node.Mapping? {
      EntriesAreClean(node.entries, indent);
    } else {
      ItemsAreClean(node.items, indent);
    }
  }

  lemma {:induction false} EntriesAreClean(entries: seq<Entry>, indent: nat)
    requires PrintableEntries(entries)
    ensures CleanLines(PrintEntries(entries, indent))
    decreases entries, 0
  {
    hide Print, PrintEntry, IsKey, Printable, CleanLines;
    if entries == [] {
      NothingIsClean();
    } else {
      EntryIsClean(entries[0], indent);
      EntriesAreClean(entries[1..], indent);
      BothAreClean(PrintEntry(entries[0], indent), PrintEntries(entries[1..], indent));
    }
  }

  lemma BothAreClean(a: seq<string>, b: seq<string>)
    requires CleanLines(a) && CleanLines(b)
    ensures CleanLines(a + b)
  {
    hide Hunks.Clean;
  }

  lemma {:induction false} EntryIsClean(e: Entry, indent: nat)
    requires IsKey(e.key) && Printable(e.value)
    ensures CleanLines(PrintEntry(e, indent))
    decreases e, 0
  {
    hide Print, EntryLine, IsKey, IsWord, Hunks.Clean, CleanLines, OnOneLine, Shown, IsBlockText;
    var first := Spaces(indent) + EntryLine(e.key, WordOf(e.value));
    EntryHead(e, indent);
    WordIsPrintable(e.value);
    NoBreaks(e.key, WordOf(e.value));
    CleanText(indent, EntryLine(e.key, WordOf(e.value)));
    EntryLineIsSomething(e.key, WordOf(e.value));
    NothingIsClean();
    if !e.value.Text? {
      PrintIsClean(e.value, indent + 2);
      ConsIsClean(first, Print(e.value, indent + 2));
    } else if OnOneLine(e.value.text) {
      ConsIsClean(first, []);
      assert PrintEntry(e, indent) == [first] == [first] + [];
    } else {
      BlockIsClean(e.value.text, indent + 2);
      ConsIsClean(first, Indented(Hunks.SplitLines(e.value.text), indent + 2));
    }
  }

  lemma EntryLineIsSomething(key: string, text: string)
    requires IsKey(key)
    ensures EntryLine(key, text) != ""
  {
  }

  lemma BlockIsClean(text: string, indent: nat)
    requires IsBlockText(text)
    ensures CleanLines(Indented(Hunks.SplitLines(text), indent))
  {
    hide Strip, Hunks.SplitLines, Hunks.Join, Indented;
    var lines := Hunks.SplitLines(text);
    forall k | 0 <= k < |lines| ensures Hunks.Clean(Indented(lines, indent)[k]) {
      CleanText(indent, lines[k]);
    }
    assert Indented(lines, indent)[|lines| - 1] == Spaces(indent) + lines[|lines| - 1];
  }

  lemma {:induction false} ItemsAreClean(items: seq<Node>, indent: nat)
    requires PrintableItems(items)
    ensures CleanLines(PrintItems(items, indent))
    decreases items, 0
  {
    if items != [] {
      ItemIsClean(items[0], indent);
      ItemsAreClean(items[1..], indent);
      hide PrintItem;
    }
  }

  lemma DashLineIsClean(rest: string, indent: nat)
    requires forall k :: 0 <= k < |rest| ==> !Hunks.IsBreak(rest[k])
    ensures Hunks.Clean(Spaces(indent) + DashLine(rest)) && Spaces(indent) + DashLine(rest) != ""
  {
    CleanText(indent, DashLine(rest));
  }

  lemma ConsIsClean(line: string, more: seq<string>)
    requires Hunks.Clean(line) && line != "" && CleanLines(more)
    ensures CleanLines([line] + more)
  {
  }

  lemma {:induction false} ItemIsClean(item: Node, indent: nat)
    requires Printable(item) && FitsItem(item)
    ensures CleanLines(PrintItem(item, indent))
    decreases item, 2
  {
    hide Print, EntryLine, Dashed, DashLine, Hunks.Clean, CleanLines;
    match item
    case Mapping(entries) =>
      MappingIsClean(item, indent);
    case Items(_) =>
      DashLineIsClean("", indent);
      DashAlone();
      PrintIsClean(item, indent + 2);
      ConsIsClean(Spaces(indent) + "-", Print(item, indent + 2));
    case Text(text) =>
      ShownMeansText(text);
      ShownIsClean(Shown(text));
      DashLineIsClean(Shown(text), indent);
      TextIsDashLine(Shown(text));
      NothingIsClean();
      ConsIsClean(Spaces(indent) + DashLine(Shown(text)), []);
      assert PrintItem(item, indent) == [Spaces(indent) + DashLine(Shown(text))] + [];
  }

  lemma ShownIsClean(w: string)
    requires IsShown(w)
    ensures forall k :: 0 <= k < |w| ==> !Hunks.IsBreak(w[k])
  {
  }

  lemma DashAlone()
    ensures DashLine("") == "-"
  {
  }

  lemma TextIsDashLine(text: string)
    ensures DashLine(text) == if text == "" then "-" else "- " + text
  {
  }

  lemma TailIsClean(lines: seq<string>)
    requires CleanLines(lines) && lines != []
    ensures CleanLines(lines[1..])
  {
  }

  lemma NothingIsClean()
    ensures CleanLines([])
  {
  }

  lemma {:induction false} MappingIsClean(item: Node, indent: nat)
    requires Printable(item) && item.Mapping?
    ensures CleanLines(PrintItem(item, indent))
    decreases item, 1
  {
    hide Print, PrintItem, EntryLine, DashLine, IsKey, IsShown, IsWord, CleanLines, Stripped, HasContent, Indent, Strip, MatchDash, Hunks.Clean, Hunks.IsBreak;
    var first, inner := item.entries[0], Print(item, indent + 2);
    var body := EntryLine(first.key, WordOf(first.value));
    MappingItemOpens(item, indent);
    WordIsPrintable(first.value);
    NoBreaks(first.key, WordOf(first.value));
    PrintIsClean(item, indent + 2);
    DashLineIsClean(body, indent);
    TailIsClean(inner);
    ConsIsClean(Spaces(indent) + DashLine(body), inner[1..]);
  }

  /** The parser inverts canonical printing of every non-empty tree. */
  lemma PrintedDocumentIsReadBack(node: Node)
    requires Printable(node) && !node.Text?
    ensures ParseDocument(Hunks.Join(Print(node, 0))) == Some(node)
  {
    hide Print, Printable, Hunks.SplitLines, Hunks.Join, ParseNode, HasContent, Indent;
    var lines := Print(node, 0);
    PrintOpens(node, 0);
    PrintIsClean(node, 0);
    Hunks.LinesOfJoin(lines);
    ContentIsNotSkipped(lines);
    NodeBack(node, 0, []);
    assert lines + [] == lines;
  }
}
