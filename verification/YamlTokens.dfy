/** The lines the workflow parser tells apart (api/doug/ci_evidence.py), as grammars instead of scans. */
module YamlTokens {
  import opened Common
  import opened YamlSubset
  import opened YamlPrinting

  ghost predicate AllSpace(s: string) {
    forall k :: 0 <= k < |s| ==> IsSpace(s[k])
  }

  ghost predicate StartsInk(s: string) {
    s != "" ==> !IsSpace(s[0])
  }

  /** Letters, digits and three marks make keys, and their neighbours do not. */
  lemma LettersMakeKeys()
    ensures IsKey("abcdefghijklmnopqrstuvwxyz")
  {
  }

  lemma CapitalsMakeKeys()
    ensures IsKey("ABCDEFGHIJKLMNOPQRSTUVWXYZ")
  {
  }

  lemma DigitsAndMarksMakeKeys()
    ensures IsKey("0123456789_.-")
  {
  }

  lemma KeyNeighbours()
    ensures forall c :: c in ['@', '[', '`', '{', '/', ':', ',', '^', ' ', '#', '"', '*'] ==> !IsKeyChar(c)
  {
  }

  lemma SpaceRunIs(s: string, i: nat, e: nat)
    requires i <= e <= |s| && (e < |s| ==> !IsSpace(s[e])) && forall k :: i <= k < e ==> IsSpace(s[k])
    ensures SpaceRun(s, i) == e
  {
  }

  // ---------------------------------------------------------------- key lines

  /** `key`, any space, a colon; then nothing, or some space and the rest. */
  ghost predicate SpellsKey(s: string, line: KeyLine, gap: string, sep: string) {
    && IsKey(line.key) && AllSpace(gap) && AllSpace(sep)
    && match line.rest
       case None => sep == "" && s == line.key + gap + ":"
       case Some(rest) => sep != "" && StartsInk(rest) && s == line.key + gap + ":" + sep + rest
  }

  /** The scan accepts exactly that grammar, and reads the one key and rest that spell the line. */
  lemma KeyLineGrammar(s: string, line: KeyLine)
    ensures MatchKey(s) == Some(line) <==> exists gap, sep :: SpellsKey(s, line, gap, sep)
  {
    if MatchKey(s) == Some(line) {
      var gap, sep := KeyLineSpelt(s, line);
    }
    forall gap, sep | SpellsKey(s, line, gap, sep) ensures MatchKey(s) == Some(line) {
      SpeltIsRead(s, line, gap, sep);
    }
  }

  lemma KeyLineSpelt(s: string, line: KeyLine) returns (gap: string, sep: string)
    requires MatchKey(s) == Some(line)
    ensures SpellsKey(s, line, gap, sep)
  {
    hide KeyRun, SpaceRun;
    var k := KeyRun(s, 0);
    var colon := SpaceRun(s, k);
    gap := s[k..colon];
    var from := if line.rest.None? then |s| else SpaceRun(s, colon + 1);
    sep := s[colon + 1..from];
    Spliced(s, k, colon, from);
  }

  lemma Spliced(s: string, k: nat, colon: nat, from: nat)
    requires k <= colon < from <= |s|
    ensures s == s[..k] + s[k..colon] + [s[colon]] + s[colon + 1..from] + s[from..]
    ensures from == |s| == colon + 1 ==> s == s[..k] + s[k..colon] + [s[colon]]
  {
  }

  lemma SpeltIsRead(s: string, line: KeyLine, gap: string, sep: string)
    requires SpellsKey(s, line, gap, sep)
    ensures MatchKey(s) == Some(line)
  {
    hide KeyRun, SpaceRun;
    var k := |line.key|;
    var colon := k + |gap|;
    assert s[..k] == line.key;
    assert s[colon] == ':' && !IsSpace(':') && !IsKeyChar(':');
    assert forall i :: 0 <= i < k ==> s[i] == line.key[i];
    assert forall i :: k <= i < colon ==> s[i] == gap[i - k];
    SpaceIsNoKeyChar(s[k]);
    KeyRunIs(s, 0, k);
    SpaceRunIs(s, k, colon);
    if line.rest.Some? {
      var from := colon + 1 + |sep|;
      assert forall i :: colon < i < from ==> s[i] == sep[i - colon - 1];
      assert s[from..] == line.rest.value;
      assert from < |s| ==> s[from] == line.rest.value[0];
      SpaceRunIs(s, colon + 1, from);
    }
  }

  lemma SpaceIsNoKeyChar(c: char)
    ensures IsSpace(c) ==> !IsKeyChar(c)
  {
  }

  // --------------------------------------------------------------- dash lines

  ghost predicate SpellsDash(s: string, rest: Option<string>, sep: string) {
    && AllSpace(sep)
    && match rest
       case None => sep == "" && s == "-"
       case Some(text) => sep != "" && StartsInk(text) && s == "-" + sep + text
  }

  lemma DashLineGrammar(s: string, rest: Option<string>)
    ensures MatchDash(s) == Some(rest) <==> exists sep :: SpellsDash(s, rest, sep)
  {
    hide SpaceRun;
    if MatchDash(s) == Some(rest) {
      var from := if |s| == 1 then 1 else SpaceRun(s, 1);
      assert s == "-" + s[1..from] + s[from..];
      assert SpellsDash(s, rest, s[1..from]);
    }
    forall sep | SpellsDash(s, rest, sep) ensures MatchDash(s) == Some(rest) {
      if rest.Some? {
        var from := 1 + |sep|;
        assert forall i :: 1 <= i < from ==> s[i] == sep[i - 1];
        assert s[from..] == rest.value;
        assert from < |s| ==> s[from] == rest.value[0];
        SpaceRunIs(s, 1, from);
      }
    }
  }

  // ----------------------------------------------------------------- comments

  ghost predicate StartsComment(s: string, i: nat)
    requires i < |s|
  {
    s[i] == '#' && (i == 0 || s[i - 1] == ' ' || s[i - 1] == '\t')
  }

  /** Outside quotes a comment starts at the first number sign with nothing or a blank before it, and only there. */
  lemma {:induction false} CommentGrammar(s: string, i: nat, e: nat)
    requires i <= e <= |s| && forall k :: i <= k < e ==> s[k] != '"' && s[k] != '\'' && !StartsComment(s, k)
    requires e < |s| ==> StartsComment(s, e)
    ensures CommentAt(s, i, None) == e
    decreases e - i
  {
    if i < e {
      CommentGrammar(s, i + 1, e);
    }
  }

  lemma {:induction false} CommentLiesAhead(s: string, i: nat, quote: Option<char>)
    requires i <= |s|
    ensures CommentAt(s, i, quote) >= i
    decreases |s| - i
  {
    if i < |s| {
      var c := s[i];
      var next := if quote.Some? then (if c == quote.value then None else quote) else if c == '"' || c == '\'' then Some(c) else None;
      CommentLiesAhead(s, i + 1, next);
    }
  }

  /** A value that is nothing but a comment is no value. */
  lemma CommentAloneIsEmpty(text: string)
    ensures IsEmptyValue(Some("#" + text))
  {
    var s := "#" + text;
    CommentGrammar(s, 0, 0);
    assert s[..0] == "";
    StripKeeps("");
  }

  // ------------------------------------------------------------------ scalars

  /** Anchors, aliases and tags are not read; a quote counts only when the same one closes the value. */
  lemma ScalarGrammar(value: string)
    ensures var v := Uncomment(value);
            && (Scalar(value) == None <==> v != "" && v[0] in {'&', '*', '!'})
            && (forall text: string, q: char :: q in {'"', '\''} && v == [q] + text + [q] ==> Scalar(value) == Some(text))
            && (v != "" && v[0] !in {'&', '*', '!', '"', '\''} ==> Scalar(value) == Some(v))
            && (v != "" && v[|v| - 1] != v[0] && v[0] in {'"', '\''} ==> Scalar(value) == Some(v))
            && (v == "" ==> Scalar(value) == Some(""))
            && (|v| == 1 && v[0] in {'"', '\''} ==> Scalar(value) == Some(v))
  {
    hide Uncomment;
    var v := Uncomment(value);
    forall text: string, q: char | q in {'"', '\''} && v == [q] + text + [q] ensures Scalar(value) == Some(text) {
      assert v[1..|v| - 1] == text;
    }
  }

  /** Both block marks, whatever follows them, hand the value to the block below. */
  lemma BlockMarks(key: string, mark: char, tail: string, lines: seq<string>, indent: nat)
    requires mark == '|' || mark == '>'
    ensures ParseValue(KeyLine(key, Some([mark] + tail)), lines, indent)
         == Read(Text(BlockScalar(lines, indent).0), BlockScalar(lines, indent).1)
  {
    hide BlockScalar, Scalar, ParseNested;
    MarkIsSomething([mark] + tail);
  }

  lemma MarkIsSomething(s: string)
    requires s != "" && s[0] in {'|', '>'}
    ensures Uncomment(s) != ""
  {
    var e := CommentAt(s, 0, None);
    assert !IsSpace(s[0]);
    CommentLiesAhead(s, 1, None);
    assert s[..e][0] == s[0];
    SomethingLeft(s[..e], 0);
  }

  // ------------------------------------------------------------ repeated keys

  /** A repeated key keeps its place and takes the later value; every other entry stays. */
  lemma {:induction false} RepeatedKeyIsReplaced(entries: seq<Entry>, p: nat, key: string, value: Node)
    requires p < |entries| && entries[p].key == key && forall j :: 0 <= j < p ==> entries[j].key != key
    ensures Put(entries, key, value) == entries[p := Entry(key, value)]
  {
    if p == 0 {
      assert [Entry(key, value)] + entries[1..] == entries[0 := Entry(key, value)];
    } else {
      var rest := entries[1..];
      RepeatedKeyIsReplaced(rest, p - 1, key, value);
      assert [entries[0]] + rest[p - 1 := Entry(key, value)] == entries[p := Entry(key, value)];
    }
  }
}
