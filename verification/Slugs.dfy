/** One spelling for one rule name: slugify (api/doug/patterns.py). */
module Slugs {
  import opened Common

  predicate IsSlugChar(c: char) { 'a' <= c <= 'z' || '0' <= c <= '9' }

  function Lower(c: char): char {
    if 'A' <= c <= 'Z' then c - 'A' + 'a' else c
  }

  /** Letters and digits in lower case, every other run one dash. */
  function Folded(s: string): string {
    if s == "" then ""
    else
      var front, c := Folded(s[..|s| - 1]), Lower(s[|s| - 1]);
      if IsSlugChar(c) then front + [c] else if front != "" && front[|front| - 1] != '-' then front + "-" else front
  }

  function Slug(raw: string): string {
    var folded := Folded(raw);
    var trimmed := if folded != "" && folded[|folded| - 1] == '-' then folded[..|folded| - 1] else folded;
    if trimmed != "" then trimmed else if Strip(raw) != "" then Strip(raw) else raw
  }

  /** Case is all that folds: the k-th capital becomes the k-th small letter, and nothing else changes. */
  lemma LowerIsCase(k: nat)
    ensures k < 26 ==> Lower(('A' as int + k) as char) == ('a' as int + k) as char
    ensures forall c :: c < 'A' || 'Z' < c ==> Lower(c) == c
  {
  }

  // --------------------------------------------------------------- spellings

  /** A letter or digit, in either case. */
  predicate IsWordChar(c: char) {
    'a' <= c <= 'z' || 'A' <= c <= 'Z' || '0' <= c <= '9'
  }

  ghost predicate IsWord(w: string) {
    w != "" && forall k :: 0 <= k < |w| ==> IsWordChar(w[k])
  }

  ghost predicate IsSeparator(s: string) {
    forall k :: 0 <= k < |s| ==> !IsWordChar(s[k])
  }

  /** The words written out, the k-th followed by the k-th separator. */
  function Spelt(words: seq<string>, separators: seq<string>): string
    requires |separators| == |words|
  {
    if words == [] then ""
    else Spelt(words[..|words| - 1], separators[..|words| - 1]) + words[|words| - 1] + separators[|words| - 1]
  }

  /** Words framed and separated by anything but letters and digits. */
  ghost predicate IsSpelling(lead: string, words: seq<string>, separators: seq<string>) {
    && IsSeparator(lead) && |separators| == |words| > 0
    && (forall k :: 0 <= k < |words| ==> IsWord(words[k]) && IsSeparator(separators[k]))
    && (forall k :: 0 <= k < |words| - 1 ==> separators[k] != "")
  }

  function Kebab(words: seq<string>): string {
    if words == [] then ""
    else if |words| == 1 then Lowered(words[0])
    else Kebab(words[..|words| - 1]) + "-" + Lowered(words[|words| - 1])
  }

  function Lowered(w: string): string {
    if w == "" then "" else Lowered(w[..|w| - 1]) + [Lower(w[|w| - 1])]
  }

  lemma {:induction false} FoldedWord(s: string, w: string)
    requires forall k :: 0 <= k < |w| ==> IsWordChar(w[k])
    ensures Folded(s + w) == Folded(s) + Lowered(w)
  {
    if w == "" {
      assert s + w == s;
    } else {
      var front := w[..|w| - 1];
      FoldedWord(s, front);
      assert (s + w)[..|s + w| - 1] == s + front;
      assert IsSlugChar(Lower(w[|w| - 1]));
    }
  }

  /** A separator adds one dash, or none at the start or after another. */
  lemma {:induction false} FoldedSeparator(s: string, sep: string)
    requires IsSeparator(sep)
    ensures var folded := Folded(s);
            Folded(s + sep) == if sep == "" || folded == "" || folded[|folded| - 1] == '-' then folded else folded + "-"
  {
    if sep == "" {
      assert s + sep == s;
    } else {
      var front := sep[..|sep| - 1];
      FoldedSeparator(s, front);
      assert (s + sep)[..|s + sep| - 1] == s + front;
      assert !IsSlugChar(Lower(sep[|sep| - 1]));
    }
  }

  lemma {:induction false} LoweredIsPlain(w: string)
    requires IsWord(w)
    ensures |Lowered(w)| == |w| && forall k :: 0 <= k < |w| ==> IsSlugChar(Lowered(w)[k]) && Lowered(w)[k] != '-'
  {
    if |w| > 1 {
      LoweredIsPlain(w[..|w| - 1]);
    }
    if |w| == 1 {
      assert w[..0] == "";
    }
  }

  /** Words with any separators between them, and after them, fold to the kebab and at most one dash. */
  lemma {:induction false} FoldedSpelling(lead: string, words: seq<string>, separators: seq<string>)
    requires IsSpelling(lead, words, separators)
    ensures var kebab := Kebab(words);
            && kebab != "" && kebab[|kebab| - 1] != '-'
            && Folded(lead + Spelt(words, separators)) == if separators[|words| - 1] == "" then kebab else kebab + "-"
  {
    hide Folded, Spelt, Lowered, Kebab;
    var n := |words| - 1;
    var before := lead + Spelt(words[..n], separators[..n]);
    SpeltOneMore(lead, words, separators);
    KebabOneMore(words);
    LoweredIsPlain(words[n]);
    if n == 0 {
      FoldedSeparator("", lead);
      NothingFolds(lead);
    } else {
      SpellingShortens(lead, words, separators);
      hide IsSpelling;
      FoldedSpelling(lead, words[..n], separators[..n]);
    }
    FoldedWord(before, words[n]);
    FoldedSeparator(before + words[n], separators[n]);
  }

  lemma {:induction false} SpeltOneMore(lead: string, words: seq<string>, separators: seq<string>)
    requires |separators| == |words| > 0
    ensures var n := |words| - 1;
            lead + Spelt(words, separators) == (lead + Spelt(words[..n], separators[..n])) + words[n] + separators[n]
    ensures |words| == 1 ==> lead + Spelt(words[..0], separators[..0]) == lead
  {
    var n := |words| - 1;
    assert lead + (Spelt(words[..n], separators[..n]) + words[n] + separators[n])
        == (lead + Spelt(words[..n], separators[..n])) + words[n] + separators[n];
  }

  lemma {:induction false} KebabOneMore(words: seq<string>)
    requires words != []
    ensures var n := |words| - 1;
            Kebab(words) == if n == 0 then Lowered(words[0]) else Kebab(words[..n]) + "-" + Lowered(words[n])
  {
    hide Lowered;
  }

  lemma NothingFolds(lead: string)
    ensures Folded("") == "" && "" + lead == lead
  {
  }

  lemma SpellingShortens(lead: string, words: seq<string>, separators: seq<string>)
    requires IsSpelling(lead, words, separators) && |words| > 1
    ensures IsSpelling(lead, words[..|words| - 1], separators[..|words| - 1]) && separators[|words| - 2] != ""
  {
    hide IsWord, IsSeparator;
  }

  /** However its words are cased, separated and framed, one name has one slug: its words in kebab case. */
  lemma EverySpellingHasOneSlug(lead: string, words: seq<string>, separators: seq<string>)
    requires IsSpelling(lead, words, separators)
    ensures Slug(lead + Spelt(words, separators)) == Kebab(words)
  {
    hide Folded, Spelt, Kebab;
    FoldedSpelling(lead, words, separators);
    var kebab := Kebab(words);
    assert (kebab + "-")[..|kebab|] == kebab;
  }

  /** A name without letters or digits keeps its spelling, but for the white space around it. */
  lemma WordlessKeepsItsSpelling(raw: string)
    requires IsSeparator(raw)
    ensures Slug(raw) == if Strip(raw) != "" then Strip(raw) else raw
  {
    hide Strip;
    FoldedSeparator("", raw);
    assert "" + raw == raw;
  }

  ghost predicate AreWords(words: seq<string>) {
    forall k :: 0 <= k < |words| ==> IsWord(words[k])
  }

  lemma WordsOfSpelling(lead: string, words: seq<string>, separators: seq<string>)
    requires IsSpelling(lead, words, separators)
    ensures AreWords(words)
  {
    hide IsWord, IsSeparator;
  }

  ghost predicate NoDash(s: string) {
    forall k :: 0 <= k < |s| ==> s[k] != '-'
  }

  lemma {:induction false} LastIsPlain(words: seq<string>)
    requires AreWords(words) && words != []
    ensures NoDash(Lowered(words[|words| - 1])) && AreWords(words[..|words| - 1])
  {
    LoweredIsPlain(words[|words| - 1]);
    hide Lowered, IsWord;
  }

  ghost predicate SameWords(a: seq<string>, b: seq<string>) {
    |a| == |b| && forall k :: 0 <= k < |a| ==> Lowered(a[k]) == Lowered(b[k])
  }

  /** Only the spelling folds: different words stay different names. */
  lemma {:induction false} KebabTellsWords(a: seq<string>, b: seq<string>)
    requires a != [] && b != [] && Kebab(a) == Kebab(b) && AreWords(a) && AreWords(b)
    ensures SameWords(a, b)
    decreases |a|
  {
    hide *;
    var m, n := |a| - 1, |b| - 1;
    LastIsPlain(a);
    LastIsPlain(b);
    KebabEnds(a);
    KebabEnds(b);
    LastWordsAgree(Kebab(a), Lowered(a[m]), Lowered(b[n]), |a| == 1, |b| == 1);
    if m > 0 {
      KebabTellsWords(a[..m], b[..n]);
    }
    OneWordMore(a, b);
  }

  lemma OneWordMore(a: seq<string>, b: seq<string>)
    requires a != [] && b != [] && Lowered(a[|a| - 1]) == Lowered(b[|b| - 1])
    requires if |a| == 1 then |b| == 1 else SameWords(a[..|a| - 1], b[..|b| - 1])
    ensures SameWords(a, b)
  {
    hide Lowered;
    var m, n := |a| - 1, |b| - 1;
    if m > 0 {
      forall k | 0 <= k < m ensures Lowered(a[k]) == Lowered(b[k]) {
        assert a[..m][k] == a[k] && b[..n][k] == b[k];
      }
    }
  }

  lemma {:induction false} KebabEnds(words: seq<string>)
    requires words != []
    ensures var kebab, last := Kebab(words), Lowered(words[|words| - 1]);
            && |last| <= |kebab| && kebab[|kebab| - |last|..] == last
            && (|words| == 1 ==> kebab == last)
            && (|words| > 1 ==> |kebab| > |last| && kebab[|kebab| - |last| - 1] == '-'
                                && Kebab(words[..|words| - 1]) == kebab[..|kebab| - |last| - 1])
  {
    hide Lowered;
    var last := Lowered(words[|words| - 1]);
    if |words| > 1 {
      var front := Kebab(words[..|words| - 1]);
      assert Kebab(words) == front + ("-" + last);
    }
  }

  /** A longer ending takes the dash in. */
  lemma DashInside(kebab: string, long: string, short: nat)
    requires |long| <= |kebab| && kebab[|kebab| - |long|..] == long
    ensures short < |long| ==> kebab[|kebab| - short - 1] == long[|long| - short - 1]
  {
  }

  /** The last word runs back to the last dash, or to the start. */
  lemma {:induction false} LastWordsAgree(kebab: string, a: string, b: string, aIsAll: bool, bIsAll: bool)
    requires |a| <= |kebab| && kebab[|kebab| - |a|..] == a && |b| <= |kebab| && kebab[|kebab| - |b|..] == b
    requires NoDash(a) && NoDash(b)
    requires if aIsAll then kebab == a else |kebab| > |a| && kebab[|kebab| - |a| - 1] == '-'
    requires if bIsAll then kebab == b else |kebab| > |b| && kebab[|kebab| - |b| - 1] == '-'
    ensures a == b && aIsAll == bIsAll
  {
    DashInside(kebab, b, |a|);
    DashInside(kebab, a, |b|);
  }

  lemma {:induction false} SameWordsSameKebab(a: seq<string>, b: seq<string>)
    requires SameWords(a, b)
    ensures Kebab(a) == Kebab(b)
  {
    if |a| > 1 {
      SameWordsSameKebab(a[..|a| - 1], b[..|b| - 1]);
    }
  }
}
