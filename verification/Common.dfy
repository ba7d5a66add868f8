/** Small datatypes, white space and set facts shared by every model. */
module Common {

  datatype Option<+T> = None | Some(value: T)

  datatype Result<+T, +E> = Ok(value: T) | Err(error: E)

  // ------------------------------------------------------------------- text

  predicate StartsWith(s: string, pattern: string) {
    |pattern| <= |s| && s[..|pattern|] == pattern
  }

  /** Where the first line of a text ends. */
  function LineEnd(text: string): (e: nat)
    ensures e <= |text| && (e < |text| ==> text[e] == '\n') && forall k :: 0 <= k < e ==> text[k] != '\n'
  {
    if text == "" || text[0] == '\n' then 0 else 1 + LineEnd(text[1..])
  }

  lemma LineEndIs(text: string, e: nat)
    requires e < |text| && text[e] == '\n' && forall k :: 0 <= k < e ==> text[k] != '\n'
    ensures LineEnd(text) == e
  {
  }

  predicate IsDigit(c: char) { '0' <= c <= '9' }

  predicate AllDigits(s: string) { forall k :: 0 <= k < |s| ==> IsDigit(s[k]) }

  function Decimal(n: nat): (r: string)
    ensures r != "" && AllDigits(r)
  {
    (if n < 10 then "" else Decimal(n / 10)) + ['0' + (n % 10) as char]
  }

  function ValueOf(digits: string): nat
    requires AllDigits(digits)
  {
    if digits == "" then 0 else 10 * ValueOf(digits[..|digits| - 1]) + (digits[|digits| - 1] - '0') as nat
  }

  /** What is written for a number is read as that number, and has no zero in front. */
  lemma {:induction false} DecimalIsRead(n: nat)
    ensures ValueOf(Decimal(n)) == n
    ensures |Decimal(n)| > 1 ==> Decimal(n)[0] != '0'
  {
    var s := Decimal(n);
    if n >= 10 {
      DecimalIsRead(n / 10);
      assert s[..|s| - 1] == Decimal(n / 10);
      assert n / 10 < 10 ==> Decimal(n / 10)[0] == ['0' + (n / 10) as char][0];
    } else {
      assert s[..|s| - 1] == "";
    }
  }

  /** What Python's strip and isspace call white space. */
  predicate IsSpace(c: char) {
    || '\t' <= c <= '\r' || '\U{001C}' <= c <= ' ' || c == '\U{0085}' || c == '\U{00A0}' || c == '\U{1680}'
    || '\U{2000}' <= c <= '\U{200A}' || c == '\U{2028}' || c == '\U{2029}' || c == '\U{202F}' || c == '\U{205F}' || c == '\U{3000}'
  }

  /** Where the run of white space at `i` ends. */
  function SpaceRun(s: string, i: nat): (e: nat)
    requires i <= |s|
    ensures i <= e <= |s| && (e < |s| ==> !IsSpace(s[e])) && forall k :: i <= k < e ==> IsSpace(s[k])
    decreases |s| - i
  {
    if i < |s| && IsSpace(s[i]) then SpaceRun(s, i + 1) else i
  }

  function TrimEnd(s: string): string {
    if s != "" && IsSpace(s[|s| - 1]) then TrimEnd(s[..|s| - 1]) else s
  }

  /** Python's strip. */
  function Strip(s: string): string {
    TrimEnd(s[SpaceRun(s, 0)..])
  }

  /** Visible ASCII is no white space; tabs, line breaks and the space are. */
  lemma WhiteSpaceIs()
    ensures forall c :: '!' <= c <= '~' ==> !IsSpace(c)
    ensures IsSpace(' ') && IsSpace('\t') && IsSpace('\n') && IsSpace('\r') && IsSpace('\U{000B}') && IsSpace('\U{000C}')
    ensures IsSpace('\U{00A0}') && IsSpace('\U{0085}') && IsSpace('\U{2003}') && IsSpace('\U{2028}') && IsSpace('\U{3000}')
  {
  }

  /** Stripping takes the white space off both ends and nothing else. */
  lemma {:induction false} StripMeans(before: string, ink: string, after: string)
    requires (forall k :: 0 <= k < |before| ==> IsSpace(before[k])) && (forall k :: 0 <= k < |after| ==> IsSpace(after[k]))
    requires ink != "" && !IsSpace(ink[0]) && !IsSpace(ink[|ink| - 1])
    ensures Strip(before + ink + after) == ink
  {
    hide IsSpace, SpaceRun;
    var s, n := before + ink + after, |before|;
    assert s[n] == ink[0];
    assert forall k :: 0 <= k < n ==> s[k] == before[k];
    assert SpaceRun(s, 0) == n;
    assert s[n..] == ink + after;
    TrimEndMeans(ink, after);
  }

  lemma {:induction false} TrimEndMeans(ink: string, after: string)
    requires ink != "" && !IsSpace(ink[|ink| - 1]) && forall k :: 0 <= k < |after| ==> IsSpace(after[k])
    ensures TrimEnd(ink + after) == ink
  {
    hide IsSpace;
    if after == "" {
      assert ink + after == ink;
    } else {
      var front := after[..|after| - 1];
      TrimEndMeans(ink, front);
      assert (ink + after)[..|ink + after| - 1] == ink + front;
      assert (ink + after)[|ink + after| - 1] == after[|after| - 1];
    }
  }

  // ------------------------------------------------------------ finite sets

  /** A subset of a finite set is no larger. */
  lemma SubsetCardinality<T>(small: set<T>, big: set<T>)
    requires small <= big
    ensures |small| <= |big|
  {
    assert big == small + (big - small);
  }

  /** Finite sets related one to one are equally large. */
  lemma {:induction false} BijectionCardinality<A, B>(a: set<A>, b: set<B>, f: map<A, B>)
    requires f.Keys == a
    requires forall x :: x in a ==> f[x] in b
    requires forall y :: y in b ==> exists x :: x in a && f[x] == y
    requires forall x, x' :: x in a && x' in a && f[x] == f[x'] ==> x == x'
    ensures |a| == |b|
  {
    if a == {} {
      assert b == {};
    } else {
      var x :| x in a;
      var rest := map z | z in a && z != x :: f[z];
      assert rest.Keys == a - {x};
      forall y | y in b - {f[x]} ensures exists z :: z in a - {x} && rest[z] == y {
        var z :| z in a && f[z] == y;
        assert rest[z] == y;
      }
      BijectionCardinality(a - {x}, b - {f[x]}, rest);
    }
  }

  /** A subset as large as the whole is the whole. */
  lemma FullSubset<T>(small: set<T>, big: set<T>)
    requires small <= big && |small| == |big|
    ensures small == big
  {
    assert |big - small| == |big| - |small|;
    assert big == small + (big - small);
  }

  /** The members of a sequence without repetitions are as many as it is long. */
  lemma {:induction false} DistinctCount<T>(s: seq<T>)
    requires forall i, j :: 0 <= i < j < |s| ==> s[i] != s[j]
    ensures |set x | x in s| == |s|
  {
    if s != [] {
      var front, last := s[..|s| - 1], s[|s| - 1];
      DistinctCount(front);
      assert s == front + [last];
      assert (set x | x in s) == (set x | x in front) + {last};
      assert last !in front;
    }
  }
}
