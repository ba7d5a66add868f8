/**
  What a read of a truncated diff saw, and the per-file hunk index stored with
  it (api/doug/reader.py): computed from the text and the character budget alone.
 */
module Coverage {
  import opened Common
  import opened Hunks
  import opened DiffText

  datatype Coverage = Coverage(
    diffChars: nat,
    sentChars: nat,
    filesSent: nat,
    filesUnseen: seq<string>,
    fileCut: Option<string>,
    filesDropped: seq<string>,
    hunks: Option<map<string, seq<Digest>>>)

  function SentChars(diff: string, budget: nat): nat {
    if budget < |diff| then budget else |diff|
  }

  // ---------------------------------------------------------------- geometry

  ghost predicate Of(diff: string, headers: seq<Header>) {
    InOrder(headers, 0, |diff|)
  }

  /** _chunk_content_end. */
  function ContentEnd(headers: seq<Header>, pos: nat, diffChars: nat): int
    requires pos < |headers|
  {
    if pos + 1 < |headers| then headers[pos + 1].start - |SEPARATOR| else diffChars
  }

  /** _chunk_patch: the patch of one file if all of it was sent. */
  function ChunkPatch(diff: string, headers: seq<Header>, pos: nat, sentChars: nat): Option<string>
    requires Of(diff, headers) && pos < |headers|
  {
    var end := ContentEnd(headers, pos, |diff|);
    if end > sentChars then None
    else if headers[pos].end + 1 <= end then Some(diff[headers[pos].end + 1..end])
    else Some("")
  }

  /** The patches that arrived whole among the first `n` files, by name; a repeated name keeps its last. */
  function Arrived(diff: string, headers: seq<Header>, sentChars: nat, n: nat): map<string, string>
    requires Of(diff, headers) && n <= |headers|
  {
    if n == 0 then map[]
    else
      var front := Arrived(diff, headers, sentChars, n - 1);
      match ChunkPatch(diff, headers, n - 1, sentChars)
      case None => front
      case Some(patch) => front[headers[n - 1].name := patch]
  }

  function IndexOf(patches: map<string, string>): (r: map<string, seq<Digest>>)
    ensures r.Keys == patches.Keys && forall name :: name in r ==> r[name] == Hashes(patches[name])
  {
    map name | name in patches :: Hashes(patches[name])
  }

  /** How many headers were sent whole. */
  function SeenCount(headers: seq<Header>, sentChars: nat): (n: nat)
    ensures n <= |headers|
  {
    if headers == [] then 0
    else
      var front := SeenCount(headers[..|headers| - 1], sentChars);
      if headers[|headers| - 1].end <= sentChars then front + 1 else front
  }

  lemma {:induction false} SeenIsPrefix(diff: string, headers: seq<Header>, sentChars: nat)
    requires Of(diff, headers)
    ensures forall k :: 0 <= k < |headers| ==> (k < SeenCount(headers, sentChars) <==> headers[k].end <= sentChars)
  {
    if headers != [] {
      SeenIsPrefix(diff, headers[..|headers| - 1], sentChars);
    }
  }

  function Names(headers: seq<Header>): (r: seq<string>)
    ensures |r| == |headers| && forall k :: 0 <= k < |r| ==> r[k] == headers[k].name
  {
    if headers == [] then [] else Names(headers[..|headers| - 1]) + [headers[|headers| - 1].name]
  }

  /** The names not seen, in order. */
  function Without(names: seq<string>, seen: seq<string>): (r: seq<string>)
    ensures |r| <= |names|
  {
    if names == [] then []
    else
      var front, last := Without(names[..|names| - 1], seen), names[|names| - 1];
      if last in seen then front else front + [last]
  }

  /** The file the budget landed inside. */
  function Cut(diff: string, headers: seq<Header>, sentChars: nat): Option<string> {
    var seen := SeenCount(headers, sentChars);
    if sentChars < |diff| && seen > 0 && (if seen < |headers| then headers[seen].start else |diff|) - sentChars > |SEPARATOR|
    then Some(headers[seen - 1].name)
    else None
  }

  /** Where the file after the last one seen begins. */
  function NextStart(headers: seq<Header>, seen: nat, diffChars: nat): nat {
    if seen < |headers| then headers[seen].start else diffChars
  }

  /** The budget is all that decides: what was sent, which headers, which files were cut off and which arrived whole. */
  ghost predicate FollowsBudget(diff: string, headers: seq<Header>, c: Coverage, budget: nat) {
    && c.sentChars <= budget && c.sentChars <= |diff| && (c.sentChars < |diff| ==> c.sentChars == budget)
    && c.filesSent <= |headers| && (forall k :: 0 <= k < |headers| ==> (k < c.filesSent <==> headers[k].end <= budget))
    && UnseenLieBeyond(headers, c.filesUnseen, budget)
    && c.hunks.Some? && IndexedLieWithin(diff, headers, c.hunks.value.Keys, budget)
    && c.fileCut == (if budget < |diff| && c.filesSent > 0 && NextStart(headers, c.filesSent, |diff|) > budget + |SEPARATOR|
                     then Some(headers[c.filesSent - 1].name) else None)
  }

  /** Unseen are the names none of whose headers end within the budget. */
  ghost predicate UnseenLieBeyond(headers: seq<Header>, unseen: seq<string>, budget: nat) {
    && (forall name :: name in unseen ==> exists k :: 0 <= k < |headers| && headers[k].name == name)
    && (forall k :: 0 <= k < |headers| ==>
          (headers[k].name in unseen <==> forall j :: 0 <= j < |headers| && headers[j].name == headers[k].name ==> headers[j].end > budget))
  }

  /** Indexed are the names with a chunk that ends within the budget. */
  ghost predicate IndexedLieWithin(diff: string, headers: seq<Header>, indexed: set<string>, budget: nat) {
    forall name :: name in indexed <==>
      exists k :: 0 <= k < |headers| && headers[k].name == name && ContentEnd(headers, k, |diff|) <= budget
  }

  method Observe(diff: string, filesDropped: seq<string>, budget: nat) returns (c: Coverage)
    ensures var headers, sent := Headers(diff), SentChars(diff, budget);
            && Of(diff, headers)
            && c.diffChars == |diff| && c.sentChars == sent && c.filesDropped == filesDropped
            && c.filesSent == SeenCount(headers, sent)
            && c.filesUnseen == Without(Names(headers), Names(headers[..c.filesSent]))
            && c.fileCut == Cut(diff, headers, sent)
            && c.hunks == Some(IndexOf(Arrived(diff, headers, sent, |headers|)))
    ensures FollowsBudget(diff, Headers(diff), c, budget)
  {
    hide Headers, HeadersFrom, Hashes, FollowsBudget, Cut, SentChars;
    var headers, sent := Headers(diff), SentChars(diff, budget);
    HeadersAreOf(diff);
    BudgetIsFollowed(diff, headers, filesDropped, budget);
    var names := SeenFiles(diff, headers, sent);
    var unseen := Unseen(Names(headers), names);
    var index := IndexHunks(diff, headers, sent);
    return Coverage(|diff|, sent, |names|, unseen, Cut(diff, headers, sent), filesDropped, Some(index));
  }

  lemma BudgetIsFollowed(diff: string, headers: seq<Header>, filesDropped: seq<string>, budget: nat)
    requires Of(diff, headers)
    ensures var sent := SentChars(diff, budget);
            var seen := SeenCount(headers, sent);
            FollowsBudget(diff, headers,
                          Coverage(|diff|, sent, seen, Without(Names(headers), Names(headers[..seen])), Cut(diff, headers, sent),
                                   filesDropped, Some(IndexOf(Arrived(diff, headers, sent, |headers|)))), budget)
  {
    hide Arrived, Without, Names, SeenCount, UnseenLieBeyond, IndexedLieWithin;
    var sent := SentChars(diff, budget);
    SeenIsPrefix(diff, headers, sent);
    UnseenAreBeyond(diff, headers, sent, budget);
    ArrivedAreWithin(diff, headers, sent, |headers|);
    LastEndsInside(diff, headers);
    IndexedAtBudget(diff, headers, Arrived(diff, headers, sent, |headers|).Keys, sent, budget);
  }

  lemma LastEndsInside(diff: string, headers: seq<Header>)
    requires Of(diff, headers)
    ensures forall k :: 0 <= k < |headers| ==> headers[k].end <= |diff| && ContentEnd(headers, k, |diff|) <= |diff|
  {
  }

  lemma IndexedAtBudget(diff: string, headers: seq<Header>, indexed: set<string>, sent: nat, budget: nat)
    requires Of(diff, headers) && sent == SentChars(diff, budget) && IndexedLieWithin(diff, headers, indexed, sent)
    ensures IndexedLieWithin(diff, headers, indexed, budget)
  {
    LastEndsInside(diff, headers);
    hide Of, ContentEnd;
  }

  lemma {:induction false} WithoutHolds(names: seq<string>, seen: seq<string>, name: string)
    ensures name in Without(names, seen) <==> name in names && name !in seen
  {
    if names != [] {
      WithoutHolds(names[..|names| - 1], seen, name);
      assert names == names[..|names| - 1] + [names[|names| - 1]];
    }
  }

  lemma {:induction false} UnseenAreBeyond(diff: string, headers: seq<Header>, sent: nat, budget: nat)
    requires Of(diff, headers) && sent == SentChars(diff, budget)
    ensures UnseenLieBeyond(headers, Without(Names(headers), Names(headers[..SeenCount(headers, sent)])), budget)
  {
    hide Without, SeenCount, Of, Names;
    var n := SeenCount(headers, sent);
    var unseen := Without(Names(headers), Names(headers[..n]));
    SeenIsPrefix(diff, headers, sent);
    LastEndsInside(diff, headers);
    hide ContentEnd;
    forall name | name in unseen ensures exists k :: 0 <= k < |headers| && headers[k].name == name {
      UnseenName(headers, n, name, sent);
    }
    forall k | 0 <= k < |headers|
      ensures headers[k].name in unseen <==> forall j :: 0 <= j < |headers| && headers[j].name == headers[k].name ==> headers[j].end > budget
    {
      UnseenName(headers, n, headers[k].name, sent);
      EndsBeyond(diff, headers, headers[k].name, sent, budget);
    }
  }

  /** No header ends past the text, so ending past the budget and past what was sent are one. */
  lemma EndsBeyond(diff: string, headers: seq<Header>, name: string, sent: nat, budget: nat)
    requires sent == SentChars(diff, budget) && forall k :: 0 <= k < |headers| ==> headers[k].end <= |diff|
    ensures (exists j :: 0 <= j < |headers| && headers[j].name == name && headers[j].end <= sent)
            <==> !forall j :: 0 <= j < |headers| && headers[j].name == name ==> headers[j].end > budget
  {
  }

  lemma UnseenName(headers: seq<Header>, n: nat, name: string, sent: nat)
    requires n <= |headers| && forall k :: 0 <= k < |headers| ==> (k < n <==> headers[k].end <= sent)
    ensures name in Without(Names(headers), Names(headers[..n])) <==>
              && (exists k :: 0 <= k < |headers| && headers[k].name == name)
              && !(exists j :: 0 <= j < |headers| && headers[j].name == name && headers[j].end <= sent)
  {
    hide Without, Names;
    WithoutHolds(Names(headers), Names(headers[..n]), name);
    SeenNamesEndWithin(headers, n, name, sent);
    var names := Names(headers);
    if exists k :: 0 <= k < |headers| && headers[k].name == name {
      var k :| 0 <= k < |headers| && headers[k].name == name;
      assert names[k] == name;
    }
    if name in names {
      var k :| 0 <= k < |names| && names[k] == name;
      assert headers[k].name == name;
    }
  }

  lemma SeenNamesEndWithin(headers: seq<Header>, n: nat, name: string, sent: nat)
    requires n <= |headers| && forall k :: 0 <= k < |headers| ==> (k < n <==> headers[k].end <= sent)
    ensures name in Names(headers[..n]) <==> exists j :: 0 <= j < |headers| && headers[j].name == name && headers[j].end <= sent
  {
    hide Names;
    var seen := Names(headers[..n]);
    if name in seen {
      var j :| 0 <= j < |seen| && seen[j] == name;
      assert headers[j].name == name;
    }
    if exists j :: 0 <= j < |headers| && headers[j].name == name && headers[j].end <= sent {
      var j :| 0 <= j < |headers| && headers[j].name == name && headers[j].end <= sent;
      assert seen[j] == name;
    }
  }

  lemma {:induction false} ArrivedAreWithin(diff: string, headers: seq<Header>, sent: nat, n: nat)
    requires Of(diff, headers) && n <= |headers|
    ensures forall name :: name in Arrived(diff, headers, sent, n) <==>
              exists k :: 0 <= k < n && headers[k].name == name && ContentEnd(headers, k, |diff|) <= sent
    ensures n == |headers| ==> IndexedLieWithin(diff, headers, Arrived(diff, headers, sent, n).Keys, sent)
  {
    hide Of, ContentEnd;
    if n > 0 {
      ArrivedAreWithin(diff, headers, sent, n - 1);
      PatchIfWithin(diff, headers, n - 1, sent);
      hide ChunkPatch;
    }
  }

  lemma PatchIfWithin(diff: string, headers: seq<Header>, pos: nat, sent: nat)
    requires Of(diff, headers) && pos < |headers|
    ensures ChunkPatch(diff, headers, pos, sent).Some? <==> ContentEnd(headers, pos, |diff|) <= sent
  {
  }

  method SeenFiles(diff: string, headers: seq<Header>, sent: nat) returns (names: seq<string>)
    requires Of(diff, headers)
    ensures |names| == SeenCount(headers, sent) && names == Names(headers[..|names|])
  {
    names := [];
    for pos := 0 to |headers|
      invariant Seen(headers, sent, pos, names)
    {
      SeenStep(diff, headers, sent, pos, names);
      if headers[pos].end <= sent {
        names := names + [headers[pos].name];
      }
    }
    assert headers[..|headers|] == headers;
  }

  ghost predicate Seen(headers: seq<Header>, sent: nat, pos: nat, names: seq<string>) {
    pos <= |headers| && |names| == SeenCount(headers[..pos], sent) && names == Names(headers[..|names|])
  }

  /** If the last header was sent whole, all were. */
  lemma {:induction false} AllSeen(diff: string, headers: seq<Header>, n: nat, sent: nat)
    requires Of(diff, headers) && n < |headers| && headers[n].end <= sent
    ensures SeenCount(headers[..n], sent) == n
  {
    SeenIsPrefix(diff, headers[..n], sent);
    hide SeenCount;
    if n > 0 {
      assert headers[..n][n - 1].end <= sent;
    }
  }

  lemma {:induction false} SeenOneMore(headers: seq<Header>, n: nat, sent: nat)
    requires n < |headers|
    ensures SeenCount(headers[..n + 1], sent) == SeenCount(headers[..n], sent) + if headers[n].end <= sent then 1 else 0
    ensures Names(headers[..n + 1]) == Names(headers[..n]) + [headers[n].name]
  {
    assert headers[..n + 1][..n] == headers[..n];
  }

  lemma {:induction false} SeenStep(diff: string, headers: seq<Header>, sent: nat, pos: nat, names: seq<string>)
    requires Of(diff, headers) && pos < |headers| && Seen(headers, sent, pos, names)
    ensures Seen(headers, sent, pos + 1, if headers[pos].end <= sent then names + [headers[pos].name] else names)
  {
    hide SeenCount, Names, Of;
    SeenOneMore(headers, pos, sent);
    if headers[pos].end <= sent {
      AllSeen(diff, headers, pos, sent);
    }
  }

  lemma HeadersAreOf(diff: string)
    ensures Of(diff, Headers(diff))
  {
    HeadersAreInOrder(diff, 0);
  }

  method Unseen(names: seq<string>, seen: seq<string>) returns (unseen: seq<string>)
    ensures unseen == Without(names, seen)
  {
    unseen := [];
    for i := 0 to |names|
      invariant unseen == Without(names[..i], seen)
    {
      assert names[..i + 1][..i] == names[..i];
      if names[i] !in seen {
        unseen := unseen + [names[i]];
      }
    }
    assert names[..|names|] == names;
  }

  lemma EmptyIndex()
    ensures IndexOf(map[]) == map[]
  {
  }

  lemma IndexOfUpdate(patches: map<string, string>, name: string, patch: string)
    ensures IndexOf(patches[name := patch]) == IndexOf(patches)[name := Hashes(patch)]
  {
  }

  method IndexHunks(diff: string, headers: seq<Header>, sentChars: nat) returns (index: map<string, seq<Digest>>)
    requires Of(diff, headers)
    ensures index == IndexOf(Arrived(diff, headers, sentChars, |headers|))
  {
    hide IndexOf, Hashes, ChunkPatch;
    index := map[];
    EmptyIndex();
    for pos := 0 to |headers|
      invariant index == IndexOf(Arrived(diff, headers, sentChars, pos))
    {
      var patch := ChunkPatch(diff, headers, pos, sentChars);
      if patch.Some? {
        IndexOfUpdate(Arrived(diff, headers, sentChars, pos), headers[pos].name, patch.value);
        index := index[headers[pos].name := Hashes(patch.value)];
      }
    }
  }

  // ------------------------------------------------------------- any text

  /** Sent names followed by unseen ones are all names in order, unless a seen name comes again. */
  lemma {:induction false} SentThenUnseenIsAll(headers: seq<Header>, n: nat)
    requires n <= |headers|
    ensures Names(headers[..n]) + Without(Names(headers), Names(headers[..n])) == Names(headers)
            <==> forall k :: n <= k < |headers| ==> headers[k].name !in Names(headers[..n])
  {
    hide Without, Names;
    var seen, later := Names(headers[..n]), Names(headers[n..]);
    NamesSplit(headers, n);
    SeenThenLater(seen, later);
    assert forall k :: n <= k < |headers| ==> headers[k].name == later[k - n];
    assert forall k :: 0 <= k < |later| ==> later[k] == headers[n + k].name;
  }

  lemma NamesSplit(headers: seq<Header>, n: nat)
    requires n <= |headers|
    ensures Names(headers) == Names(headers[..n]) + Names(headers[n..])
  {
    hide Names;
  }

  lemma SeenThenLater(seen: seq<string>, later: seq<string>)
    ensures seen + Without(seen + later, seen) == seen + later <==> forall k :: 0 <= k < |later| ==> later[k] !in seen
  {
    hide Without;
    WithoutSplits(seen, later, seen);
    WithoutOwn(seen, seen);
    WithoutIsAll(later, seen);
    var rest := Without(seen + later, seen);
    assert rest == Without(later, seen);
    assert (seen + rest)[|seen|..] == rest && (seen + later)[|seen|..] == later;
  }

  lemma WithoutAppend(names: seq<string>, last: string, seen: seq<string>)
    ensures Without(names + [last], seen) == Without(names, seen) + if last in seen then [] else [last]
  {
    assert (names + [last])[..|names|] == names;
  }

  lemma {:induction false} WithoutSplits(a: seq<string>, b: seq<string>, seen: seq<string>)
    ensures Without(a + b, seen) == Without(a, seen) + Without(b, seen)
  {
    hide Without;
    if b == [] {
      assert a + b == a;
    } else {
      var front, last := b[..|b| - 1], b[|b| - 1];
      WithoutSplits(a, front, seen);
      WithoutAppend(a + front, last, seen);
      WithoutAppend(front, last, seen);
      assert a + b == (a + front) + [last] && b == front + [last];
    }
  }

  lemma {:induction false} WithoutOwn(a: seq<string>, seen: seq<string>)
    requires forall k :: 0 <= k < |a| ==> a[k] in seen
    ensures Without(a, seen) == []
  {
    if a != [] {
      WithoutOwn(a[..|a| - 1], seen);
    }
  }

  lemma {:induction false} WithoutIsAll(a: seq<string>, seen: seq<string>)
    ensures Without(a, seen) == a <==> forall k :: 0 <= k < |a| ==> a[k] !in seen
  {
    hide Without;
    if a == [] {
    } else {
      var front, last := a[..|a| - 1], a[|a| - 1];
      WithoutAppend(front, last, seen);
      assert a == front + [last];
      WithoutIsAll(front, seen);
    }
  }

  ghost predicate DistinctNames(headers: seq<Header>) {
    forall k, l :: 0 <= k < l < |headers| ==> headers[k].name != headers[l].name
  }

  /** With distinct names, a file is in the index exactly when its patch arrived whole. */
  lemma {:induction false} ArrivedIsExact(diff: string, headers: seq<Header>, sentChars: nat, n: nat)
    requires Of(diff, headers) && DistinctNames(headers) && n <= |headers|
    ensures forall k :: 0 <= k < n ==>
              var patch := ChunkPatch(diff, headers, k, sentChars);
              var arrived := Arrived(diff, headers, sentChars, n);
              (patch.Some? <==> headers[k].name in arrived) && (patch.Some? ==> arrived[headers[k].name] == patch.value)
    ensures forall name :: name in Arrived(diff, headers, sentChars, n) ==> exists k :: 0 <= k < n && headers[k].name == name
  {
    hide ChunkPatch, InOrder;
    if n > 0 {
      ArrivedIsExact(diff, headers, sentChars, n - 1);
    }
  }

  /** A larger budget only adds files to the index and alters none of them. */
  lemma BudgetOnlyAdds(diff: string, small: nat, large: nat)
    requires small <= large && DistinctNames(Headers(diff))
    ensures Of(diff, Headers(diff))
    ensures var headers := Headers(diff);
            var less := IndexOf(Arrived(diff, headers, SentChars(diff, small), |headers|));
            var more := IndexOf(Arrived(diff, headers, SentChars(diff, large), |headers|));
            forall name :: name in less ==> name in more && more[name] == less[name]
  {
    var headers := Headers(diff);
    HeadersAreOf(diff);
    ArrivedIsExact(diff, headers, SentChars(diff, small), |headers|);
    ArrivedIsExact(diff, headers, SentChars(diff, large), |headers|);
  }

  // -------------------------------------------------- patches without drift

  ghost predicate Within(part: map<string, seq<Digest>>, whole: map<string, seq<Digest>>) {
    forall name :: name in part ==> name in whole && whole[name] == part[name]
  }

  /** The patches of the indexed files. */
  function Restricted(patches: map<string, string>, index: map<string, seq<Digest>>): map<string, string> {
    map name | name in patches && name in index :: patches[name]
  }

  lemma RestrictedUpdate(patches: map<string, string>, index: map<string, seq<Digest>>, name: string, patch: string)
    ensures Restricted(patches[name := patch], index)
         == if name in index then Restricted(patches, index)[name := patch] else Restricted(patches, index)
  {
  }

  /** The two checks fail together with the stored index being within the derived one. */
  lemma DriftShows(arrived: map<string, string>, index: map<string, seq<Digest>>)
    ensures var patches := Restricted(arrived, index);
            && (Within(index, IndexOf(arrived))
                <==> patches.Keys == index.Keys && forall name :: name in patches ==> Hashes(patches[name]) == index[name])
            && (forall name :: name in patches ==> name in index)
  {
    hide Hashes;
    var patches := Restricted(arrived, index);
    if Within(index, IndexOf(arrived)) {
      assert forall name :: name in index ==> name in patches;
    }
    if patches.Keys == index.Keys {
      assert forall name :: name in index ==> name in patches;
    }
  }

  /**
    _sent_file_patches: drift is reported exactly when the stored index is not part of what this text
    yields for that many characters; otherwise each patch has the stored hunks, one by one.
   */
  method SentFilePatches(diff: string, cov: Coverage) returns (r: Option<map<string, string>>)
    ensures Of(diff, Headers(diff))
    ensures var arrived := Arrived(diff, Headers(diff), cov.sentChars, |Headers(diff)|);
            && (r.Some? <==> cov.hunks.Some? && Within(cov.hunks.value, IndexOf(arrived)))
            && (r.Some? ==> r.value == Restricted(arrived, cov.hunks.value) && r.value.Keys == cov.hunks.value.Keys)
            && (r.Some? ==> forall name :: name in r.value ==> Hashes(r.value[name]) == cov.hunks.value[name])
  {
    hide Headers, HeadersFrom, Hashes, Restricted, IndexOf, Within, Arrived;
    HeadersAreOf(diff);
    if cov.hunks.None? {
      return None;
    }
    var headers, index := Headers(diff), cov.hunks.value;
    var patches := CollectPatches(diff, headers, index, cov.sentChars);
    DriftShows(Arrived(diff, headers, cov.sentChars, |headers|), index);
    if exists name :: name in patches && Hashes(patches[name]) != index[name] {
      return None;
    }
    if patches.Keys != index.Keys {
      return None;
    }
    return Some(patches);
  }

  method CollectPatches(diff: string, headers: seq<Header>, index: map<string, seq<Digest>>, sentChars: nat)
    returns (patches: map<string, string>)
    requires Of(diff, headers)
    ensures patches == Restricted(Arrived(diff, headers, sentChars, |headers|), index)
  {
    hide ChunkPatch, Restricted;
    patches := map[];
    NothingRestricted(index);
    for pos := 0 to |headers|
      invariant patches == Restricted(Arrived(diff, headers, sentChars, pos), index)
    {
      var patch := ChunkPatch(diff, headers, pos, sentChars);
      if patch.Some? {
        RestrictedUpdate(Arrived(diff, headers, sentChars, pos), index, headers[pos].name, patch.value);
        if headers[pos].name in index {
          patches := patches[headers[pos].name := patch.value];
        }
      }
    }
  }

  lemma NothingRestricted(index: map<string, seq<Digest>>)
    ensures Restricted(map[], index) == map[]
  {
  }

  /** Coverage never drifts from itself, whatever the text. */
  method ObserveThenSplit(diff: string, filesDropped: seq<string>, budget: nat) returns (c: Coverage, patches: map<string, string>)
    ensures c.hunks.Some? && patches.Keys == c.hunks.value.Keys
    ensures forall name :: name in patches ==> Hashes(patches[name]) == c.hunks.value[name]
  {
    hide Headers, HeadersFrom, Hashes;
    c := Observe(diff, filesDropped, budget);
    var r := SentFilePatches(diff, c);
    return c, r.value;
  }

  // --------------------------------------------------------- assembled diffs

  ghost predicate PrintableFiles(files: seq<FileDiff>) {
    && (forall k :: 0 <= k < |files| ==> Printable(files[k]))
    && (forall k, l :: 0 <= k < l < |files| ==> files[k].name != files[l].name)
  }

  /** Parsing the printed diff finds the files, and returns each patch that fits, byte for byte. */
  lemma RoundTrip(files: seq<FileDiff>, sentChars: nat)
    requires PrintableFiles(files)
    ensures var diff, headers := Assemble(files), Headers(Assemble(files));
            && Of(diff, headers) && FindsFiles(files, headers) && DistinctNames(headers)
            && forall k :: 0 <= k < |files| ==>
                 ChunkPatch(diff, headers, k, sentChars) == if ChunkEnd(files, k) <= sentChars then Some(files[k].patch) else None
  {
    hide Printable, Headers, Assemble, HeaderLine;
    var diff, headers := Assemble(files), Headers(Assemble(files));
    HeadersOfAssembled(files);
    HeadersAreOf(diff);
    forall k | 0 <= k < |files|
      ensures ChunkPatch(diff, headers, k, sentChars) == if ChunkEnd(files, k) <= sentChars then Some(files[k].patch) else None
    {
      PatchReturns(files, headers, k, sentChars);
    }
  }

  lemma ContentEndsWithChunk(files: seq<FileDiff>, headers: seq<Header>, k: nat)
    requires FindsFiles(files, headers) && k < |files|
    ensures ContentEnd(headers, k, |Assemble(files)|) == ChunkEnd(files, k)
    ensures headers[k].end + 1 + |files[k].patch| == ChunkEnd(files, k)
  {
    hide Assemble, HeaderLine, DiffChunk;
    ChunkInPlace(files, k);
    assert k + 1 == |files| ==> files[..k + 1] == files;
  }

  lemma {:induction false} PatchReturns(files: seq<FileDiff>, headers: seq<Header>, k: nat, sentChars: nat)
    requires FindsFiles(files, headers) && Of(Assemble(files), headers) && k < |files|
    ensures ChunkPatch(Assemble(files), headers, k, sentChars)
         == if ChunkEnd(files, k) <= sentChars then Some(files[k].patch) else None
  {
    hide Assemble, HeaderLine, DiffChunk, ChunkEnd, ChunkStart, ContentEnd, ChunkPatch;
    ContentEndsWithChunk(files, headers, k);
    PatchInPlace(files, k);
    ChunkPatchIs(Assemble(files), headers, k, sentChars, ChunkEnd(files, k), files[k].patch);
  }

  lemma ChunkPatchIs(diff: string, headers: seq<Header>, pos: nat, sentChars: nat, end: nat, patch: string)
    requires Of(diff, headers) && pos < |headers| && ContentEnd(headers, pos, |diff|) == end
    requires headers[pos].end + 1 <= end <= |diff| && diff[headers[pos].end + 1..end] == patch
    ensures ChunkPatch(diff, headers, pos, sentChars) == if end <= sentChars then Some(patch) else None
  {
  }

  /** The index holds exactly the files that fit, with their own hunks; so do the patches recovered from it. */
  lemma IndexHoldsWhatFits(files: seq<FileDiff>, sentChars: nat)
    requires PrintableFiles(files)
    ensures Of(Assemble(files), Headers(Assemble(files)))
    ensures var headers := Headers(Assemble(files));
            var arrived := Arrived(Assemble(files), headers, sentChars, |headers|);
            && (forall k :: 0 <= k < |files| ==>
                  (files[k].name in arrived <==> ChunkEnd(files, k) <= sentChars)
                  && (files[k].name in arrived ==> arrived[files[k].name] == files[k].patch))
            && (forall name :: name in arrived ==> exists k :: 0 <= k < |files| && files[k].name == name)
  {
    hide PrintableFiles, Headers, Assemble, HeaderLine, ChunkPatch, Arrived;
    RoundTrip(files, sentChars);
    var headers := Headers(Assemble(files));
    ArrivedIsExact(Assemble(files), headers, sentChars, |headers|);
    forall k | 0 <= k < |files| ensures headers[k].name == files[k].name {
    }
  }

  /** The budget stops one or two characters before the end, with the last header sent. */
  predicate StopsInTheGap(diff: string, headers: seq<Header>, sentChars: nat) {
    headers != [] && headers[|headers| - 1].end <= sentChars < |diff| <= sentChars + |SEPARATOR|
  }

  ghost function SeenNames(headers: seq<Header>, sentChars: nat): set<string> {
    set k | 0 <= k < SeenCount(headers, sentChars) :: headers[k].name
  }

  function AsSet(cut: Option<string>): set<string> {
    match cut case None => {} case Some(name) => {name}
  }

  /** File `k` is indexed exactly when it was seen, not cut, and not the last one in the gap. */
  lemma {:induction false} IndexedFile(files: seq<FileDiff>, headers: seq<Header>, sentChars: nat, k: nat)
    requires FindsFiles(files, headers) && Of(Assemble(files), headers) && DistinctNames(headers)
    requires k < |files| && sentChars <= |Assemble(files)|
    ensures ChunkEnd(files, k) <= sentChars <==>
              && k < SeenCount(headers, sentChars)
              && Cut(Assemble(files), headers, sentChars) != Some(headers[k].name)
              && !(k == |files| - 1 && StopsInTheGap(Assemble(files), headers, sentChars))
  {
    hide Assemble, HeaderLine, DiffChunk;
    var diff, seen := Assemble(files), SeenCount(headers, sentChars);
    SeenIsPrefix(diff, headers, sentChars);
    ContentEndsWithChunk(files, headers, k);
    if k + 1 < seen {
      assert headers[k + 1].end <= sentChars;
      assert headers[k].name != headers[seen - 1].name;
    }
  }

  /** Indexed files are the sent ones minus the cut one, except exactly in the gap. */
  lemma IndexedIsSentMinusCut(files: seq<FileDiff>, sentChars: nat)
    requires PrintableFiles(files) && sentChars <= |Assemble(files)|
    ensures Of(Assemble(files), Headers(Assemble(files)))
    ensures var diff, headers := Assemble(files), Headers(Assemble(files));
            var indexed := Arrived(diff, headers, sentChars, |headers|).Keys;
            indexed == SeenNames(headers, sentChars) - AsSet(Cut(diff, headers, sentChars)) <==> !StopsInTheGap(diff, headers, sentChars)
  {
    hide PrintableFiles, Headers, Assemble, HeaderLine, ChunkPatch, Arrived, Cut, StopsInTheGap, InOrder;
    RoundTrip(files, sentChars);
    IndexHoldsWhatFits(files, sentChars);
    var headers := Headers(Assemble(files));
    var indexed := Arrived(Assemble(files), headers, sentChars, |headers|).Keys;
    forall name | name in indexed ensures exists k :: 0 <= k < |files| && files[k].name == name {
      assert name in Arrived(Assemble(files), headers, sentChars, |headers|);
    }
    IndexedNames(files, headers, sentChars, indexed);
  }

  lemma {:induction false} IndexedNames(files: seq<FileDiff>, headers: seq<Header>, sentChars: nat, indexed: set<string>)
    requires FindsFiles(files, headers) && Of(Assemble(files), headers) && DistinctNames(headers)
    requires sentChars <= |Assemble(files)|
    requires forall k :: 0 <= k < |files| ==> (files[k].name in indexed <==> ChunkEnd(files, k) <= sentChars)
    requires forall name :: name in indexed ==> exists k :: 0 <= k < |files| && files[k].name == name
    ensures var cut := Cut(Assemble(files), headers, sentChars);
            indexed == SeenNames(headers, sentChars) - AsSet(cut) <==> !StopsInTheGap(Assemble(files), headers, sentChars)
  {
    hide Assemble, HeaderLine, DiffChunk, Cut, ChunkEnd;
    var diff := Assemble(files);
    var expected, gap := SeenNames(headers, sentChars) - AsSet(Cut(diff, headers, sentChars)), StopsInTheGap(diff, headers, sentChars);
    forall k | 0 <= k < |files|
      ensures headers[k].name in expected <==> k < SeenCount(headers, sentChars) && Cut(diff, headers, sentChars) != Some(headers[k].name)
      ensures headers[k].name in indexed <==> headers[k].name in expected && !(k == |files| - 1 && gap)
    {
      IndexedFile(files, headers, sentChars, k);
    }
    if gap {
      GapFileIsSeenAndNotCut(files, headers, sentChars);
      assert headers[|files| - 1].name in expected;
    } else {
      assert forall name :: name in expected ==> exists k :: 0 <= k < |files| && headers[k].name == name;
    }
  }

  lemma GapFileIsSeenAndNotCut(files: seq<FileDiff>, headers: seq<Header>, sentChars: nat)
    requires Of(Assemble(files), headers) && |headers| == |files|
    requires StopsInTheGap(Assemble(files), headers, sentChars)
    ensures SeenCount(headers, sentChars) == |files| && Cut(Assemble(files), headers, sentChars) == None
  {
    hide Assemble;
    SeenIsPrefix(Assemble(files), headers, sentChars);
  }

  /** One character short of any printed diff is such a gap. */
  lemma OneCharacterShortIsTheGap(files: seq<FileDiff>)
    requires PrintableFiles(files) && files != []
    ensures StopsInTheGap(Assemble(files), Headers(Assemble(files)), |Assemble(files)| - 1)
  {
    hide Assemble, HeaderLine, DiffChunk, Headers, Printable;
    HeadersOfAssembled(files);
    ContentEndsWithChunk(files, Headers(Assemble(files)), |files| - 1);
    assert files[..|files|] == files;
  }

  /**
    At any budget each printed file is indexed, unseen or the cut one, by where its header and its chunk
    end; only a last file one or two characters short is none of them.
   */
  lemma {:induction false} EachFileAtABudget(files: seq<FileDiff>, c: Coverage, budget: nat, k: nat)
    requires PrintableFiles(files) && k < |files|
    requires FollowsBudget(Assemble(files), Headers(Assemble(files)), c, budget)
    ensures var name, headerEnd := files[k].name, ChunkStart(files, k) + |HeaderLine(files[k])|;
            && (name in c.hunks.value <==> ChunkEnd(files, k) <= budget)
            && (name in c.filesUnseen <==> headerEnd > budget)
            && (c.fileCut == Some(name) <==>
                  headerEnd <= budget < ChunkEnd(files, k) && (k + 1 == |files| ==> budget + |SEPARATOR| < ChunkEnd(files, k)))
  {
    hide PrintableFiles, Headers, Assemble, HeaderLine, ChunkPatch, ChunkStart, ChunkEnd, ContentEnd;
    var diff, headers := Assemble(files), Headers(Assemble(files));
    RoundTrip(files, budget);
    forall j | 0 <= j < |files| ensures ContentEnd(headers, j, |diff|) == ChunkEnd(files, j) {
      ContentEndsWithChunk(files, headers, j);
    }
    assert headers[k].name == files[k].name;
    forall j | 0 <= j < |files| && headers[j].name == headers[k].name ensures j == k {
    }
    CutAtABudget(files, headers, c, budget, k);
  }

  lemma {:induction false} CutAtABudget(files: seq<FileDiff>, headers: seq<Header>, c: Coverage, budget: nat, k: nat)
    requires k < |files| && FindsFiles(files, headers) && DistinctNames(headers)
    requires Of(Assemble(files), headers) && FollowsBudget(Assemble(files), headers, c, budget)
    requires ContentEnd(headers, k, |Assemble(files)|) == ChunkEnd(files, k)
    ensures c.fileCut == Some(files[k].name) <==>
              && headers[k].end <= budget < ChunkEnd(files, k)
              && (k + 1 == |files| ==> budget + |SEPARATOR| < ChunkEnd(files, k))
  {
    hide UnseenLieBeyond, IndexedLieWithin, Assemble, HeaderLine, ChunkStart, ChunkEnd;
    if c.fileCut == Some(files[k].name) {
      assert headers[c.filesSent - 1].name == headers[k].name;
      assert c.filesSent == k + 1;
    }
    if headers[k].end <= budget < ChunkEnd(files, k) && k + 1 < |files| {
      assert headers[k + 1].start > budget;
      assert c.filesSent == k + 1;
    }
  }
}
