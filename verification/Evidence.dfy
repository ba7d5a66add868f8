/**
  From two diffs to a silent carry: what the reader stores of a read (api/doug/reader.py) is what the finding
  diff decides by (api/doug/convergence.py).
 */
module Evidence {
  import opened Common
  import opened Hunks
  import opened DiffText
  import opened Coverage
  import Convergence

  function TextsOf(digests: seq<Digest>): (r: seq<string>)
    ensures |r| == |digests| && forall k :: 0 <= k < |r| ==> r[k] == digests[k].text
  {
    seq(|digests|, k requires 0 <= k < |digests| => digests[k].text)
  }

  /** The stored row of a read. */
  function ReadOf(c: Coverage): Convergence.Read {
    Convergence.Read(
      if c.hunks.None? then None else Some(map name | name in c.hunks.value :: TextsOf(c.hunks.value[name])),
      c.filesUnseen, c.filesDropped, c.fileCut)
  }

  /** What observing these printed files at this budget yields. */
  ghost predicate IsObserved(files: seq<FileDiff>, budget: nat, c: Coverage)
    requires PrintableFiles(files)
  {
    var diff, headers := Assemble(files), Headers(Assemble(files));
    && Of(diff, headers) && FollowsBudget(diff, headers, c, budget)
    && c.hunks == Some(IndexOf(Arrived(diff, headers, c.sentChars, |headers|)))
  }

  /** The header of the last file arrived, and all of its patch but one or two characters. */
  ghost predicate InTheGap(files: seq<FileDiff>, budget: nat, k: nat)
    requires k < |files|
  {
    && k + 1 == |files| && ChunkStart(files, k) + |HeaderLine(files[k])| <= budget
    && budget < ChunkEnd(files, k) <= budget + |SEPARATOR|
  }

  ghost predicate Hides(read: Convergence.Read, name: string) {
    name in read.unseen || name in read.dropped || read.cut == Some(name)
  }

  /** A stored read indexes the files that arrived whole and hides the others, but for one in the gap. */
  lemma FileInRead(files: seq<FileDiff>, budget: nat, c: Coverage, k: nat)
    requires PrintableFiles(files) && IsObserved(files, budget, c) && k < |files| && files[k].name !in c.filesDropped
    ensures var read, name := ReadOf(c), files[k].name;
            && read.hunks.Some?
            && (name in read.hunks.value <==> ChunkEnd(files, k) <= budget)
            && (name in read.hunks.value ==> read.hunks.value[name] == TextsOf(Hashes(files[k].patch)))
            && (Hides(read, name) <==> ChunkEnd(files, k) > budget && !InTheGap(files, budget, k))
  {
    hide PrintableFiles, Headers, Assemble, HeaderLine, ChunkStart, ChunkEnd, FollowsBudget, Arrived, Hashes, Of;
    EachFileAtABudget(files, c, budget, k);
    HeaderComesFirst(files, k);
    SentIsBudget(files, budget, c);
    IndexHoldsWhatFits(files, c.sentChars);
  }

  lemma HeaderComesFirst(files: seq<FileDiff>, k: nat)
    requires PrintableFiles(files) && k < |files|
    ensures ChunkStart(files, k) + |HeaderLine(files[k])| <= ChunkEnd(files, k)
  {
    hide PrintableFiles, Headers, Assemble, HeaderLine, ChunkStart, ChunkEnd, ChunkPatch, ContentEnd;
    RoundTrip(files, 0);
    ContentEndsWithChunk(files, Headers(Assemble(files)), k);
  }

  lemma SentIsBudget(files: seq<FileDiff>, budget: nat, c: Coverage)
    requires PrintableFiles(files) && IsObserved(files, budget, c)
    ensures c.sentChars <= budget && (c.sentChars < |Assemble(files)| ==> c.sentChars == budget)
  {
    hide Headers, Assemble, Arrived, Of;
  }

  /** Equal digests are equal hunks: the stored texts lose nothing. */
  lemma TextsTellDigests(a: seq<Digest>, b: seq<Digest>)
    ensures TextsOf(a) == TextsOf(b) <==> a == b
  {
    if TextsOf(a) == TextsOf(b) {
      forall k | 0 <= k < |a| ensures a[k] == b[k] {
        assert TextsOf(a)[k] == TextsOf(b)[k];
      }
    }
  }

  /**
    End to end: an open finding on a file of both diffs is carried without a word exactly when the file
    arrived whole both times and its hunks are the same, in whatever order; a later file in the gap can
    only be carried if it had no hunks before.
   */
  lemma CarriedExactlyWhenUnchanged(before: seq<FileDiff>, i: nat, earlierBudget: nat, c: Coverage,
                                    after: seq<FileDiff>, j: nat, laterBudget: nat, d: Coverage, x: Convergence.Inputs, r: nat)
    requires PrintableFiles(before) && IsObserved(before, earlierBudget, c) && i < |before|
    requires PrintableFiles(after) && IsObserved(after, laterBudget, d) && j < |after|
    requires x.priorRead == Some(ReadOf(c)) && x.laterRead == Some(ReadOf(d))
    requires r < |x.prior| && x.prior[r].pattern.Some? && x.prior[r].file == Some(before[i].name)
    requires after[j].name == before[i].name && before[i].name !in c.filesDropped && after[j].name !in d.filesDropped
    requires !Convergence.Paired(x.prior, x.later, r)
    requires Convergence.Identity(x.prior[r].pattern.value, before[i].name) !in x.settled
    ensures !InTheGap(after, laterBudget, j) ==>
              (Convergence.PriorEntry(x, r).basis == Some(Convergence.ByConstruction) <==>
                 && ChunkEnd(before, i) <= earlierBudget && ChunkEnd(after, j) <= laterBudget
                 && multiset(TextsOf(Hashes(before[i].patch))) == multiset(TextsOf(Hashes(after[j].patch))))
    ensures InTheGap(after, laterBudget, j) && ChunkEnd(before, i) <= earlierBudget && Hashes(before[i].patch) != [] ==>
              Convergence.PriorEntry(x, r).state == Convergence.Unknown(Convergence.LeftDiff)
  {
    hide PrintableFiles, IsObserved, ChunkEnd, InTheGap, Hashes, ReadOf, Convergence.Paired, Convergence.PriorEntry;
    FileInRead(before, earlierBudget, c, i);
    FileInRead(after, laterBudget, d, j);
    GapEndsBeyond(after, laterBudget, j);
    Convergence.ByConstructionMeansEqualHunks(x, r);
    if InTheGap(after, laterBudget, j) && ChunkEnd(before, i) <= earlierBudget && Hashes(before[i].patch) != [] {
      assert Convergence.IsComparable(x, r);
      assert Convergence.After(x, r) == multiset{};
      assert TextsOf(Hashes(before[i].patch))[0] in Convergence.Before(x, r);
      Convergence.ChangedFileMeans(x, r);
    }
  }

  lemma GapEndsBeyond(files: seq<FileDiff>, budget: nat, k: nat)
    requires k < |files|
    ensures InTheGap(files, budget, k) ==> ChunkEnd(files, k) > budget
  {
  }
}
