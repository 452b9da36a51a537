/**
  * The Live worker's frame selection: while decoding, a list of at most four candidates is kept sorted by falling
  * score and rising index.
  */
module FrameSelection {
  import opened Members
  import opened Sorting

  const KEPT := 4

  datatype Frame = Frame(score: real, index: nat)

  /** Higher scores first, earlier frames first among equals. */
  predicate Before(a: Frame, b: Frame) {
    a.score > b.score || (a.score == b.score && a.index <= b.index)
  }

  function Rank(): (Frame, Frame) -> bool { Before }

  function Self(): Frame -> Frame { (f: Frame) => f }

  function Ranked(frames: seq<Frame>): seq<Frame> {
    Sort(Rank(), Self(), frames)
  }

  lemma RankIsPreorder()
    ensures TotalPreorder(Rank())
  {}

  lemma SortedPrefix(s: seq<Frame>, n: nat)
    requires n <= |s| && Sorted(Rank(), Self(), s)
    ensures Sorted(Rank(), Self(), s[..n])
  {}

  /** Keeping the best `k` along the way is keeping the best `k` of everything. */
  lemma StreamStep(frames: seq<Frame>, x: Frame, k: nat)
    ensures Take(Ranked(Take(Ranked(frames), k) + [x]), k) == Take(Ranked(frames + [x]), k)
  {
    var t := Ranked(frames);
    RankIsPreorder();
    SortSorts(Rank(), Self(), frames);
    var cut := Take(t, k);
    SortedPrefix(t, |cut|);
    SortOfSorted(Rank(), Self(), cut);
    assert (cut + [x])[..|cut|] == cut && (frames + [x])[..|frames|] == frames;
    InsertThenTake(Rank(), Self(), x, t, k);
  }

  /** `scores[i]` is the selection score of decoded frame `i`. */
  method SelectFrames(scores: seq<real>) returns (candidates: seq<Frame>)
    ensures candidates == Take(Ranked(AllFrames(scores)), KEPT)
  {
    hide Ranked;
    candidates := [];
    NoFrames();
    for index := 0 to |scores|
      invariant candidates == Take(Ranked(AllFrames(scores[..index])), KEPT)
    {
      var frame := Frame(scores[index], index);
      assert scores[..index + 1][..index] == scores[..index];
      StreamStep(AllFrames(scores[..index]), frame, KEPT);
      RankedLength(candidates + [frame]);
      candidates := candidates + [frame];
      candidates := Ranked(candidates);
      if |candidates| > KEPT {
        candidates := candidates[..|candidates| - 1];
      }
    }
    assert scores[..|scores|] == scores;
  }

  function AllFrames(scores: seq<real>): (frames: seq<Frame>)
    ensures |frames| == |scores|
    ensures forall i :: 0 <= i < |scores| ==> frames[i] == Frame(scores[i], i)
  {
    if scores == [] then [] else AllFrames(scores[..|scores| - 1]) + [Frame(scores[|scores| - 1], |scores| - 1)]
  }

  lemma NoFrames()
    ensures Take(Ranked(AllFrames([])), KEPT) == []
  {}

  lemma RankedLength(frames: seq<Frame>)
    ensures |Ranked(frames)| == |frames|
  {
    SortPermutes(Rank(), Self(), frames);
  }

  /** The selection is the four best: in order, and ahead of every frame that was left out. */
  lemma SelectionIsBest(scores: seq<real>, candidates: seq<Frame>, f: Frame)
    requires candidates == Take(Ranked(AllFrames(scores)), KEPT)
    requires f in AllFrames(scores) && f !in candidates
    ensures |candidates| == KEPT && Sorted(Rank(), Self(), candidates)
    ensures forall i :: 0 <= i < KEPT ==> candidates[i] in AllFrames(scores) && Before(candidates[i], f)
  {
    hide AllFrames;
    var all := AllFrames(scores);
    var t := Ranked(all);
    RankIsPreorder();
    SortSorts(Rank(), Self(), all);
    SortPermutes(Rank(), Self(), all);
    assert f in multiset(t);
    assert f in t;
    var j :| 0 <= j < |t| && t[j] == f;
    forall i | 0 <= i < |candidates|
      ensures candidates[i] in all
    {
      assert t[i] in multiset(all);
    }
  }

  lemma RankedDistinct(scores: seq<real>)
    ensures Distinct(Ranked(AllFrames(scores)))
    ensures forall x :: x in Ranked(AllFrames(scores)) <==> x in AllFrames(scores)
  {
    hide Distinct;
    AllDistinct(scores);
    var all := AllFrames(scores);
    SortPermutes(Rank(), Self(), all);
    DistinctCounts(all);
    DistinctCounts(Ranked(all));
    SameMembers(Ranked(all), all);
  }

  lemma AllDistinct(scores: seq<real>)
    ensures Distinct(AllFrames(scores))
  {
    hide AllFrames;
  }

  /** A frame that comes before another: a higher score, or the same score and a smaller index. */
  predicate Ahead(a: Frame, b: Frame) { a.score > b.score || (a.score == b.score && a.index < b.index) }

  lemma RankedAhead(scores: seq<real>, i: nat, j: nat)
    requires i < j < |Ranked(AllFrames(scores))|
    ensures Ahead(Ranked(AllFrames(scores))[i], Ranked(AllFrames(scores))[j])
  {
    var t := Ranked(AllFrames(scores));
    RankedDistinct(scores);
    RankIsPreorder();
    SortSorts(Rank(), Self(), AllFrames(scores));
    hide Ranked, Ahead;
    FramesOfScores(scores, t[i]);
    FramesOfScores(scores, t[j]);
    assert t[i] in t && t[j] in t && t[i] != t[j];
    assert Rank()(Self()(t[i]), Self()(t[j]));
    StrictlyAhead(scores, t[i], t[j]);
  }

  lemma FramesOfScores(scores: seq<real>, f: Frame)
    ensures f in AllFrames(scores) <==> f.index < |scores| && f.score == scores[f.index]
  {
    hide AllFrames;
    assert f.index < |scores| ==> AllFrames(scores)[f.index] == Frame(scores[f.index], f.index);
  }

  lemma StrictlyAhead(scores: seq<real>, a: Frame, b: Frame)
    requires a.index < |scores| && b.index < |scores| && a.score == scores[a.index] && b.score == scores[b.index]
    requires Before(a, b) && a != b
    ensures Ahead(a, b)
  {}

  /**
    * What is selected, by scores and indices: up to four frames with their own scores, each strictly ahead of the next,
    * and all of them strictly ahead of every frame left out.
    */
  lemma SelectionMeans(scores: seq<real>, candidates: seq<Frame>)
    requires candidates == Take(Ranked(AllFrames(scores)), KEPT)
    ensures |candidates| == if |scores| < 4 then |scores| else 4
    ensures forall i :: 0 <= i < |candidates| ==> candidates[i].index < |scores| && candidates[i].score == scores[candidates[i].index]
    ensures forall i, j :: 0 <= i < j < |candidates| ==> Ahead(candidates[i], candidates[j])
    ensures forall k: nat :: k < |scores| && Frame(scores[k], k) !in candidates ==>
              forall i :: 0 <= i < |candidates| ==> Ahead(candidates[i], Frame(scores[k], k))
  {
    hide AllFrames, Ranked, Ahead, Take;
    RankedLength(AllFrames(scores));
    TakenPrefix(Ranked(AllFrames(scores)));
    forall i: nat | i < |candidates|
      ensures candidates[i].index < |scores| && candidates[i].score == scores[candidates[i].index]
    {
      RankedIsFrame(scores, i);
    }
    forall i: nat, j: nat | i < j < |candidates|
      ensures Ahead(candidates[i], candidates[j])
    {
      RankedAhead(scores, i, j);
    }
    forall k: nat | k < |scores| && Frame(scores[k], k) !in candidates
      ensures forall i :: 0 <= i < |candidates| ==> Ahead(candidates[i], Frame(scores[k], k))
    {
      LeftOutIsBehind(scores, candidates, k);
    }
  }

  lemma TakenPrefix(t: seq<Frame>)
    ensures var n := if |t| < 4 then |t| else 4; Take(t, KEPT) == t[..n]
  {}

  lemma RankedIsFrame(scores: seq<real>, i: nat)
    requires i < |Ranked(AllFrames(scores))|
    ensures var f := Ranked(AllFrames(scores))[i]; f.index < |scores| && f.score == scores[f.index]
  {
    RankedDistinct(scores);
    hide Ranked;
    var t := Ranked(AllFrames(scores));
    assert t[i] in t;
    FramesOfScores(scores, t[i]);
  }

  lemma LeftOutIsBehind(scores: seq<real>, candidates: seq<Frame>, k: nat)
    requires candidates <= Ranked(AllFrames(scores)) && k < |scores| && Frame(scores[k], k) !in candidates
    ensures forall i :: 0 <= i < |candidates| ==> Ahead(candidates[i], Frame(scores[k], k))
  {
    hide AllFrames, Ranked, Ahead;
    var t := Ranked(AllFrames(scores));
    var j := PlaceOf(scores, k);
    PrefixLeavesOut(t, candidates, j);
    forall i: nat | i < |candidates|
      ensures Ahead(candidates[i], Frame(scores[k], k))
    {
      RankedAhead(scores, i, j);
    }
  }

  /** Every frame is ranked. */
  lemma PlaceOf(scores: seq<real>, k: nat) returns (j: nat)
    requires k < |scores|
    ensures j < |Ranked(AllFrames(scores))| && Ranked(AllFrames(scores))[j] == Frame(scores[k], k)
  {
    hide AllFrames, Ranked, Distinct;
    RankedDistinct(scores);
    FramesOfScores(scores, Frame(scores[k], k));
    j :| j < |Ranked(AllFrames(scores))| && Ranked(AllFrames(scores))[j] == Frame(scores[k], k);
  }

  lemma PrefixLeavesOut(t: seq<Frame>, candidates: seq<Frame>, j: nat)
    requires candidates <= t && j < |t| && t[j] !in candidates
    ensures j >= |candidates|
  {}
}
