/** The fuzzy comparison of a suspect text with a canary phrase and its term. Tokenization is taken as given. */
module FuzzyMatch {
  import opened EditDistance
  import opened Members
  import opened Prelude
  import opened Ratios

  datatype Level = NoMatch | Low | Medium | High

  datatype FuzzyResult = FuzzyResult(score: real, level: Level, jaccard: real, best: real, matched: Option<string>)

  /** The share of common members among all members of two sets. */
  function Overlap<T(==)>(a: set<T>, b: set<T>): real {
    var common := |a * b|;
    var all := |a| + |b| - common;
    if all == 0 then 0.0 else common as real / all as real
  }

  function Jaccard(a: seq<string>, b: seq<string>): real {
    if a == [] || b == [] then 0.0 else Overlap(Elements(a), Elements(b))
  }

  method CountCommon<T(==)>(a: set<T>, b: set<T>) returns (inter: nat)
    ensures inter == |a * b|
  {
    inter := 0;
    var rest := a;
    assert (a - a) * b == {};
    while rest != {}
      invariant rest <= a && inter == |(a - rest) * b|
      decreases |rest|
    {
      var t :| t in rest;
      CommonNext(a, b, rest, t);
      if t in b {
        inter := inter + 1;
      }
      rest := rest - {t};
    }
    assert a - {} == a;
  }

  lemma CommonNext<T>(a: set<T>, b: set<T>, rest: set<T>, t: T)
    requires t in rest && rest <= a
    ensures |(a - (rest - {t})) * b| == |(a - rest) * b| + (if t in b then 1 else 0)
  {
    var before := (a - rest) * b;
    assert t !in before;
    assert (a - (rest - {t})) * b == before + (if t in b then {t} else {});
  }

  method ComputeJaccard(a: seq<string>, b: seq<string>) returns (j: real)
    ensures j == Jaccard(a, b)
  {
    if |a| == 0 || |b| == 0 {
      return 0.0;
    }
    hide Elements;
    var sa, sb := Elements(a), Elements(b);
    var inter := CountCommon(sa, sb);
    var union := |sa| + |sb| - inter;
    j := if union == 0 then 0.0 else inter as real / union as real;
  }

  function Similarity(a: string, b: string): real { 1.0 - RelativeDistance(a, b) }

  /** The best similarity to the term among the tokens, and the first token that reaches it. */
  function BestTerm(tokens: seq<string>, term: string): (r: (real, Option<string>)) {
    if tokens == [] then (0.0, None)
    else
      var (best, matched) := BestTerm(tokens[..|tokens| - 1], term);
      var t := tokens[|tokens| - 1];
      if Similarity(t, term) > best then (Similarity(t, term), Some(t)) else (best, matched)
  }

  function CapAt(x: real, cap: real): real { if x < cap then x else cap }

  function Larger(x: real, y: real): real { if x < y then y else x }

  function Rate(j: real, best: real): (real, Level) {
    var combined := CapAt(Larger(j * 0.6 + best * 0.4, best * 0.8), 0.79);
    (combined,
     if best >= 0.85 && j >= 0.3 then Medium
     else if best >= 0.7 || j >= 0.4 then Low
     else if combined >= 0.2 then Low
     else NoMatch)
  }

  function Fuzzy(suspect: seq<string>, phrase: seq<string>, term: string): FuzzyResult {
    var j, (best, matched) := Jaccard(suspect, phrase), BestTerm(suspect, term);
    FuzzyResult(Rate(j, best).0, Rate(j, best).1, j, best, matched)
  }

  /** `suspect` and `phrase` are the tokens, `term` the lower-cased canary term. */
  method FuzzyCanaryMatch(suspect: seq<string>, phrase: seq<string>, term: string) returns (r: FuzzyResult)
    ensures r == Fuzzy(suspect, phrase, term)
  {
    hide Jaccard, RelativeDistance;
    var j := ComputeJaccard(suspect, phrase);
    var best, matched := 0.0, None;
    for i := 0 to |suspect|
      invariant (best, matched) == BestTerm(suspect[..i], term)
    {
      assert suspect[..i + 1][..i] == suspect[..i];
      var s := NormLevenshtein(suspect[i], term);
      if s > best {
        best, matched := s, Some(suspect[i]);
      }
    }
    assert suspect[..|suspect|] == suspect;
    var (combined, level) := Rate(j, best);
    r := FuzzyResult(combined, level, j, best, matched);
  }

  lemma OverlapRange<T>(a: set<T>, b: set<T>)
    requires a != {} && b != {}
    ensures 0.0 <= Overlap(a, b) <= 1.0
    ensures Overlap(a, b) == 1.0 <==> a == b
    ensures Overlap(a, b) == Overlap(b, a)
  {
    var common := a * b;
    assert a * b == b * a;
    assert a == common + (a - common) && b == common + (b - common);
    assert |a| == |common| + |a - common| && |b| == |common| + |b - common|;
    var all := |a| + |b| - |common|;
    assert |a| > 0;
    RatioRange(|common| as real, all as real);
    if |common| == all {
      assert a - common == {} && b - common == {};
    }
    if a == b {
      assert common == a;
    }
  }

  lemma JaccardRange(a: seq<string>, b: seq<string>)
    ensures 0.0 <= Jaccard(a, b) <= 1.0
    ensures Jaccard(a, b) == 1.0 <==> a != [] && b != [] && Elements(a) == Elements(b)
    ensures Jaccard(a, b) == Jaccard(b, a)
  {
    if a != [] && b != [] {
      assert a[0] in Elements(a) && b[0] in Elements(b);
      hide Overlap;
      OverlapRange(Elements(a), Elements(b));
    }
  }

  /** The best similarity is the largest of all, between 0 and 1, and 1 exactly when the term itself is a token. */
  lemma {:induction false} BestTermLaws(tokens: seq<string>, term: string)
    ensures var (best, matched) := BestTerm(tokens, term);
            && 0.0 <= best <= 1.0
            && (forall t :: t in tokens ==> Similarity(t, term) <= best)
            && (matched.Some? ==> matched.value in tokens && Similarity(matched.value, term) == best)
            && (matched.None? <==> best == 0.0)
            && (best == 1.0 <==> term in tokens)
  {
    hide RelativeDistance;
    if tokens != [] {
      var front, t := tokens[..|tokens| - 1], tokens[|tokens| - 1];
      BestTermLaws(front, term);
      RelativeDistanceRange(t, term);
      assert tokens == front + [t];
      if term in tokens && term != t {
        assert term in front;
      }
    }
  }

  /** A fuzzy hit alone stays below 0.8 and never gets the highest level; the exact term always scores the cap. */
  lemma FuzzyIsCapped(suspect: seq<string>, phrase: seq<string>, term: string)
    ensures var r := Fuzzy(suspect, phrase, term);
            && 0.0 <= r.score <= 0.79 && r.level != High
            && (term in suspect ==> r.score == 0.79 && r.level != NoMatch)
            && (r.level == NoMatch ==> r.score < 0.2 && term !in suspect)
            && (r.level == Medium <==> r.best >= 0.85 && r.jaccard >= 0.3)
  {
    hide Jaccard, BestTerm;
    JaccardRange(suspect, phrase);
    BestTermLaws(suspect, term);
  }

  /**
    * The rating in fifths: three for the overlap and two for the best similarity, or four for the best similarity alone,
    * whichever is more, cut at 0.79; and the level by similarity and overlap.
    */
  lemma RateMeans(j: real, best: real)
    ensures var (score, level) := Rate(j, best);
            && (score == 0.79 <==> 3.0 * j + 2.0 * best >= 3.95 || 4.0 * best >= 3.95)
            && score <= 0.79
            && (score < 0.79 ==> 5.0 * score >= 3.0 * j + 2.0 * best && 5.0 * score >= 4.0 * best
                                 && (5.0 * score == 3.0 * j + 2.0 * best || 5.0 * score == 4.0 * best))
            && (level == Medium <==> 20.0 * best >= 17.0 && 10.0 * j >= 3.0)
            && (level == NoMatch <==> 10.0 * best < 7.0 && 10.0 * j < 4.0 && 5.0 * score < 1.0)
            && level != High
  {}
}
