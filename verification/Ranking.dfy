/** Taking the lowest-scoring of some numbered items, earlier items first among equals. */
module Ranking {
  import opened Members
  import opened Prelude
  import opened Sorting

  /** The runtime rounds halves up. */
  function Round(x: real): int { (x + 0.5).Floor }

  function AtMost(): (nat, nat) -> bool { (a: nat, b: nat) => a <= b }

  function Within(chosen: set<nat>, lo: nat, hi: nat): set<nat> { set k | k in chosen && lo <= k < hi }

  /** The `n` items of lowest score, by a stable sort. */
  function Lowest(score: nat -> nat, items: seq<nat>, n: nat): seq<nat> {
    Take(Sort(AtMost(), score, items), n)
  }

  lemma AtMostIsTotal()
    ensures TotalPreorder(AtMost())
  {}

  lemma Ascending(s: seq<nat>)
    requires forall i, j :: 0 <= i < j < |s| ==> s[i] < s[j]
    ensures Distinct(s)
  {}

  lemma SplitSorted(score: nat -> nat, sorted: seq<nat>, n: nat)
    requires n <= |sorted| && Sorted(AtMost(), score, sorted)
    ensures forall p, q: nat :: p in sorted[..n] && q in sorted && q !in sorted[..n] ==> score(p) <= score(q)
  {
    forall p, q: nat | p in sorted[..n] && q in sorted && q !in sorted[..n]
      ensures score(p) <= score(q)
    {
      var i :| 0 <= i < n && sorted[..n][i] == p;
      assert sorted == sorted[..n] + sorted[n..];
      var j :| 0 <= j < |sorted[n..]| && sorted[n..][j] == q;
      assert AtMost()(score(sorted[i]), score(sorted[n + j]));
    }
  }

  /** The choice is as large as it can be, and no item left out scores below a chosen one. */
  lemma LowestLaws(score: nat -> nat, items: seq<nat>, n: nat)
    requires Distinct(items)
    ensures var chosen := Lowest(score, items, n);
            && Distinct(chosen) && |Elements(chosen)| == |chosen| == (if n < |items| then n else |items|)
            && (forall p :: p in chosen ==> p in items)
            && (forall p, q: nat :: p in chosen && q in items && q !in chosen ==> score(p) <= score(q))
  {
    hide Distinct, Sort, Elements;
    var sorted := Sort(AtMost(), score, items);
    SortPermutes(AtMost(), score, items);
    AtMostIsTotal();
    SortSorts(AtMost(), score, items);
    var k := if n < |items| then n else |items|;
    assert Lowest(score, items, n) == sorted[..k];
    PrefixOfPermutation(items, sorted, k);
    SplitSorted(score, sorted, k);
  }

  /** Lower scores first, then lower items. */
  function Lexically(): ((nat, nat), (nat, nat)) -> bool {
    (a: (nat, nat), b: (nat, nat)) => a.0 < b.0 || (a.0 == b.0 && a.1 <= b.1)
  }

  function Paired(score: nat -> nat): nat -> (nat, nat) { (i: nat) => (score(i), i) }

  lemma LexicallyIsTotal()
    ensures TotalPreorder(Lexically())
  {}

  lemma {:induction false} InsertsAgree(score: nat -> nat, x: nat, s: seq<nat>)
    requires forall i :: 0 <= i < |s| ==> s[i] < x
    ensures Insert(AtMost(), score, x, s) == Insert(Lexically(), Paired(score), x, s)
  {
    if s != [] {
      var n := |s| - 1;
      assert s[n] < x;
      InsertsAgree(score, x, s[..n]);
    }
  }

  /** A stable sort of ascending items by score orders equal scores by item. */
  lemma {:induction false} SortsAgree(score: nat -> nat, items: seq<nat>)
    requires forall i, j :: 0 <= i < j < |items| ==> items[i] < items[j]
    ensures Sort(AtMost(), score, items) == Sort(Lexically(), Paired(score), items)
  {
    if items != [] {
      var n := |items| - 1;
      SortsAgree(score, items[..n]);
      SortPermutes(AtMost(), score, items[..n]);
      var front := Sort(AtMost(), score, items[..n]);
      hide Insert;
      forall i | 0 <= i < |front|
        ensures front[i] < items[n]
      {
        assert front[i] in multiset(front);
        assert front[i] in items[..n];
      }
      InsertsAgree(score, items[n], front);
    }
  }

  /** Of ascending items, those chosen come before those left out, by score and then by number. */
  lemma LowestInOrder(score: nat -> nat, items: seq<nat>, n: nat, p: nat, q: nat)
    requires forall i, j :: 0 <= i < j < |items| ==> items[i] < items[j]
    requires p in Lowest(score, items, n) && q in items && q !in Lowest(score, items, n)
    ensures score(p) < score(q) || (score(p) == score(q) && p < q)
  {
    hide Sort, Sorted;
    SortsAgree(score, items);
    LexicallyIsTotal();
    SortSorts(Lexically(), Paired(score), items);
    SortPermutes(AtMost(), score, items);
    var sorted := Sort(AtMost(), score, items);
    assert q in multiset(items);
    assert q in sorted;
    var k := if n < |sorted| then n else |sorted|;
    assert Lowest(score, items, n) == sorted[..k];
    SplitInOrder(score, sorted, k, p, q);
  }

  lemma SplitInOrder(score: nat -> nat, sorted: seq<nat>, k: nat, p: nat, q: nat)
    requires k <= |sorted| && Sorted(Lexically(), Paired(score), sorted) && p in sorted[..k] && q in sorted && q !in sorted[..k]
    ensures score(p) < score(q) || (score(p) == score(q) && p < q)
  {
    assert sorted == sorted[..k] + sorted[k..];
    var i :| 0 <= i < k && sorted[..k][i] == p;
    var j :| 0 <= j < |sorted[k..]| && sorted[k..][j] == q;
    assert Lexically()(Paired(score)(sorted[i]), Paired(score)(sorted[k + j]));
  }

  // ---- Choosing a share of the items 0 to n

  function Indices(n: nat): (s: seq<nat>)
    ensures |s| == n
  {
    seq(n, i requires 0 <= i < n => i)
  }

  function LimitOf(limit: Option<real>): nat {
    var l := limit.UnwrapOr(6.0).Floor;
    if l > 1 then l else 1
  }

  function DensityOf(density: Option<real>): real {
    var d := density.UnwrapOr(0.5);
    if d < 0.05 then 0.05 else if d > 1.0 then 1.0 else d
  }

  /** How many of `n` items are chosen, by a limit (default 6) and a density (default a half). */
  function ShareCount(n: nat, limit: Option<real>, density: Option<real>): nat {
    Bounded(RoundedShare(n, DensityOf(density)), LimitOf(limit))
  }

  function RoundedShare(n: nat, density: real): int { Round(n as real * density) }

  function Bounded(wanted: int, limit: nat): nat {
    var atLeastOne := if wanted > 1 then wanted else 1;
    if atLeastOne < limit then atLeastOne else limit
  }

  function Share(score: nat -> nat, n: nat, limit: Option<real>, density: Option<real>): set<nat> {
    Elements(Lowest(score, Indices(n), ShareCount(n, limit, density)))
  }

  /** At least one item is chosen if there is any, never more than the limit, and the lowest first. */
  lemma ShareLaws(score: nat -> nat, n: nat, limit: Option<real>, density: Option<real>)
    requires n > 0
    ensures var chosen := Share(score, n, limit, density);
            && (forall i :: i in chosen ==> i < n)
            && |chosen| == ShareCount(n, limit, density) && 1 <= |chosen| <= n && |chosen| <= LimitOf(limit)
            && (forall p, q: nat :: p in chosen && q < n && q !in chosen ==> score(p) < score(q) || (score(p) == score(q) && p < q))
  {
    hide Lowest;
    CountFits(n, limit, density);
    hide ShareCount, LimitOf;
    var lowest := Lowest(score, Indices(n), ShareCount(n, limit, density));
    Ascending(Indices(n));
    LowestLaws(score, Indices(n), ShareCount(n, limit, density));
    forall i
      ensures (i in Share(score, n, limit, density) <==> i in lowest) && (i in lowest ==> i < n)
    {
      assert i in lowest ==> i in Indices(n);
    }
    forall p, q: nat | p in lowest && q < n && q !in lowest
      ensures score(p) < score(q) || (score(p) == score(q) && p < q)
    {
      assert Indices(n)[q] == q;
      LowestInOrder(score, Indices(n), ShareCount(n, limit, density), p, q);
    }
  }

  lemma CountFits(n: nat, limit: Option<real>, density: Option<real>)
    requires n > 0
    ensures 1 <= ShareCount(n, limit, density) <= n && ShareCount(n, limit, density) <= LimitOf(limit)
  {
    hide DensityOf, LimitOf, RoundedShare;
    ParameterBounds(limit, density);
    ShareFits(n, DensityOf(density));
    BoundedFits(RoundedShare(n, DensityOf(density)), LimitOf(limit), n);
    hide Bounded;
  }

  lemma BoundedFits(wanted: int, limit: nat, n: nat)
    requires n > 0 && limit >= 1 && wanted <= n
    ensures 1 <= Bounded(wanted, limit) <= n && Bounded(wanted, limit) <= limit
  {}

  lemma ParameterBounds(limit: Option<real>, density: Option<real>)
    ensures DensityOf(density) <= 1.0 && LimitOf(limit) >= 1
  {}

  lemma ShareFits(n: nat, d: real)
    requires n > 0 && d <= 1.0
    ensures RoundedShare(n, d) <= n
  {
    assert n as real * d <= n as real;
  }

  // ---- The counts in plain numbers

  /** The nearest whole number, the larger one of two. */
  lemma RoundMeans(x: real)
    ensures Round(x) as real - 0.5 <= x < Round(x) as real + 0.5
  {}

  lemma RoundedShareMeans(n: nat, density: real)
    ensures RoundedShare(n, density) as real - 0.5 <= n as real * density < RoundedShare(n, density) as real + 0.5
  {
    RoundMeans(n as real * density);
  }

  /** How many are chosen: the rounded share of the items, but at least one and at most the limit. */
  lemma ShareCountMeans(n: nat, limit: Option<real>, density: Option<real>)
    ensures var d, l := DensityOf(density), LimitOf(limit);
            && (density.None? ==> d == 0.5)
            && (density.Some? && density.value <= 0.05 ==> d == 0.05)
            && (density.Some? && density.value >= 1.0 ==> d == 1.0)
            && (density.Some? && 0.05 <= density.value <= 1.0 ==> d == density.value)
            && (limit.None? ==> l == 6)
            && (limit.Some? && limit.value < 2.0 ==> l == 1)
            && (limit.Some? && limit.value >= 2.0 ==> l as real <= limit.value < l as real + 1.0)
            && var w, c := RoundedShare(n, d), ShareCount(n, limit, density);
               && (w <= 1 ==> c == 1) && (1 <= w <= l ==> c == w) && (w >= l ==> c == l)
  {
    hide RoundedShare;
  }
}
