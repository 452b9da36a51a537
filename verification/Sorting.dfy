/** Stable sorting by a key, as the runtimes' own sort does it: equal keys keep their order. */
module Sorting {
  import opened Members

  ghost predicate TotalPreorder<K(!new)>(leq: (K, K) -> bool) {
    && (forall a, b :: leq(a, b) || leq(b, a))
    && (forall a, b, c :: leq(a, b) && leq(b, c) ==> leq(a, c))
  }

  /** Keys that may stand in either order. */
  predicate Ties<K>(leq: (K, K) -> bool, a: K, b: K) { leq(a, b) && leq(b, a) }

  function TiesWith<T, K>(leq: (K, K) -> bool, key: T -> K, k: K): T -> bool {
    (x: T) => Ties(leq, key(x), k)
  }

  ghost predicate Sorted<T, K>(leq: (K, K) -> bool, key: T -> K, s: seq<T>) {
    forall i, j :: 0 <= i < j < |s| ==> leq(key(s[i]), key(s[j]))
  }

  /** `x` goes behind everything that may stand before it. */
  function Insert<T, K>(leq: (K, K) -> bool, key: T -> K, x: T, s: seq<T>): seq<T> {
    if s == [] then [x]
    else
      var n := |s| - 1;
      if leq(key(s[n]), key(x)) then s + [x] else Insert(leq, key, x, s[..n]) + [s[n]]
  }

  function Sort<T, K>(leq: (K, K) -> bool, key: T -> K, s: seq<T>): seq<T> {
    if s == [] then [] else Insert(leq, key, s[|s| - 1], Sort(leq, key, s[..|s| - 1]))
  }

  lemma {:induction false} InsertPermutes<T, K>(leq: (K, K) -> bool, key: T -> K, x: T, s: seq<T>)
    ensures multiset(Insert(leq, key, x, s)) == multiset(s) + multiset{x}
  {
    if s != [] {
      var n := |s| - 1;
      InsertPermutes(leq, key, x, s[..n]);
      assert s == s[..n] + [s[n]];
    }
  }

  lemma {:induction false} SortPermutes<T, K>(leq: (K, K) -> bool, key: T -> K, s: seq<T>)
    ensures multiset(Sort(leq, key, s)) == multiset(s) && |Sort(leq, key, s)| == |s|
  {
    hide Insert;
    if s != [] {
      var n := |s| - 1;
      SortPermutes(leq, key, s[..n]);
      InsertPermutes(leq, key, s[n], Sort(leq, key, s[..n]));
      assert s == s[..n] + [s[n]];
    }
    SameLength(Sort(leq, key, s), s);
  }

  lemma {:induction false} InsertSorts<T, K(!new)>(leq: (K, K) -> bool, key: T -> K, x: T, s: seq<T>)
    requires TotalPreorder(leq) && Sorted(leq, key, s)
    ensures Sorted(leq, key, Insert(leq, key, x, s))
  {
    if s != [] {
      var n := |s| - 1;
      if !leq(key(s[n]), key(x)) {
        var front := Insert(leq, key, x, s[..n]);
        InsertSorts(leq, key, x, s[..n]);
        hide Insert;
        InsertPermutes(leq, key, x, s[..n]);
        forall i | 0 <= i < |front|
          ensures leq(key(front[i]), key(s[n]))
        {
          assert front[i] in multiset(front);
        }
      }
    }
  }

  lemma {:induction false} SortSorts<T, K(!new)>(leq: (K, K) -> bool, key: T -> K, s: seq<T>)
    requires TotalPreorder(leq)
    ensures Sorted(leq, key, Sort(leq, key, s))
  {
    if s != [] {
      SortSorts(leq, key, s[..|s| - 1]);
      InsertSorts(leq, key, s[|s| - 1], Sort(leq, key, s[..|s| - 1]));
    }
  }

  /** Whatever satisfies `p` may stand in either order. */
  ghost predicate AllTie<T(!new), K>(leq: (K, K) -> bool, key: T -> K, p: T -> bool) {
    forall x, y :: p(x) && p(y) ==> leq(key(x), key(y))
  }

  lemma {:induction false} InsertStable<T(!new), K>(leq: (K, K) -> bool, key: T -> K, p: T -> bool, x: T, s: seq<T>)
    requires AllTie(leq, key, p)
    ensures Filter(Insert(leq, key, x, s), p) == Filter(s, p) + Filter([x], p)
  {
    hide AllTie;
    FilterConcat(s, [x], p);
    if s != [] {
      var n := |s| - 1;
      if !leq(key(s[n]), key(x)) {
        InsertStable(leq, key, p, x, s[..n]);
        assert !(p(x) && p(s[n])) by {
          NotBoth(leq, key, p, x, s[n]);
        }
        hide Insert;
        SwapFiltered(Filter(s[..n], p), s[n], x, p);
        FilterConcat(Insert(leq, key, x, s[..n]), [s[n]], p);
        assert s[..n] + [s[n]] == s;
        FilterConcat(s[..n], [s[n]], p);
      }
    }
  }

  lemma NotBoth<T(!new), K>(leq: (K, K) -> bool, key: T -> K, p: T -> bool, x: T, y: T)
    requires AllTie(leq, key, p) && !leq(key(y), key(x))
    ensures !(p(x) && p(y))
  {}

  lemma SwapFiltered<T>(front: seq<T>, y: T, x: T, p: T -> bool)
    requires !(p(x) && p(y))
    ensures front + Filter([x], p) + Filter([y], p) == front + Filter([y], p) + Filter([x], p)
  {
    FilterOne(x, p);
    FilterOne(y, p);
  }

  /** Elements that may stand in either order keep theirs. */
  lemma {:induction false} SortStable<T(!new), K>(leq: (K, K) -> bool, key: T -> K, p: T -> bool, s: seq<T>)
    requires AllTie(leq, key, p)
    ensures Filter(Sort(leq, key, s), p) == Filter(s, p)
  {
    if s != [] {
      var n := |s| - 1;
      SortStable(leq, key, p, s[..n]);
      InsertStable(leq, key, p, s[n], Sort(leq, key, s[..n]));
      FilterOne(s[n], p);
    }
  }

  lemma TiedAllTie<T(!new), K(!new)>(leq: (K, K) -> bool, key: T -> K, k: K)
    requires TotalPreorder(leq)
    ensures AllTie(leq, key, TiesWith(leq, key, k))
  {}

  /** Sorted sequences agree once, for each key, their elements that tie with it do. */
  lemma {:induction false} SortedUnique<T(!new), K(!new)>(leq: (K, K) -> bool, key: T -> K, s: seq<T>, t: seq<T>)
    requires TotalPreorder(leq) && Sorted(leq, key, s) && Sorted(leq, key, t)
    requires forall k :: Filter(s, TiesWith(leq, key, k)) == Filter(t, TiesWith(leq, key, k))
    ensures s == t
    decreases |s|
  {
    hide TotalPreorder;
    SameElements(leq, key, s, t);
    if s != [] {
      var m, n := |s| - 1, |t| - 1;
      LastKeysTie(leq, key, s, t);
      var p := TiesWith(leq, key, key(s[m]));
      assert Filter(s, p)[|Filter(s, p)| - 1] == s[m];
      assert Filter(t, p)[|Filter(t, p)| - 1] == t[n];
      forall c
        ensures Filter(s[..m], TiesWith(leq, key, c)) == Filter(t[..n], TiesWith(leq, key, c))
      {
        ShorterFilter(s, TiesWith(leq, key, c));
        ShorterFilter(t, TiesWith(leq, key, c));
      }
      SortedUnique(leq, key, s[..m], t[..n]);
      assert s == s[..m] + [s[m]] && t == t[..n] + [t[n]];
    }
  }

  lemma ShorterFilter<T>(s: seq<T>, p: T -> bool)
    requires s != []
    ensures Filter(s[..|s| - 1], p) == if p(s[|s| - 1]) then Filter(s, p)[..|Filter(s, p)| - 1] else Filter(s, p)
  {}

  lemma LastKeysTie<T(!new), K(!new)>(leq: (K, K) -> bool, key: T -> K, s: seq<T>, t: seq<T>)
    requires TotalPreorder(leq) && Sorted(leq, key, s) && Sorted(leq, key, t)
    requires s != [] && t != [] && forall x :: x in s <==> x in t
    ensures Ties(leq, key(t[|t| - 1]), key(s[|s| - 1])) && Ties(leq, key(s[|s| - 1]), key(s[|s| - 1]))
  {
    var x, y := s[|s| - 1], t[|t| - 1];
    assert x in t && y in s;
    var i :| 0 <= i < |s| && s[i] == y;
    var j :| 0 <= j < |t| && t[j] == x;
    assert leq(key(x), key(y)) && leq(key(y), key(x));
  }

  lemma SameElements<T(!new), K(!new)>(leq: (K, K) -> bool, key: T -> K, s: seq<T>, t: seq<T>)
    requires TotalPreorder(leq) && forall k :: Filter(s, TiesWith(leq, key, k)) == Filter(t, TiesWith(leq, key, k))
    ensures forall x :: x in s <==> x in t
    ensures s == [] <==> t == []
  {
    forall x
      ensures x in s <==> x in t
    {
      var p := TiesWith(leq, key, key(x));
      assert p(x);
      FilterMember(s, p);
      FilterMember(t, p);
    }
    assert s != [] ==> s[0] in s;
    assert t != [] ==> t[0] in t;
  }

  lemma {:induction false} SortOfSorted<T, K>(leq: (K, K) -> bool, key: T -> K, s: seq<T>)
    requires Sorted(leq, key, s)
    ensures Sort(leq, key, s) == s
  {
    if s != [] {
      var n := |s| - 1;
      SortOfSorted(leq, key, s[..n]);
      assert s == s[..n] + [s[n]];
      assert n > 0 ==> s[..n][n - 1] == s[n - 1];
    }
  }

  function Take<T>(s: seq<T>, k: nat): seq<T> {
    if k <= |s| then s[..k] else s
  }

  lemma InsertLength<T, K>(leq: (K, K) -> bool, key: T -> K, x: T, s: seq<T>)
    ensures |Insert(leq, key, x, s)| == |s| + 1
  {
    InsertPermutes(leq, key, x, s);
    assert |multiset(Insert(leq, key, x, s))| == |multiset(s) + multiset{x}|;
  }

  /** Once a sorted list is cut to its first `k`, what was cut cannot come back. */
  lemma {:induction false} InsertThenTake<T, K(!new)>(leq: (K, K) -> bool, key: T -> K, x: T, s: seq<T>, k: nat)
    requires TotalPreorder(leq) && Sorted(leq, key, s)
    ensures Take(Insert(leq, key, x, Take(s, k)), k) == Take(Insert(leq, key, x, s), k)
    decreases |s|
  {
    hide TotalPreorder;
    if |s| > k {
      var n := |s| - 1;
      if leq(key(s[n]), key(x)) {
        AllBefore(leq, key, x, s);
        InsertAtEnd(leq, key, x, s[..k]);
        assert (s + [x])[..k] == s[..k] == (s[..k] + [x])[..k];
      } else {
        ShorterSorted(leq, key, s, n);
        hide Sorted;
        InsertLength(leq, key, x, s[..n]);
        InsertLength(leq, key, x, s[..k]);
        assert s[..n][..k] == s[..k];
        InsertThenTake(leq, key, x, s[..n], k);
      }
    } else {
      assert Take(s, k) == s;
    }
  }

  lemma ShorterSorted<T, K>(leq: (K, K) -> bool, key: T -> K, s: seq<T>, n: nat)
    requires Sorted(leq, key, s) && n <= |s|
    ensures Sorted(leq, key, s[..n])
  {}

  lemma AllBefore<T, K(!new)>(leq: (K, K) -> bool, key: T -> K, x: T, s: seq<T>)
    requires TotalPreorder(leq) && Sorted(leq, key, s) && s != [] && leq(key(s[|s| - 1]), key(x))
    ensures forall i :: 0 <= i < |s| ==> leq(key(s[i]), key(x))
  {}

  lemma InsertAtEnd<T, K>(leq: (K, K) -> bool, key: T -> K, x: T, s: seq<T>)
    requires forall i :: 0 <= i < |s| ==> leq(key(s[i]), key(x))
    ensures Insert(leq, key, x, s) == s + [x]
  {}

  // ---- When the order before sorting does not matter

  /** No two different elements may stand in either order. */
  ghost predicate NoTies<T(!new), K>(leq: (K, K) -> bool, key: T -> K, s: seq<T>) {
    forall x, y :: x in s && y in s && x != y ==> !Ties(leq, key(x), key(y))
  }

  /** Sequences of one and the same element are told apart by their lengths. */
  lemma UniformAgree<T(!new)>(s: seq<T>, t: seq<T>)
    requires multiset(s) == multiset(t) && forall x, y :: x in s && y in s ==> x == y
    ensures s == t
  {
    SameMembers(s, t);
    SameLength(s, t);
    forall i | 0 <= i < |s|
      ensures s[i] == t[i]
    {
      assert s[i] in s && t[i] in t;
    }
  }

  lemma PermutationsSortAlike<T(!new), K(!new)>(leq: (K, K) -> bool, key: T -> K, s: seq<T>, t: seq<T>)
    requires TotalPreorder(leq) && NoTies(leq, key, s) && multiset(s) == multiset(t)
    ensures Sort(leq, key, s) == Sort(leq, key, t)
  {
    hide AllTie;
    forall k
      ensures Filter(Sort(leq, key, s), TiesWith(leq, key, k)) == Filter(Sort(leq, key, t), TiesWith(leq, key, k))
    {
      var p := TiesWith(leq, key, k);
      TiedAllTie(leq, key, k);
      SortStable(leq, key, p, s);
      SortStable(leq, key, p, t);
      FilterPermutes(s, t, p);
      TiedAreOne(leq, key, s, k);
      UniformAgree(Filter(s, p), Filter(t, p));
    }
    SortSorts(leq, key, s);
    SortSorts(leq, key, t);
    hide NoTies, TotalPreorder;
    SortedUnique(leq, key, Sort(leq, key, s), Sort(leq, key, t));
  }

  lemma TiedAreOne<T(!new), K(!new)>(leq: (K, K) -> bool, key: T -> K, s: seq<T>, k: K)
    requires TotalPreorder(leq) && NoTies(leq, key, s)
    ensures forall x, y :: x in Filter(s, TiesWith(leq, key, k)) && y in Filter(s, TiesWith(leq, key, k)) ==> x == y
  {
    FilterMember(s, TiesWith(leq, key, k));
  }

  /** The first of all that tie stays first among them. */
  lemma SameSortSameHead<T(!new), K(!new)>(leq: (K, K) -> bool, key: T -> K, s: seq<T>, t: seq<T>)
    requires TotalPreorder(leq) && s != [] && t != [] && Ties(leq, key(s[0]), key(t[0]))
    requires Sort(leq, key, s) == Sort(leq, key, t)
    ensures s[0] == t[0]
  {
    var p := TiesWith(leq, key, key(t[0]));
    TiedAllTie(leq, key, key(t[0]));
    SortStable(leq, key, p, s);
    SortStable(leq, key, p, t);
    FilterHead(s, p);
    FilterHead(t, p);
  }

  lemma FilterHead<T>(s: seq<T>, p: T -> bool)
    requires s != [] && p(s[0])
    ensures Filter(s, p) != [] && Filter(s, p)[0] == s[0]
  {
    assert s == [s[0]] + s[1..];
    FilterConcat([s[0]], s[1..], p);
    FilterOne(s[0], p);
  }

  lemma MovedSortsDiffer<T(!new), K(!new)>(leq: (K, K) -> bool, key: T -> K, s: seq<T>, x: T, y: T)
    requires TotalPreorder(leq) && x in s && y in s && x != y && Ties(leq, key(x), key(y))
    ensures Sort(leq, key, ToFront(s, x)) != Sort(leq, key, ToFront(s, y))
  {
    hide TotalPreorder;
    if Sort(leq, key, ToFront(s, x)) == Sort(leq, key, ToFront(s, y)) {
      SameSortSameHead(leq, key, ToFront(s, x), ToFront(s, y));
    }
  }

  /** The sorted sequence is the same for every order of the elements if and only if no two different ones tie. */
  lemma OrderMattersForTies<T(!new), K(!new)>(leq: (K, K) -> bool, key: T -> K, s: seq<T>)
    requires TotalPreorder(leq)
    ensures (forall t :: multiset(t) == multiset(s) ==> Sort(leq, key, t) == Sort(leq, key, s)) <==> NoTies(leq, key, s)
  {
    if NoTies(leq, key, s) {
      forall t | multiset(t) == multiset(s)
        ensures Sort(leq, key, t) == Sort(leq, key, s)
      {
        PermutationsSortAlike(leq, key, s, t);
      }
    } else {
      var x, y :| x in s && y in s && x != y && Ties(leq, key(x), key(y));
      MovedSortsDiffer(leq, key, s, x, y);
      var t := if Sort(leq, key, ToFront(s, x)) == Sort(leq, key, s) then ToFront(s, y) else ToFront(s, x);
      assert multiset(t) == multiset(s) && Sort(leq, key, t) != Sort(leq, key, s);
    }
  }

  function Itself<T>(): T -> T { (x: T) => x }

  /** Sorted permutations of each other are equal where no two different elements tie. */
  lemma SortedPermutationsAgree<T(!new)>(leq: (T, T) -> bool, s: seq<T>, t: seq<T>)
    requires TotalPreorder(leq) && NoTies(leq, Itself(), s) && multiset(s) == multiset(t)
    requires Sorted(leq, Itself(), s) && Sorted(leq, Itself(), t)
    ensures s == t
  {
    hide TotalPreorder, NoTies, Sorted;
    SortOfSorted(leq, Itself(), s);
    SortOfSorted(leq, Itself(), t);
    PermutationsSortAlike(leq, Itself(), s, t);
  }

  // ---- Fronts of sorted sequences

  /** What may stand in front of `k`. */
  function UpTo<T, K>(leq: (K, K) -> bool, key: T -> K, k: K): T -> bool {
    (x: T) => leq(key(x), k)
  }

  lemma {:induction false} FilterIsFront<T, K(!new)>(leq: (K, K) -> bool, key: T -> K, s: seq<T>, k: K)
    requires TotalPreorder(leq) && Sorted(leq, key, s)
    ensures var f := Filter(s, UpTo(leq, key, k));
            |f| <= |s| && f == s[..|f|] && forall i :: |f| <= i < |s| ==> !leq(key(s[i]), k)
  {
    if s != [] {
      var n := |s| - 1;
      ShorterSorted(leq, key, s, n);
      if leq(key(s[n]), k) {
        AllUpTo(leq, key, s, k);
      }
      hide TotalPreorder, Sorted;
      FilterIsFront(leq, key, s[..n], k);
      assert s == s[..n] + [s[n]];
      assert forall i :: 0 <= i < n ==> s[..n][i] == s[i];
    }
  }

  lemma AllUpTo<T, K(!new)>(leq: (K, K) -> bool, key: T -> K, s: seq<T>, k: K)
    requires TotalPreorder(leq) && Sorted(leq, key, s) && s != [] && leq(key(s[|s| - 1]), k)
    ensures forall i :: 0 <= i < |s| ==> leq(key(s[i]), k)
  {}

  /** Where no tie crosses a border, sorted permutations have the same elements in front of it. */
  lemma SameFront<T(!new), K(!new)>(leq: (K, K) -> bool, key: T -> K, s: seq<T>, t: seq<T>, n: nat)
    requires TotalPreorder(leq) && Sorted(leq, key, s) && Sorted(leq, key, t) && multiset(s) == multiset(t)
    requires 0 < n < |s| && !Ties(leq, key(s[n - 1]), key(s[n]))
    ensures |t| == |s| && multiset(s[..n]) == multiset(t[..n])
  {
    var k := key(s[n - 1]);
    var p := UpTo(leq, key, k);
    SameLength(s, t);
    FilterPermutes(s, t, p);
    SameLength(Filter(s, p), Filter(t, p));
    FilterIsFront(leq, key, s, k);
    FilterIsFront(leq, key, t, k);
    assert leq(key(s[n - 1]), key(s[n]));
    assert leq(k, k);
    var m := |Filter(s, p)|;
    assert m > n - 1;
    FilterMember(s, p);
    assert forall i :: 0 <= i < m ==> s[i] == Filter(s, p)[i] && Filter(s, p)[i] in Filter(s, p);
  }

  /** Neighbours that tie can be exchanged. */
  lemma ExchangeSorted<T(!new), K(!new)>(leq: (K, K) -> bool, key: T -> K, s: seq<T>, i: nat)
    requires TotalPreorder(leq) && Sorted(leq, key, s) && i + 1 < |s| && Ties(leq, key(s[i]), key(s[i + 1]))
    ensures var t := s[i := s[i + 1]][i + 1 := s[i]];
            Sorted(leq, key, t) && multiset(t) == multiset(s)
  {}
}
