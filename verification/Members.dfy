/** The members of sequences: distinctness, counts and sets. */
module Members {
  /** Every member once, in order of first mention. */
  function Mentioned<T(==,!new)>(s: seq<T>): (r: seq<T>)
    ensures forall x :: x in r <==> x in s
  {
    if s == [] then []
    else
      var front, last := Mentioned(s[..|s| - 1]), s[|s| - 1];
      assert s == s[..|s| - 1] + [last];
      if last in front then front else front + [last]
  }

  function Elements<T(==)>(s: seq<T>): set<T> { set x | x in s }

  predicate Distinct<T(==)>(s: seq<T>) { forall i, j :: 0 <= i < j < |s| ==> s[i] != s[j] }

  lemma {:induction false} DistinctCounts<T(!new)>(s: seq<T>)
    ensures Distinct(s) <==> forall x :: x in s ==> multiset(s)[x] == 1
    ensures Distinct(s) ==> |Elements(s)| == |s|
  {
    if s != [] {
      var n := |s| - 1;
      var front, last := s[..n], s[n];
      assert s == front + [last];
      DistinctCounts(front);
      DistinctLast(front, last);
      assert Elements(s) == Elements(front) + {last};
      hide Distinct;
      forall x
        ensures multiset(s)[x] == multiset(front)[x] + (if x == last then 1 else 0)
      {}
      if forall x :: x in s ==> multiset(s)[x] == 1 {
        assert multiset(s)[last] == 1 && last !in front;
        assert forall x :: x in front ==> x in s && multiset(front)[x] == 1;
      } else if last !in front {
        assert forall x :: x in s <==> x in front || x == last;
      }
    }
  }

  lemma DistinctLast<T>(front: seq<T>, last: T)
    ensures Distinct(front + [last]) <==> Distinct(front) && last !in front
  {
    var s := front + [last];
    if Distinct(s) {
      forall i, j | 0 <= i < j < |front|
        ensures front[i] != front[j]
      {
        assert s[i] != s[j];
      }
      forall i | 0 <= i < |front|
        ensures front[i] != last
      {
        assert s[i] != s[|front|];
      }
    }
  }

  lemma PrefixOfPermutation<T(!new)>(s: seq<T>, t: seq<T>, n: nat)
    requires Distinct(s) && multiset(s) == multiset(t) && n <= |t|
    ensures Distinct(t[..n]) && |Elements(t[..n])| == n && forall x :: x in t[..n] ==> x in s
    ensures forall x :: x in s ==> x in t
  {
    hide Distinct;
    SameMembers(s, t);
    DistinctCounts(s);
    DistinctCounts(t);
    PrefixDistinct(t, n);
    DistinctCounts(t[..n]);
  }

  lemma PrefixDistinct<T>(t: seq<T>, n: nat)
    requires Distinct(t) && n <= |t|
    ensures Distinct(t[..n])
  {}

  lemma SameMembers<T>(s: seq<T>, t: seq<T>)
    requires multiset(s) == multiset(t)
    ensures forall x :: x in s <==> x in t
    ensures forall x :: multiset(s)[x] == multiset(t)[x]
  {
    forall x
      ensures x in s <==> x in t
    {
      assert x in s <==> x in multiset(s);
    }
  }

  lemma Regroup<T>(x: seq<T>, y: seq<T>, z: seq<T>)
    ensures (x + y) + z == x + (y + z)
  {}

  /** The members that satisfy `p`, in order. */
  function Filter<T>(s: seq<T>, p: T -> bool): seq<T> {
    if s == [] then []
    else Filter(s[..|s| - 1], p) + (if p(s[|s| - 1]) then [s[|s| - 1]] else [])
  }

  lemma {:induction false} FilterConcat<T>(a: seq<T>, b: seq<T>, p: T -> bool)
    ensures Filter(a + b, p) == Filter(a, p) + Filter(b, p)
  {
    if b == [] {
      assert a + b == a;
    } else {
      var n := |b| - 1;
      assert (a + b)[..|a| + n] == a + b[..n];
      FilterConcat(a, b[..n], p);
    }
  }

  lemma FilterOne<T>(x: T, p: T -> bool)
    ensures Filter([x], p) == if p(x) then [x] else []
  {}

  lemma {:induction false} FilterMember<T(!new)>(s: seq<T>, p: T -> bool)
    ensures forall x :: x in Filter(s, p) <==> x in s && p(x)
  {
    if s != [] {
      FilterMember(s[..|s| - 1], p);
      assert s == s[..|s| - 1] + [s[|s| - 1]];
    }
  }

  lemma {:induction false} FilterCounts<T(!new)>(s: seq<T>, p: T -> bool)
    ensures forall x :: multiset(Filter(s, p))[x] == if p(x) then multiset(s)[x] else 0
  {
    if s != [] {
      FilterCounts(s[..|s| - 1], p);
      assert s == s[..|s| - 1] + [s[|s| - 1]];
    }
  }

  lemma FilterPermutes<T(!new)>(s: seq<T>, t: seq<T>, p: T -> bool)
    requires multiset(s) == multiset(t)
    ensures multiset(Filter(s, p)) == multiset(Filter(t, p))
  {
    FilterCounts(s, p);
    FilterCounts(t, p);
  }

  lemma SameLength<T>(s: seq<T>, t: seq<T>)
    requires multiset(s) == multiset(t)
    ensures |s| == |t|
  {
    assert |multiset(s)| == |s| && |multiset(t)| == |t|;
  }

  /** The same members with one `x` moved to the front. */
  ghost function ToFront<T(!new)>(s: seq<T>, x: T): (r: seq<T>)
    requires x in s
    ensures multiset(r) == multiset(s) && r != [] && r[0] == x
  {
    var i :| 0 <= i < |s| && s[i] == x;
    assert s == s[..i] + [x] + s[i + 1..];
    [x] + (s[..i] + s[i + 1..])
  }

  function Both<T>(p: T -> bool, q: T -> bool): T -> bool {
    (x: T) => p(x) && q(x)
  }

  lemma {:induction false} FilterTwice<T>(s: seq<T>, p: T -> bool, q: T -> bool)
    ensures Filter(Filter(s, p), q) == Filter(s, Both(p, q))
  {
    if s != [] {
      var n := |s| - 1;
      FilterTwice(s[..n], p, q);
      FilterConcat(Filter(s[..n], p), if p(s[n]) then [s[n]] else [], q);
      FilterOne(s[n], q);
    }
  }

  lemma {:induction false} FilterAlike<T>(s: seq<T>, p: T -> bool, q: T -> bool)
    requires forall x :: x in s ==> p(x) == q(x)
    ensures Filter(s, p) == Filter(s, q)
  {
    if s != [] {
      FilterAlike(s[..|s| - 1], p, q);
    }
  }

  lemma {:induction false} FilterNone<T>(s: seq<T>, p: T -> bool)
    requires forall x :: x in s ==> !p(x)
    ensures Filter(s, p) == []
  {
    if s != [] {
      FilterNone(s[..|s| - 1], p);
    }
  }

  function Map<T, U>(s: seq<T>, f: T -> U): (r: seq<U>)
    ensures |r| == |s|
  {
    seq(|s|, i requires 0 <= i < |s| => f(s[i]))
  }

  lemma {:induction false} MapPermutes<T(!new), U>(s: seq<T>, t: seq<T>, f: T -> U)
    requires multiset(s) == multiset(t)
    ensures multiset(Map(s, f)) == multiset(Map(t, f))
    decreases |s|
  {
    SameLength(s, t);
    if s != [] {
      var n := |s| - 1;
      SameMembers(s, t);
      assert s[n] in s;
      var j :| 0 <= j < |t| && t[j] == s[n];
      var x, y, front := t[..j], t[j + 1..], s[..n];
      assert s == front + [s[n]] && t == x + [s[n]] + y;
      assert multiset(front) == multiset(x + y) by {
        TakeAway(front, x, y, s[n]);
      }
      MapPermutes(front, x + y, f);
      MapSplits(front, [], s[n], f);
      MapSplits(x, y, s[n], f);
      assert front + [s[n]] + [] == front + [s[n]] && front + [] == front;
    }
  }

  lemma TakeAway<T>(front: seq<T>, x: seq<T>, y: seq<T>, m: T)
    requires multiset(front + [m]) == multiset(x + [m] + y)
    ensures multiset(front) == multiset(x + y)
  {
    assert multiset(front + [m]) == multiset(front) + multiset{m};
    assert multiset(x + [m] + y) == multiset(x + y) + multiset{m};
    assert multiset(front) == multiset(front + [m]) - multiset{m};
  }

  lemma MapSplits<T, U>(x: seq<T>, y: seq<T>, m: T, f: T -> U)
    ensures multiset(Map(x + [m] + y, f)) == multiset(Map(x + y, f)) + multiset{f(m)}
  {
    assert Map(x + [m] + y, f) == Map(x, f) + [f(m)] + Map(y, f);
    assert Map(x + y, f) == Map(x, f) + Map(y, f);
  }

  /** Without repetitions, the members alone make a permutation. */
  lemma SameDistinct<T(!new)>(s: seq<T>, t: seq<T>)
    requires Distinct(s) && Distinct(t) && forall x :: x in s <==> x in t
    ensures multiset(s) == multiset(t)
  {
    DistinctCounts(s);
    DistinctCounts(t);
    hide Distinct;
    forall x
      ensures multiset(s)[x] == multiset(t)[x]
    {
      if x !in s {
        assert x !in multiset(s) && x !in multiset(t);
      }
    }
  }
}
