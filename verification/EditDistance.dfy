/**
  * Edit distance: the recursive definition, its reading as the least number of single edits, and the two
  * array programs that compute it.
  */
module EditDistance {
  import opened Prelude
  import opened Ratios

  function Min(a: nat, b: nat): nat { if a <= b then a else b }

  function Max(a: nat, b: nat): nat { if a <= b then b else a }

  function Cost<T(==)>(x: T, y: T): nat { if x == y then 0 else 1 }

  function Dist<T(==)>(a: seq<T>, b: seq<T>): nat
    decreases |a| + |b|
  {
    if a == [] then |b|
    else if b == [] then |a|
    else
      var m, n := |a| - 1, |b| - 1;
      Min(Min(Dist(a, b[..n]) + 1, Dist(a[..m], b) + 1), Dist(a[..m], b[..n]) + Cost(a[m], b[n]))
  }

  // ---- Single edits

  datatype Edit<T> = Insertion(at: nat, x: T) | Deletion(at: nat) | Substitution(at: nat, x: T) {
    predicate Applies(a: seq<T>) {
      if Insertion? then at <= |a| else at < |a|
    }

    function Apply(a: seq<T>): seq<T>
      requires Applies(a)
    {
      match this
      case Insertion(i, x) => a[..i] + [x] + a[i..]
      case Deletion(i) => a[..i] + a[i + 1..]
      case Substitution(i, x) => a[i := x]
    }
  }

  /** The edits lead from `a` to `b`. */
  ghost predicate Leads<T(!new)>(a: seq<T>, edits: seq<Edit<T>>, b: seq<T>)
    decreases |edits|
  {
    if edits == [] then a == b
    else edits[0].Applies(a) && Leads(edits[0].Apply(a), edits[1..], b)
  }

  // ---- Distance laws

  lemma {:induction false} DistZero<T>(a: seq<T>)
    ensures Dist(a, a) == 0
  {
    if a != [] {
      DistZero(a[..|a| - 1]);
    }
  }

  lemma {:induction false} DistSymmetric<T>(a: seq<T>, b: seq<T>)
    ensures Dist(a, b) == Dist(b, a)
    decreases |a| + |b|
  {
    if a != [] && b != [] {
      var m, n := |a| - 1, |b| - 1;
      DistSymmetric(a, b[..n]);
      DistSymmetric(a[..m], b);
      DistSymmetric(a[..m], b[..n]);
    }
  }

  lemma {:induction false} DistBounds<T>(a: seq<T>, b: seq<T>)
    ensures Dist(a, b) <= Max(|a|, |b|)
    ensures |a| - |b| <= Dist(a, b) && |b| - |a| <= Dist(a, b)
    decreases |a| + |b|
  {
    if a != [] && b != [] {
      var m, n := |a| - 1, |b| - 1;
      DistBounds(a, b[..n]);
      DistBounds(a[..m], b);
      DistBounds(a[..m], b[..n]);
    }
  }

  lemma {:induction false} DistZeroOnlyEqual<T>(a: seq<T>, b: seq<T>)
    requires Dist(a, b) == 0
    ensures a == b
    decreases |a| + |b|
  {
    if a != [] && b != [] {
      var m, n := |a| - 1, |b| - 1;
      DistZeroOnlyEqual(a[..m], b[..n]);
      assert a == a[..m] + [a[m]] && b == b[..n] + [b[n]];
    }
  }

  /** One more element on either side moves the distance by at most one. */
  lemma DistSteps<T>(a: seq<T>, b: seq<T>)
    ensures a != [] ==> Dist(a, b) <= Dist(a[..|a| - 1], b) + 1
    ensures b != [] ==> Dist(a, b) <= Dist(a, b[..|b| - 1]) + 1
    ensures a != [] && b != [] ==>
              Dist(a, b) <= Dist(a[..|a| - 1], b[..|b| - 1]) + Cost(a[|a| - 1], b[|b| - 1])
  {
    if a == [] || b == [] {
      DistBounds(a, b);
    }
    if a != [] && b == [] {
      assert Dist(a[..|a| - 1], b) == |a| - 1;
    }
  }

  lemma {:induction false} Triangle<T>(a: seq<T>, b: seq<T>, c: seq<T>)
    ensures Dist(a, c) <= Dist(a, b) + Dist(b, c)
    decreases |a| + |b| + |c|
  {
    DistBounds(a, b);
    DistBounds(b, c);
    DistBounds(a, c);
    if a != [] && b != [] && c != [] {
      var a', b', c' := a[..|a| - 1], b[..|b| - 1], c[..|c| - 1];
      DistSteps(a, c);
      Triangle(a', b, c);
      Triangle(a, b, c');
      Triangle(a, b', c);
      Triangle(a, b', c');
      Triangle(a', b', c);
      Triangle(a', b', c');
    }
  }

  // ---- The distance is the least number of edits

  lemma {:induction false} CommonSuffix<T>(a: seq<T>, b: seq<T>, s: seq<T>)
    ensures Dist(a + s, b + s) <= Dist(a, b)
  {
    hide Dist;
    if s == [] {
      assert a + s == a && b + s == b;
    } else {
      var n := |s| - 1;
      CommonSuffix(a, b, s[..n]);
      DistSteps(a + s, b + s);
      assert (a + s)[..|a| + n] == a + s[..n] && (b + s)[..|b| + n] == b + s[..n];
    }
  }

  lemma ReplaceMiddle<T>(p: seq<T>, x: seq<T>, y: seq<T>, s: seq<T>)
    requires |x| <= 1 && |y| <= 1
    ensures Dist(p + x + s, p + y + s) <= 1
  {
    hide Dist;
    DistZero(p);
    DistSteps(p + x, p);
    DistSteps(p, p + y);
    DistSteps(p + x, p + y);
    assert x != [] ==> (p + x)[..|p + x| - 1] == p;
    assert y != [] ==> (p + y)[..|p + y| - 1] == p;
    assert x == [] ==> p + x == p;
    assert y == [] ==> p + y == p;
    CommonSuffix(p + x, p + y, s);
  }

  lemma OneEdit<T>(a: seq<T>, e: Edit<T>)
    requires e.Applies(a)
    ensures Dist(a, e.Apply(a)) <= 1
  {
    hide Dist;
    var p := a[..e.at];
    match e {
      case Insertion(i, x) =>
        ReplaceMiddle(p, [], [x], a[i..]);
        assert a == p + [] + a[i..];
      case Deletion(i) =>
        ReplaceMiddle(p, [a[i]], [], a[i + 1..]);
        assert a == p + [a[i]] + a[i + 1..];
        assert p + [] + a[i + 1..] == e.Apply(a);
      case Substitution(i, x) =>
        ReplaceMiddle(p, [a[i]], [x], a[i + 1..]);
        assert a == p + [a[i]] + a[i + 1..];
        assert a[i := x] == p + [x] + a[i + 1..];
    }
  }

  /** No list of edits is shorter than the distance. */
  lemma {:induction false} EditsAtLeastDist<T(!new)>(a: seq<T>, edits: seq<Edit<T>>, b: seq<T>)
    requires Leads(a, edits, b)
    ensures Dist(a, b) <= |edits|
    decreases |edits|
  {
    if edits == [] {
      DistZero(a);
    } else {
      var next := edits[0].Apply(a);
      EditsAtLeastDist(next, edits[1..], b);
      OneEdit(a, edits[0]);
      Triangle(a, next, b);
    }
  }

  lemma {:induction false} LeadsThen<T(!new)>(a: seq<T>, edits: seq<Edit<T>>, b: seq<T>, e: Edit<T>)
    requires Leads(a, edits, b) && e.Applies(b)
    ensures Leads(a, edits + [e], e.Apply(b))
    decreases |edits|
  {
    if edits == [] {
      assert (edits + [e])[1..] == [];
    } else {
      LeadsThen(edits[0].Apply(a), edits[1..], b, e);
      assert (edits + [e])[1..] == edits[1..] + [e];
    }
  }

  lemma {:induction false} LeadsBeside<T(!new)>(a: seq<T>, edits: seq<Edit<T>>, b: seq<T>, x: T)
    requires Leads(a, edits, b)
    ensures Leads(a + [x], edits, b + [x])
    decreases |edits|
  {
    if edits != [] {
      LeadsBeside(edits[0].Apply(a), edits[1..], b, x);
      ApplyBeside(a, edits[0], x);
    }
  }

  lemma ApplyBeside<T>(a: seq<T>, e: Edit<T>, x: T)
    requires e.Applies(a)
    ensures e.Applies(a + [x]) && e.Apply(a + [x]) == e.Apply(a) + [x]
  {
    match e {
      case Insertion(i, y) => assert (a + [x])[i..] == a[i..] + [x];
      case Deletion(i) => assert (a + [x])[i + 1..] == a[i + 1..] + [x];
      case Substitution(i, y) =>
    }
  }

  lemma LeadsFirst<T(!new)>(a: seq<T>, e: Edit<T>, edits: seq<Edit<T>>, b: seq<T>)
    requires e.Applies(a) && Leads(e.Apply(a), edits, b)
    ensures Leads(a, [e] + edits, b)
  {
    assert ([e] + edits)[1..] == edits;
  }

  lemma DistCases<T>(a: seq<T>, b: seq<T>)
    ensures a == [] ==> Dist(a, b) == |b|
    ensures b == [] ==> Dist(a, b) == |a|
    ensures a != [] && b != [] ==>
              || Dist(a, b) == Dist(a, b[..|b| - 1]) + 1
              || Dist(a, b) == Dist(a[..|a| - 1], b) + 1
              || Dist(a, b) == Dist(a[..|a| - 1], b[..|b| - 1]) + Cost(a[|a| - 1], b[|b| - 1])
  {}

  /** A list of edits as short as the distance. */
  lemma {:induction false} ShortestEdits<T(!new)>(a: seq<T>, b: seq<T>) returns (edits: seq<Edit<T>>)
    ensures Leads(a, edits, b) && |edits| == Dist(a, b)
    decreases |a| + |b|
  {
    hide Dist;
    hide Leads;
    var m, n := |a| - 1, |b| - 1;
    DistCases(a, b);
    if a == [] && b == [] {
      edits := [];
      assert Leads(a, edits, b) by {
        LeadsNowhere(a);
      }
    } else if b != [] && (a == [] || Dist(a, b) == Dist(a, b[..n]) + 1) {
      DistCases(a, b[..n]);
      edits := ShortestEdits(a, b[..n]);
      LeadsThen(a, edits, b[..n], Insertion(n, b[n]));
      assert Insertion(n, b[n]).Apply(b[..n]) == b;
      edits := edits + [Insertion(n, b[n])];
    } else if b == [] || Dist(a, b) == Dist(a[..m], b) + 1 {
      DistCases(a[..m], b);
      edits := ShortestEdits(a[..m], b);
      assert Deletion(m).Apply(a) == a[..m];
      LeadsFirst(a, Deletion(m), edits, b);
      edits := [Deletion(m)] + edits;
    } else {
      edits := ShortestEdits(a[..m], b[..n]);
      LeadsBeside(a[..m], edits, b[..n], b[n]);
      assert b == b[..n] + [b[n]];
      if a[m] == b[n] {
        assert a == a[..m] + [b[n]];
      } else {
        var e := Substitution(m, b[n]);
        assert e.Apply(a) == a[..m] + [b[n]];
        LeadsFirst(a, e, edits, b);
        edits := [e] + edits;
      }
    }
  }

  lemma LeadsNowhere<T(!new)>(a: seq<T>)
    ensures Leads(a, [], a)
  {}

  // ---- The code

  /** The distance of two prefixes. */
  ghost function Cell<T>(a: seq<T>, b: seq<T>, i: nat, j: nat): nat
    requires i <= |a| && j <= |b|
  {
    Dist(a[..i], b[..j])
  }

  lemma EdgeCells<T>(a: seq<T>, b: seq<T>, i: nat, j: nat)
    requires i <= |a| && j <= |b|
    ensures Cell(a, b, 0, j) == j && Cell(a, b, i, 0) == i
  {}

  lemma LastCell<T>(a: seq<T>, b: seq<T>)
    ensures Cell(a, b, |a|, |b|) == Dist(a, b)
  {
    assert a[..|a|] == a && b[..|b|] == b;
  }

  lemma NextCell<T>(a: seq<T>, b: seq<T>, i: nat, j: nat)
    requires i < |a| && j < |b|
    ensures Cell(a, b, i + 1, j + 1) ==
            Min(Min(Cell(a, b, i + 1, j) + 1, Cell(a, b, i, j + 1) + 1), Cell(a, b, i, j) + Cost(a[i], b[j]))
  {
    var p, q := a[..i + 1], b[..j + 1];
    assert p[..i] == a[..i] && q[..j] == b[..j];
    assert p[i] == a[i] && q[j] == b[j];
  }

  /** Two rows, swapped after each letter. */
  method Levenshtein<T(==, !new)>(a: seq<T>, b: seq<T>) returns (d: nat)
    ensures d == Dist(a, b)
  {
    hide Cell;
    if a == b {
      DistZero(a);
      return 0;
    }
    if |a| == 0 {
      return |b|;
    }
    if |b| == 0 {
      return |a|;
    }
    var m, n := |a|, |b|;
    var prev := new nat[n + 1];
    var curr := new nat[n + 1];
    for j := 0 to n + 1
      invariant forall k :: 0 <= k < j ==> prev[k] == k
    {
      prev[j] := j;
    }
    forall k | 0 <= k <= n
      ensures Cell(a, b, 0, k) == k
    {
      EdgeCells(a, b, 0, k);
    }
    for i := 0 to m
      invariant prev != curr && prev.Length == curr.Length == n + 1 && fresh(prev) && fresh(curr)
      invariant forall k :: 0 <= k <= n ==> prev[k] == Cell(a, b, i, k)
    {
      EdgeCells(a, b, i + 1, 0);
      curr[0] := i + 1;
      for j := 0 to n
        invariant forall k :: 0 <= k <= n ==> prev[k] == Cell(a, b, i, k)
        invariant forall k :: 0 <= k <= j ==> curr[k] == Cell(a, b, i + 1, k)
      {
        var cost := if a[i] == b[j] then 0 else 1;
        NextCell(a, b, i, j);
        curr[j + 1] := Min(Min(curr[j] + 1, prev[j + 1] + 1), prev[j] + cost);
      }
      prev, curr := curr, prev;
    }
    LastCell(a, b);
    d := prev[n];
  }

  function RelativeDistance<T(==)>(a: seq<T>, b: seq<T>): real {
    var longest := Max(|a|, |b|);
    if longest == 0 then 0.0 else Dist(a, b) as real / longest as real
  }

  /** One row in place; the overwritten diagonal is carried along. */
  method OneRowDistance<T(==, !new)>(a: seq<T>, b: seq<T>) returns (d: nat)
    ensures d == Dist(a, b)
  {
    hide Cell;
    hide Dist;
    var la, lb := |a|, |b|;
    var dp := new nat[lb + 1];
    for k := 0 to lb + 1
      invariant forall k' :: 0 <= k' < k ==> dp[k'] == Cell(a, b, 0, k')
    {
      EdgeCells(a, b, 0, k);
      dp[k] := k;
    }
    for i := 0 to la
      invariant forall k :: 0 <= k <= lb ==> dp[k] == Cell(a, b, i, k)
    {
      var prev := dp[0];
      EdgeCells(a, b, i + 1, 0);
      dp[0] := i + 1;
      for j := 0 to lb
        invariant prev == Cell(a, b, i, j)
        invariant forall k :: 0 <= k <= j ==> dp[k] == Cell(a, b, i + 1, k)
        invariant forall k :: j < k <= lb ==> dp[k] == Cell(a, b, i, k)
      {
        var tmp := dp[j + 1];
        var cost := if a[i] == b[j] then 0 else 1;
        NextCell(a, b, i, j);
        dp[j + 1] := Min(Min(tmp + 1, dp[j] + 1), prev + cost);
        prev := tmp;
      }
    }
    LastCell(a, b);
    d := dp[lb];
  }

  method NormLevenshtein<T(==, !new)>(a: seq<T>, b: seq<T>) returns (similarity: real)
    ensures similarity == 1.0 - RelativeDistance(a, b)
  {
    if a == b {
      DistZero(a);
      return 1.0;
    }
    var la, lb := |a|, |b|;
    if la == 0 || lb == 0 {
      QuotientRange(Max(la, lb), Max(la, lb));
      return 0.0;
    }
    var dist := OneRowDistance(a, b);
    similarity := 1.0 - dist as real / Max(la, lb) as real;
  }

  /** The relative distance lies in the unit interval and vanishes exactly on equal inputs. */
  lemma RelativeDistanceRange<T>(a: seq<T>, b: seq<T>)
    ensures 0.0 <= RelativeDistance(a, b) <= 1.0
    ensures RelativeDistance(a, b) == 0.0 <==> a == b
    ensures RelativeDistance(a, b) == RelativeDistance(b, a)
  {
    DistBounds(a, b);
    DistSymmetric(a, b);
    if a == b {
      DistZero(a);
    } else if Dist(a, b) == 0 {
      DistZeroOnlyEqual(a, b);
    }
    var longest := Max(|a|, |b|);
    if longest > 0 {
      QuotientRange(Dist(a, b), longest);
    }
  }
}
