/** Substring search. */
module Search {
  import opened Prelude

  /** `pat` occurs in `s` at `i`. */
  predicate At<T(==)>(s: seq<T>, pat: seq<T>, i: nat) {
    i + |pat| <= |s| && s[i..i + |pat|] == pat
  }

  /** The first occurrence at or after `from`. */
  function IndexOf<T(==)>(s: seq<T>, pat: seq<T>, from: nat): Option<nat>
    decreases |s| - from
  {
    if At(s, pat, from) then Some(from)
    else if from >= |s| then None
    else IndexOf(s, pat, from + 1)
  }

  predicate Contains<T(==)>(s: seq<T>, pat: seq<T>) {
    IndexOf(s, pat, 0).Some?
  }

  lemma {:induction false} IndexOfFirst<T>(s: seq<T>, pat: seq<T>, from: nat)
    ensures var r := IndexOf(s, pat, from);
            match r
            case Some(i) => from <= i && At(s, pat, i) && forall j :: from <= j < i ==> !At(s, pat, j)
            case None => forall j :: from <= j ==> !At(s, pat, j)
    decreases |s| - from
  {
    if !At(s, pat, from) && from < |s| {
      IndexOfFirst(s, pat, from + 1);
    }
  }

  /** The search is decided by any occurrence with none before it. */
  lemma IndexOfIs<T>(s: seq<T>, pat: seq<T>, from: nat, i: nat)
    requires from <= i && At(s, pat, i) && forall j :: from <= j < i ==> !At(s, pat, j)
    ensures IndexOf(s, pat, from) == Some(i)
  {
    IndexOfFirst(s, pat, from);
    var r := IndexOf(s, pat, from);
    assert r.Some?;
  }

  lemma ContainsIff<T>(s: seq<T>, pat: seq<T>)
    ensures Contains(s, pat) <==> exists i: nat :: At(s, pat, i)
  {
    IndexOfFirst(s, pat, 0);
  }

  /** An occurrence in a part is an occurrence in the whole. */
  lemma AtWithin<T>(before: seq<T>, s: seq<T>, after: seq<T>, pat: seq<T>, i: nat)
    requires i + |pat| <= |s|
    ensures At(before + s + after, pat, |before| + i) <==> At(s, pat, i)
  {
    assert (before + s + after)[|before| + i..|before| + i + |pat|] == s[i..i + |pat|];
  }
}
