/**
  * The word diff: a longest-common-subsequence table with a backtrace, and the positional comparison used
  * beyond 800 tokens.
  */
module WordDiff {
  import opened Members
  import opened Ratios

  datatype Op = Equal | Add | Remove

  datatype Entry<T> = Entry(op: Op, text: T)

  datatype DiffResult<T> = DiffResult(entries: seq<Entry<T>>, added: nat, removed: nat, kept: nat, similarity: real)

  const MAX_DP := 800

  // ---- What an entry list says

  /** The texts of the entries that are not of kind `skip`. */
  function Texts<T>(entries: seq<Entry<T>>, skip: Op): seq<T> {
    if entries == [] then []
    else (if entries[0].op == skip then [] else [entries[0].text]) + Texts(entries[1..], skip)
  }

  function Count<T>(entries: seq<Entry<T>>, op: Op): nat {
    if entries == [] then 0 else (if entries[0].op == op then 1 else 0) + Count(entries[1..], op)
  }

  /** Equal and removed entries spell the left side, equal and added ones the right side. */
  ghost predicate Spells<T>(entries: seq<Entry<T>>, a: seq<T>, b: seq<T>) {
    Texts(entries, Add) == a && Texts(entries, Remove) == b
  }

  function Reverse<T>(s: seq<T>): seq<T> {
    if s == [] then [] else [s[|s| - 1]] + Reverse(s[..|s| - 1])
  }

  lemma {:induction false} TextsConcat<T>(x: seq<Entry<T>>, y: seq<Entry<T>>, skip: Op)
    ensures Texts(x + y, skip) == Texts(x, skip) + Texts(y, skip)
  {
    if x == [] {
      assert x + y == y;
    } else {
      assert (x + y)[1..] == x[1..] + y;
      TextsConcat(x[1..], y, skip);
    }
  }

  lemma {:induction false} CountConcat<T>(x: seq<Entry<T>>, y: seq<Entry<T>>, op: Op)
    ensures Count(x + y, op) == Count(x, op) + Count(y, op)
  {
    if x == [] {
      assert x + y == y;
    } else {
      assert (x + y)[1..] == x[1..] + y;
      CountConcat(x[1..], y, op);
    }
  }

  lemma {:induction false} SpelledLengths<T>(entries: seq<Entry<T>>)
    ensures |Texts(entries, Add)| == Count(entries, Equal) + Count(entries, Remove)
    ensures |Texts(entries, Remove)| == Count(entries, Equal) + Count(entries, Add)
    ensures |entries| == Count(entries, Equal) + Count(entries, Add) + Count(entries, Remove)
  {
    if entries != [] {
      SpelledLengths(entries[1..]);
    }
  }

  // ---- Common subsequences

  ghost predicate Subsequence<T>(s: seq<T>, t: seq<T>)
    decreases |t|
  {
    if s == [] then true
    else if t == [] then false
    else
      || (s[|s| - 1] == t[|t| - 1] && Subsequence(s[..|s| - 1], t[..|t| - 1]))
      || Subsequence(s, t[..|t| - 1])
  }

  ghost predicate Common<T>(s: seq<T>, a: seq<T>, b: seq<T>) {
    Subsequence(s, a) && Subsequence(s, b)
  }

  /** The recurrence of the table. */
  function Lcs<T(==)>(a: seq<T>, b: seq<T>): nat
    decreases |a| + |b|
  {
    if a == [] || b == [] then 0
    else
      var m, n := |a| - 1, |b| - 1;
      if a[m] == b[n] then Lcs(a[..m], b[..n]) + 1
      else if Lcs(a[..m], b) >= Lcs(a, b[..n]) then Lcs(a[..m], b)
      else Lcs(a, b[..n])
  }

  lemma {:induction false} SubsequenceShorter<T>(s: seq<T>, t: seq<T>)
    requires s != [] && Subsequence(s, t)
    ensures t != [] && Subsequence(s[..|s| - 1], t[..|t| - 1])
    decreases |t|
  {
    var t' := t[..|t| - 1];
    if !(s[|s| - 1] == t[|t| - 1] && Subsequence(s[..|s| - 1], t')) {
      SubsequenceShorter(s, t');
      SubsequenceLonger(s[..|s| - 1], t'[..|t'| - 1], t'[|t'| - 1]);
      assert t' == t'[..|t'| - 1] + [t'[|t'| - 1]];
    }
  }

  lemma SubsequenceLonger<T>(s: seq<T>, t: seq<T>, x: T)
    requires Subsequence(s, t)
    ensures Subsequence(s, t + [x])
  {
    assert (t + [x])[..|t|] == t;
  }

  lemma SubsequenceExtends<T>(s: seq<T>, t: seq<T>, x: T)
    requires Subsequence(s, t)
    ensures Subsequence(s + [x], t + [x])
  {
    assert (s + [x])[..|s|] == s && (t + [x])[..|t|] == t;
  }

  /** No common subsequence is longer than the recurrence says. */
  lemma {:induction false} CommonAtMostLcs<T>(s: seq<T>, a: seq<T>, b: seq<T>)
    requires Common(s, a, b)
    ensures |s| <= Lcs(a, b)
    decreases |a| + |b|
  {
    if s != [] {
      SubsequenceShorter(s, a);
      SubsequenceShorter(s, b);
      var m, n := |a| - 1, |b| - 1;
      if a[m] == b[n] {
        CommonAtMostLcs(s[..|s| - 1], a[..m], b[..n]);
      } else if Subsequence(s, a[..m]) {
        CommonAtMostLcs(s, a[..m], b);
      } else {
        CommonAtMostLcs(s, a, b[..n]);
      }
    }
  }

  /** The kept texts of any correct diff are a common subsequence, so no diff keeps more than the longest one. */
  function Kept<T>(entries: seq<Entry<T>>): seq<T> {
    if entries == [] then []
    else Kept(entries[..|entries| - 1])
         + (if entries[|entries| - 1].op == Equal then [entries[|entries| - 1].text] else [])
  }

  lemma {:induction false} KeptIsCommon<T>(entries: seq<Entry<T>>)
    ensures Common(Kept(entries), Texts(entries, Add), Texts(entries, Remove))
    ensures |Kept(entries)| == Count(entries, Equal)
  {
    if entries != [] {
      var n := |entries| - 1;
      var init, e := entries[..n], entries[n];
      assert entries == init + [e];
      KeptIsCommon(init);
      TextsConcat(init, [e], Add);
      TextsConcat(init, [e], Remove);
      CountConcat(init, [e], Equal);
      OneMoreKept(Kept(init), Texts(init, Add), Texts(init, Remove), e);
    }
  }

  lemma OneMoreKept<T>(k: seq<T>, l: seq<T>, r: seq<T>, e: Entry<T>)
    requires Common(k, l, r)
    ensures Common(k + (if e.op == Equal then [e.text] else []), l + Texts([e], Add), r + Texts([e], Remove))
  {
    assert k + [] == k && l + [] == l && r + [] == r;
    SubsequenceLonger(k, l, e.text);
    SubsequenceLonger(k, r, e.text);
    SubsequenceExtends(k, l, e.text);
    SubsequenceExtends(k, r, e.text);
  }

  lemma NoDiffKeepsMore<T>(entries: seq<Entry<T>>, a: seq<T>, b: seq<T>)
    requires Spells(entries, a, b)
    ensures Count(entries, Equal) <= Lcs(a, b)
  {
    KeptIsCommon(entries);
    CommonAtMostLcs(Kept(entries), a, b);
  }

  // ---- The code

  function Similarity(added: nat, removed: nat, kept: nat): real {
    var denom := added + removed + kept;
    if denom == 0 then 1.0 else kept as real / denom as real
  }

  ghost predicate Summarizes<T>(r: DiffResult<T>) {
    && r.added == Count(r.entries, Add)
    && r.removed == Count(r.entries, Remove)
    && r.kept == Count(r.entries, Equal)
    && r.similarity == Similarity(r.added, r.removed, r.kept)
  }

  method Summarize<T>(entries: seq<Entry<T>>) returns (r: DiffResult<T>)
    ensures r.entries == entries && Summarizes(r)
  {
    var added, removed, kept := 0, 0, 0;
    for k := 0 to |entries|
      invariant added == Count(entries[..k], Add)
      invariant removed == Count(entries[..k], Remove)
      invariant kept == Count(entries[..k], Equal)
    {
      var e := entries[k];
      assert entries[..k + 1] == entries[..k] + [e];
      CountConcat(entries[..k], [e], Add);
      CountConcat(entries[..k], [e], Remove);
      CountConcat(entries[..k], [e], Equal);
      match e.op {
        case Add => added := added + 1;
        case Remove => removed := removed + 1;
        case Equal => kept := kept + 1;
      }
    }
    assert entries[..|entries|] == entries;
    r := DiffResult(entries, added, removed, kept, Similarity(added, removed, kept));
  }

  ghost function Cell<T>(a: seq<T>, b: seq<T>, i: nat, j: nat): nat
    requires i <= |a| && j <= |b|
  {
    Lcs(a[..i], b[..j])
  }

  lemma EdgeCells<T>(a: seq<T>, b: seq<T>, i: nat, j: nat)
    requires i <= |a| && j <= |b|
    ensures Cell(a, b, 0, j) == 0 && Cell(a, b, i, 0) == 0
  {}

  lemma NextCell<T>(a: seq<T>, b: seq<T>, i: nat, j: nat)
    requires i < |a| && j < |b|
    ensures Cell(a, b, i + 1, j + 1) ==
            if a[i] == b[j] then Cell(a, b, i, j) + 1
            else if Cell(a, b, i, j + 1) >= Cell(a, b, i + 1, j) then Cell(a, b, i, j + 1)
            else Cell(a, b, i + 1, j)
  {
    var p, q := a[..i + 1], b[..j + 1];
    assert p[..i] == a[..i] && q[..j] == b[..j] && p[i] == a[i] && q[j] == b[j];
  }

  /** `dp[i, j]` is the longest common subsequence of the first `i` and the first `j` tokens. */
  ghost predicate IsTable<T(!new)>(dp: array2<nat>, a: seq<T>, b: seq<T>)
    reads dp
  {
    && dp.Length0 == |a| + 1 && dp.Length1 == |b| + 1
    && forall i, j :: 0 <= i <= |a| && 0 <= j <= |b| ==> dp[i, j] == Cell(a, b, i, j)
  }

  method FillTable<T(==, !new)>(a: seq<T>, b: seq<T>) returns (dp: array2<nat>)
    ensures fresh(dp) && IsTable(dp, a, b)
  {
    hide Cell;
    var m, n := |a|, |b|;
    dp := new nat[m + 1, n + 1]((i, j) => 0);
    forall j | 0 <= j <= n
      ensures Cell(a, b, 0, j) == 0
    {
      EdgeCells(a, b, 0, j);
    }
    for i := 1 to m + 1
      invariant forall i', j :: 0 <= i' < i && 0 <= j <= n ==> dp[i', j] == Cell(a, b, i', j)
      invariant forall i' :: i <= i' <= m ==> dp[i', 0] == 0
    {
      EdgeCells(a, b, i, 0);
      for j := 1 to n + 1
        invariant forall i', j' :: 0 <= i' < i && 0 <= j' <= n ==> dp[i', j'] == Cell(a, b, i', j')
        invariant forall j' :: 0 <= j' < j ==> dp[i, j'] == Cell(a, b, i, j')
        invariant forall i' :: i < i' <= m ==> dp[i', 0] == 0
      {
        NextCell(a, b, i - 1, j - 1);
        if a[i - 1] == b[j - 1] {
          dp[i, j] := dp[i - 1, j - 1] + 1;
        } else {
          dp[i, j] := if dp[i - 1, j] >= dp[i, j - 1] then dp[i - 1, j] else dp[i, j - 1];
        }
      }
    }
  }

  lemma ReversePush<T>(s: seq<T>, x: T)
    ensures Reverse(s + [x]) == [x] + Reverse(s)
  {
    assert (s + [x])[..|s|] == s;
  }

  /** The state of the backtrace: the entries so far, reversed, cover everything from `i` and `j` on. */
  ghost predicate Traced<T>(entries: seq<Entry<T>>, a: seq<T>, b: seq<T>, i: nat, j: nat) {
    && i <= |a| && j <= |b|
    && Spells(Reverse(entries), a[i..], b[j..])
    && Count(Reverse(entries), Equal) + Cell(a, b, i, j) == Lcs(a, b)
  }

  lemma TracePush<T>(entries: seq<Entry<T>>, e: Entry<T>, a: seq<T>, b: seq<T>, i: nat, j: nat)
    requires Traced(entries, a, b, i, j)
    requires e.op == Equal ==> i > 0 && j > 0 && e.text == a[i - 1] == b[j - 1] && Cell(a, b, i, j) == Cell(a, b, i - 1, j - 1) + 1
    requires e.op == Remove ==> i > 0 && e.text == a[i - 1] && Cell(a, b, i, j) == Cell(a, b, i - 1, j)
    requires e.op == Add ==> j > 0 && e.text == b[j - 1] && Cell(a, b, i, j) == Cell(a, b, i, j - 1)
    ensures Traced(entries + [e], a, b, if e.op == Add then i else i - 1, if e.op == Remove then j else j - 1)
  {
    hide Cell, Lcs, Texts, Count, Reverse;
    ReversePush(entries, e);
    FirstEntry(e, Reverse(entries));
    if e.op != Add {
      assert a[i - 1..] == [a[i - 1]] + a[i..];
    }
    if e.op != Remove {
      assert b[j - 1..] == [b[j - 1]] + b[j..];
    }
  }

  lemma FirstEntry<T>(e: Entry<T>, rest: seq<Entry<T>>)
    ensures Texts([e] + rest, Add) == if e.op == Add then Texts(rest, Add) else [e.text] + Texts(rest, Add)
    ensures Texts([e] + rest, Remove) == if e.op == Remove then Texts(rest, Remove) else [e.text] + Texts(rest, Remove)
    ensures Count([e] + rest, Equal) == (if e.op == Equal then 1 else 0) + Count(rest, Equal)
  {
    assert ([e] + rest)[1..] == rest;
  }

  lemma TraceStarts<T>(a: seq<T>, b: seq<T>)
    ensures Traced([], a, b, |a|, |b|)
  {
    assert a[..|a|] == a && b[..|b|] == b;
  }

  method Backtrace<T(==, !new)>(dp: array2<nat>, a: seq<T>, b: seq<T>) returns (entries: seq<Entry<T>>)
    requires IsTable(dp, a, b)
    ensures Spells(entries, a, b) && Count(entries, Equal) == Lcs(a, b)
  {
    hide Cell;
    hide Spells;
    hide Traced;
    var i: nat, j: nat := |a|, |b|;
    entries := [];
    TraceStarts(a, b);
    while i > 0 && j > 0
      invariant i <= |a| && j <= |b|
      invariant Traced(entries, a, b, i, j)
    {
      NextCell(a, b, i - 1, j - 1);
      if a[i - 1] == b[j - 1] {
        TracePush(entries, Entry(Equal, a[i - 1]), a, b, i, j);
        entries := entries + [Entry(Equal, a[i - 1])];
        i, j := i - 1, j - 1;
      } else if dp[i - 1, j] >= dp[i, j - 1] {
        TracePush(entries, Entry(Remove, a[i - 1]), a, b, i, j);
        entries := entries + [Entry(Remove, a[i - 1])];
        i := i - 1;
      } else {
        TracePush(entries, Entry(Add, b[j - 1]), a, b, i, j);
        entries := entries + [Entry(Add, b[j - 1])];
        j := j - 1;
      }
    }
    while i > 0
      invariant i <= |a| && j <= |b| && (i == 0 || j == 0)
      invariant Traced(entries, a, b, i, j)
    {
      EdgeCells(a, b, i, j);
      EdgeCells(a, b, i - 1, j);
      TracePush(entries, Entry(Remove, a[i - 1]), a, b, i, j);
      entries := entries + [Entry(Remove, a[i - 1])];
      i := i - 1;
    }
    while j > 0
      invariant i == 0 && j <= |b|
      invariant Traced(entries, a, b, i, j)
    {
      EdgeCells(a, b, i, j);
      EdgeCells(a, b, i, j - 1);
      TracePush(entries, Entry(Add, b[j - 1]), a, b, i, j);
      entries := entries + [Entry(Add, b[j - 1])];
      j := j - 1;
    }
    TraceEnds(entries, a, b);
    entries := Reverse(entries);
  }

  lemma TraceEnds<T>(entries: seq<Entry<T>>, a: seq<T>, b: seq<T>)
    requires Traced(entries, a, b, 0, 0)
    ensures Spells(Reverse(entries), a, b) && Count(Reverse(entries), Equal) == Lcs(a, b)
  {
    EdgeCells(a, b, 0, 0);
    assert a[0..] == a && b[0..] == b;
  }

  /** Equal tokens at equal positions. */
  function SamePlaces<T(==)>(a: seq<T>, b: seq<T>): nat {
    if a == [] || b == [] then 0 else (if a[0] == b[0] then 1 else 0) + SamePlaces(a[1..], b[1..])
  }

  function Positional<T(==)>(a: seq<T>, b: seq<T>): seq<Entry<T>>
    decreases |a| + |b|
  {
    if a != [] && b != [] then
      (if a[0] == b[0] then [Entry(Equal, a[0])] else [Entry(Remove, a[0]), Entry(Add, b[0])]) + Positional(a[1..], b[1..])
    else if a != [] then [Entry(Remove, a[0])] + Positional(a[1..], b)
    else if b != [] then [Entry(Add, b[0])] + Positional(a, b[1..])
    else []
  }

  lemma {:induction false} PositionalSpells<T>(a: seq<T>, b: seq<T>)
    ensures Spells(Positional(a, b), a, b) && Count(Positional(a, b), Equal) == SamePlaces(a, b)
    decreases |a| + |b|
  {
    if a != [] && b != [] {
      PositionalSpells(a[1..], b[1..]);
      var rest := Positional(a[1..], b[1..]);
      if a[0] != b[0] {
        TextsConcat([Entry(Remove, a[0]), Entry(Add, b[0])], rest, Add);
        TextsConcat([Entry(Remove, a[0]), Entry(Add, b[0])], rest, Remove);
        CountConcat([Entry(Remove, a[0]), Entry(Add, b[0])], rest, Equal);
      }
    } else if a != [] {
      PositionalSpells(a[1..], b);
    } else if b != [] {
      PositionalSpells(a, b[1..]);
    }
  }

  /** What is left of `s` from `k` on. */
  function From<T>(s: seq<T>, k: nat): seq<T> {
    if k <= |s| then s[k..] else []
  }

  function EntriesAt<T(==)>(a: seq<T>, b: seq<T>, k: nat): seq<Entry<T>> {
    if k < |a| && k < |b| then
      if a[k] == b[k] then [Entry(Equal, a[k])] else [Entry(Remove, a[k]), Entry(Add, b[k])]
    else if k < |a| then [Entry(Remove, a[k])]
    else if k < |b| then [Entry(Add, b[k])]
    else []
  }

  lemma PositionalStep<T>(a: seq<T>, b: seq<T>, k: nat)
    ensures Positional(From(a, k), From(b, k)) == EntriesAt(a, b, k) + Positional(From(a, k + 1), From(b, k + 1))
  {
    assert k < |a| ==> From(a, k)[1..] == From(a, k + 1);
    assert k < |b| ==> From(b, k)[1..] == From(b, k + 1);
  }

  method PositionalDiff<T(==)>(a: seq<T>, b: seq<T>) returns (entries: seq<Entry<T>>)
    ensures entries == Positional(a, b)
  {
    hide Positional;
    hide From;
    var max := if |a| >= |b| then |a| else |b|;
    entries := [];
    AllLeft(a);
    AllLeft(b);
    assert entries + Positional(a, b) == Positional(a, b);
    for k := 0 to max
      invariant entries + Positional(From(a, k), From(b, k)) == Positional(a, b)
    {
      PositionalStep(a, b, k);
      ghost var before, rest := entries, Positional(From(a, k + 1), From(b, k + 1));
      if k < |a| && k < |b| {
        if a[k] == b[k] {
          entries := entries + [Entry(Equal, a[k])];
        } else {
          entries := entries + [Entry(Remove, a[k])];
          entries := entries + [Entry(Add, b[k])];
        }
      } else if k < |a| {
        entries := entries + [Entry(Remove, a[k])];
      } else if k < |b| {
        entries := entries + [Entry(Add, b[k])];
      }
      assert entries == before + EntriesAt(a, b, k);
      Regroup(before, EntriesAt(a, b, k), rest);
    }
    NothingLeft(a, b, max);
  }

  lemma AllLeft<T>(s: seq<T>)
    ensures From(s, 0) == s
  {}

  lemma NothingLeft<T>(a: seq<T>, b: seq<T>, k: nat)
    requires |a| <= k && |b| <= k
    ensures Positional(From(a, k), From(b, k)) == []
  {}

  method DiffWords<T(==, !new)>(a: seq<T>, b: seq<T>) returns (r: DiffResult<T>)
    ensures Summarizes(r) && Spells(r.entries, a, b)
    ensures |a| <= 800 && |b| <= 800 ==> r.kept == Lcs(a, b)
    ensures |a| > 800 || |b| > 800 ==> r.kept == SamePlaces(a, b) <= Lcs(a, b)
    ensures r.similarity == 1.0 <==> a == b
  {
    hide Positional;
    hide Lcs;
    hide Spells;
    var entries;
    if |a| > MAX_DP || |b| > MAX_DP {
      entries := PositionalDiff(a, b);
      PositionalSpells(a, b);
      NoDiffKeepsMore(entries, a, b);
    } else {
      var dp := FillTable(a, b);
      entries := Backtrace(dp, a, b);
    }
    r := Summarize(entries);
    SameIsKept(a, b);
    SimilarityOne(r, a, b);
  }

  // ---- What the summary says

  lemma {:induction false} SameIsKept<T>(a: seq<T>, b: seq<T>)
    ensures a == b ==> Lcs(a, b) == |a| == SamePlaces(a, b)
    decreases |a|
  {
    if a == b && a != [] {
      SameIsKept(a[..|a| - 1], b[..|b| - 1]);
      SamePlacesOfSame(a);
    }
  }

  lemma {:induction false} SamePlacesOfSame<T>(a: seq<T>)
    ensures SamePlaces(a, a) == |a|
  {
    if a != [] {
      SamePlacesOfSame(a[1..]);
    }
  }

  /** The counts add up to the two lengths and the similarity is a fraction. */
  lemma SummaryLaws<T>(r: DiffResult<T>, a: seq<T>, b: seq<T>)
    requires Summarizes(r) && Spells(r.entries, a, b)
    ensures r.kept + r.removed == |a| && r.kept + r.added == |b|
    ensures 0.0 <= r.similarity <= 1.0
    ensures r.similarity == 1.0 <==> r.added == 0 && r.removed == 0
  {
    SpelledLengths(r.entries);
    var denom := r.added + r.removed + r.kept;
    if denom > 0 {
      QuotientRange(r.kept, denom);
    }
  }

  lemma SimilarityOne<T>(r: DiffResult<T>, a: seq<T>, b: seq<T>)
    requires Summarizes(r) && Spells(r.entries, a, b) && (a == b ==> r.kept == |a|)
    ensures r.similarity == 1.0 <==> a == b
  {
    SummaryLaws(r, a, b);
    if r.similarity == 1.0 {
      OnlyEqualsAgree(r.entries);
    }
  }

  lemma {:induction false} OnlyEqualsAgree<T>(entries: seq<Entry<T>>)
    requires Count(entries, Add) == 0 && Count(entries, Remove) == 0
    ensures Texts(entries, Add) == Texts(entries, Remove)
  {
    if entries != [] {
      OnlyEqualsAgree(entries[1..]);
    }
  }

  /** A diff that keeps a longest common subsequence changes no more tokens than any other correct diff. */
  lemma LongestChangesLeast<T>(entries: seq<Entry<T>>, other: seq<Entry<T>>, a: seq<T>, b: seq<T>)
    requires Spells(entries, a, b) && Spells(other, a, b) && Count(entries, Equal) == Lcs(a, b)
    ensures Count(entries, Add) <= Count(other, Add) && Count(entries, Remove) <= Count(other, Remove)
  {
    SpelledLengths(entries);
    SpelledLengths(other);
    NoDiffKeepsMore(other, a, b);
  }

  /** The recurrence is attained: it is the greatest length of a common subsequence. */
  lemma {:induction false} LcsAttained<T>(a: seq<T>, b: seq<T>) returns (s: seq<T>)
    ensures Common(s, a, b) && |s| == Lcs(a, b)
    decreases |a| + |b|
  {
    if a == [] || b == [] {
      s := [];
    } else {
      var m, n := |a| - 1, |b| - 1;
      assert a == a[..m] + [a[m]] && b == b[..n] + [b[n]];
      if a[m] == b[n] {
        s := LcsAttained(a[..m], b[..n]);
        SubsequenceExtends(s, a[..m], a[m]);
        SubsequenceExtends(s, b[..n], b[n]);
        s := s + [a[m]];
      } else if Lcs(a[..m], b) >= Lcs(a, b[..n]) {
        s := LcsAttained(a[..m], b);
        SubsequenceLonger(s, a[..m], a[m]);
      } else {
        s := LcsAttained(a, b[..n]);
        SubsequenceLonger(s, b[..n], b[n]);
      }
    }
  }
}
