/**
  * The glyph scramble: the characters of a text are mapped to private-use code points in a shuffled order, and the
  * map is inverted to read the text again.
  */
module Scramble {
  import opened Members
  import opened Prelude
  import opened Ratios
  import opened Whitespace

  const PUA_START := 0xE000
  const PUA_SIZE := 6400

  // ---- Shuffling

  function Times(r: real, n: nat): real { r * n as real }

  /** The index drawn below or at `i`; a draw of exactly 1 gives `i + 1`. */
  function Pick(r: real, i: nat): int { Times(r, i + 1).Floor }

  /** The runtime's draws lie between 0 and 1; the keyed ones, quotients by 0xFFFFFFFF, can be 1. */
  ghost predicate AreDraws(draw: nat -> real) { forall k :: 0.0 <= draw(k) <= 1.0 }

  lemma PickRange(r: real, i: nat)
    requires 0.0 <= r <= 1.0
    ensures 0 <= Pick(r, i) <= i + 1 && (r < 1.0 <==> Pick(r, i) <= i)
  {
    hide Times;
    TimesRange(r, i + 1);
    FloorBelow(Times(r, i + 1), i);
  }

  lemma TimesRange(r: real, n: nat)
    requires 0.0 <= r <= 1.0 && n > 0
    ensures 0.0 <= Times(r, n) <= n as real && (r < 1.0 <==> Times(r, n) < n as real)
  {
    Scaled(r, n as real);
  }

  lemma FloorBelow(x: real, i: nat)
    requires 0.0 <= x <= (i + 1) as real
    ensures 0 <= x.Floor <= i + 1 && (x < (i + 1) as real <==> x.Floor <= i)
  {}

  function Swapped<T>(s: seq<T>, i: nat, j: nat): seq<T>
    requires i < |s| && j < |s|
  {
    s[i := s[j]][j := s[i]]
  }

  /** The cells of a list, and the empty one behind its end: a first draw of 1 reads it and makes the list grow into it. */
  function Cells<T>(s: seq<T>): (cells: seq<Option<T>>)
    ensures |cells| == |s| + 1
  {
    seq(|s| + 1, i requires 0 <= i <= |s| => if i < |s| then Some(s[i]) else None)
  }

  /** The rest of the shuffle when the positions above `i` are done; `k` draws are used up. */
  ghost function ShuffledFrom<T>(cells: seq<Option<T>>, draw: nat -> real, i: nat, k: nat): (r: seq<Option<T>>)
    requires AreDraws(draw) && i + 1 < |cells| + (if i == 0 then 1 else 0)
    ensures |r| == |cells|
    decreases i
  {
    if i == 0 then cells
    else
      PickRange(draw(k), i);
      ShuffledFrom(Swapped(cells, i, Pick(draw(k), i)), draw, i - 1, k + 1)
  }

  ghost function Shuffled<T>(s: seq<T>, draw: nat -> real): (r: seq<Option<T>>)
    requires AreDraws(draw)
    ensures |r| == |s| + 1
  {
    ShuffledFrom(Cells(s), draw, if s == [] then 0 else |s| - 1, 0)
  }

  method Shuffle<T>(s: seq<T>, draw: nat -> real) returns (a: array<Option<T>>)
    requires AreDraws(draw)
    ensures fresh(a) && a[..] == Shuffled(s, draw)
  {
    a := new Option<T>[|s| + 1](i requires 0 <= i <= |s| => if i < |s| then Some(s[i]) else None);
    assert a[..] == Cells(s);
    var k := 0;
    var i := |s| - 1;
    while i > 0
      invariant i < |s| && (i >= 0 || s == []) && k == (if i < 0 then 0 else |s| - 1 - i)
      invariant Shuffled(s, draw) == ShuffledFrom(a[..], draw, if i < 0 then 0 else i, k)
    {
      PickRange(draw(k), i);
      var j := Pick(draw(k), i);
      ghost var before := a[..];
      a[i], a[j] := a[j], a[i];
      assert a[..] == Swapped(before, i, j);
      i, k := i - 1, k + 1;
    }
  }

  lemma SwapPermutes<T>(s: seq<T>, i: nat, j: nat)
    requires i < |s| && j < |s|
    ensures multiset(Swapped(s, i, j)) == multiset(s)
  {}

  lemma {:induction false} ShufflePermutes<T>(cells: seq<Option<T>>, draw: nat -> real, i: nat, k: nat)
    requires AreDraws(draw) && i + 1 < |cells| + (if i == 0 then 1 else 0)
    ensures multiset(ShuffledFrom(cells, draw, i, k)) == multiset(cells)
    decreases i
  {
    if i > 0 {
      PickRange(draw(k), i);
      var j := Pick(draw(k), i);
      SwapPermutes(cells, i, j);
      ShufflePermutes(Swapped(cells, i, j), draw, i - 1, k + 1);
    }
  }

  /** The draws from number `k` on that are exactly 1, up to the first other one, of `m` draws at most. */
  function Misses(draw: nat -> real, k: nat, m: nat): (n: nat)
    ensures n <= m
    decreases m
  {
    if m == 0 || draw(k) != 1.0 then 0 else 1 + Misses(draw, k + 1, m - 1)
  }

  lemma {:induction false} MissesMean(draw: nat -> real, k: nat, m: nat, c: nat)
    ensures c <= Misses(draw, k, m) <==> c <= m && forall j :: k <= j < k + c ==> draw(j) == 1.0
    decreases m
  {
    if m > 0 && c > 0 && draw(k) == 1.0 {
      MissesMean(draw, k + 1, m - 1, c - 1);
    }
  }

  lemma {:induction false} Untouched<T>(cells: seq<Option<T>>, draw: nat -> real, i: nat, k: nat, p: nat)
    requires AreDraws(draw) && i + 1 < |cells| && i + 1 < p < |cells|
    ensures ShuffledFrom(cells, draw, i, k)[p] == cells[p]
    decreases i
  {
    if i > 0 {
      PickRange(draw(k), i);
      Untouched(Swapped(cells, i, Pick(draw(k), i)), draw, i - 1, k + 1, p);
    }
  }

  /** Every draw of 1 pulls the hole behind the remaining cells down by one; the first other draw leaves it for good. */
  lemma {:induction false} HoleMoves<T>(cells: seq<Option<T>>, draw: nat -> real, i: nat, k: nat)
    requires AreDraws(draw) && i + 1 < |cells| && cells[i + 1].None?
    ensures ShuffledFrom(cells, draw, i, k)[i + 1 - Misses(draw, k, i)].None?
    decreases i
  {
    if i > 0 {
      PickRange(draw(k), i);
      var next := Swapped(cells, i, Pick(draw(k), i));
      if draw(k) == 1.0 {
        HoleMoves(next, draw, i - 1, k + 1);
      } else {
        Untouched(next, draw, i - 1, k + 1, i + 1);
      }
    }
  }

  /** Where the empty cell of a shuffled list of `n` elements is. */
  function HoleOf(draw: nat -> real, n: nat): (p: nat)
    ensures p <= n && (n > 0 ==> p > 0)
  {
    if n == 0 then 0 else n - Misses(draw, 0, n - 1)
  }

  /**
    * Shuffling only moves elements, and the empty cell behind them: it ends up one cell further down for each draw of 1
    * before the first other one.
    */
  lemma ShuffledIsPermutation<T>(s: seq<T>, draw: nat -> real)
    requires AreDraws(draw)
    ensures multiset(Shuffled(s, draw)) == multiset(Cells(s))
    ensures forall p :: 0 <= p <= |s| ==> (Shuffled(s, draw)[p].None? <==> p == HoleOf(draw, |s|))
  {
    var i: nat := if s == [] then 0 else |s| - 1;
    ShufflePermutes(Cells(s), draw, i, 0);
    if s != [] {
      HoleMoves(Cells(s), draw, i, 0);
    }
    hide ShuffledFrom, Misses;
    OneHole(s, Shuffled(s, draw), HoleOf(draw, |s|));
  }

  lemma OneHole<T>(s: seq<T>, cells: seq<Option<T>>, hole: nat)
    requires multiset(cells) == multiset(Cells(s)) && |cells| == |s| + 1 && hole <= |s| && cells[hole].None?
    ensures forall p :: 0 <= p <= |s| ==> (cells[p].None? <==> p == hole)
  {
    NoneOnce(s);
    forall p | 0 <= p <= |s| && cells[p].None?
      ensures p == hole
    {
      if p < hole {
        Twice(cells, p, hole);
      } else if p > hole {
        Twice(cells, hole, p);
      }
    }
  }

  lemma NoneOnce<T>(s: seq<T>)
    ensures multiset(Cells(s))[None] == 1
  {
    assert Cells(s) == Cells(s)[..|s|] + [None];
    assert None !in Cells(s)[..|s|];
  }

  lemma Twice<T>(cells: seq<Option<T>>, i: nat, j: nat)
    requires i < j < |cells| && cells[i] == cells[j]
    ensures multiset(cells)[cells[i]] >= 2
  {
    assert cells == cells[..i] + [cells[i]] + cells[i + 1..j] + [cells[j]] + cells[j + 1..];
  }

  /** All indices drawn lie in the list if and only if the first draw is below 1: only the first can point behind it. */
  lemma FirstDrawCanMiss(draw: nat -> real, n: nat)
    requires AreDraws(draw) && n > 1
    ensures (forall k :: 0 <= k < n - 1 ==> 0 <= Pick(draw(k), n - 1 - k) < n) <==> draw(0) < 1.0
  {
    hide Pick;
    forall k | 0 <= k < n - 1
      ensures 0 <= Pick(draw(k), n - 1 - k) <= n - k && (draw(k) < 1.0 <==> Pick(draw(k), n - 1 - k) < n - k)
    {
      PickRange(draw(k), n - 1 - k);
    }
    assert Pick(draw(0), n - 1 - 0) < n <==> draw(0) < 1.0;
  }

  // ---- The map

  datatype Options = Options(preserveWhitespace: bool, preserveDigits: bool, preservePunctuation: bool)

  predicate IsDigit(c: char) { '0' <= c <= '9' }

  predicate IsPunctuation(c: char) { c in ".,;:!?()[]{}\"'`-_/\\@#&%*+=<>" }

  predicate ShouldPreserve(c: char, opts: Options) {
    || (opts.preserveWhitespace && IsSpace(c))
    || (opts.preserveDigits && IsDigit(c))
    || (opts.preservePunctuation && IsPunctuation(c))
  }

  /** The characters to map, each once, in order of first occurrence. */
  function UniqueChars(text: string, opts: Options): (cs: string)
    ensures forall c :: c in cs <==> c in text && !ShouldPreserve(c, opts)
    ensures |cs| <= |text|
  {
    if text == "" then ""
    else
      var front, last := UniqueChars(text[..|text| - 1], opts), text[|text| - 1];
      assert text == text[..|text| - 1] + [last];
      if ShouldPreserve(last, opts) || last in front then front else front + [last]
  }

  method CollectUniqueChars(text: string, opts: Options) returns (cs: string)
    ensures cs == UniqueChars(text, opts)
  {
    hide ShouldPreserve;
    var seen: set<char> := {};
    cs := "";
    for i := 0 to |text|
      invariant cs == UniqueChars(text[..i], opts)
      invariant forall c :: c in seen <==> c in cs
    {
      assert text[..i + 1][..i] == text[..i];
      if ShouldPreserve(text[i], opts) {
        continue;
      }
      if text[i] in seen {
        continue;
      }
      seen := seen + {text[i]};
      cs := cs + [text[i]];
    }
    assert text[..|text|] == text;
  }

  lemma {:induction false} UniqueIsDistinct(text: string, opts: Options)
    ensures Distinct(UniqueChars(text, opts))
  {
    hide ShouldPreserve;
    if text != "" {
      UniqueIsDistinct(text[..|text| - 1], opts);
    }
  }

  /** Plain characters with the code points that stand for them. */
  type Entries = seq<(char, char)>

  function Codepoint(i: nat): (c: char)
    requires i < PUA_SIZE
  {
    (PUA_START + i) as char
  }

  function Codepoints(): (cs: string)
    ensures |cs| == PUA_SIZE
  {
    seq(PUA_SIZE, i requires 0 <= i < PUA_SIZE => Codepoint(i))
  }

  predicate IsPrivateUse(c: char) { PUA_START <= c as int < PUA_START + PUA_SIZE }

  function Zipped(plain: string, glyphs: string): (m: Entries)
    requires |plain| <= |glyphs|
    ensures |m| == |plain|
  {
    seq(|plain|, i requires 0 <= i < |plain| => (plain[i], glyphs[i]))
  }

  datatype Failure = TooManyCharacters(count: nat) | InvalidCodePoint

  /** What the first `n` cells hold, if none of them is empty. */
  function Glyphs(cells: seq<Option<char>>, n: nat): (g: string)
    requires n <= |cells| && forall i :: 0 <= i < n ==> cells[i].Some?
    ensures |g| == n
  {
    seq(n, i requires 0 <= i < n => cells[i].value)
  }

  predicate Full(cells: seq<Option<char>>, n: nat)
    requires n <= |cells|
  {
    forall i :: 0 <= i < n ==> cells[i].Some?
  }

  ghost function Generated(text: string, opts: Options, draw: nat -> real): Result<Entries, Failure>
    requires AreDraws(draw)
  {
    var cs, cells := UniqueChars(text, opts), Shuffled(Codepoints(), draw);
    if |cs| > PUA_SIZE then Err(TooManyCharacters(|cs|))
    else if !Full(cells, |cs|) then Err(InvalidCodePoint)
    else Ok(Zipped(cs, Glyphs(cells, |cs|)))
  }

  method GenerateScrambleMap(text: string, opts: Options, draw: nat -> real) returns (r: Result<Entries, Failure>)
    requires AreDraws(draw)
    ensures r == Generated(text, opts, draw)
  {
    hide ShouldPreserve, Shuffled, Codepoint, AreDraws;
    var cs := CollectUniqueChars(text, opts);
    if |cs| > PUA_SIZE {
      return Err(TooManyCharacters(|cs|));
    }
    var codepoints := "";
    for i := 0 to PUA_SIZE
      invariant |codepoints| == i && forall k :: 0 <= k < i ==> codepoints[k] == Codepoint(k)
    {
      codepoints := codepoints + [Codepoint(i)];
    }
    assert codepoints == Codepoints();
    var shuffled := Shuffle(codepoints, draw);
    ghost var cells := shuffled[..];
    var map': Entries := [];
    for i := 0 to |cs|
      invariant shuffled[..] == cells
      invariant |map'| == i && forall k :: 0 <= k < i ==> cells[k].Some? && map'[k] == (cs[k], cells[k].value)
    {
      if shuffled[i].None? {
        assert cells[i].None?;
        return Err(InvalidCodePoint);
      }
      map' := map' + [(cs[i], shuffled[i].value)];
    }
    assert map' == Zipped(cs, Glyphs(cells, |cs|));
    r := Ok(map');
  }

  // ---- Writing and reading

  /** The glyph of a character, by the last entry for it. */
  function GlyphOf(m: Entries, c: char): Option<char> {
    if m == [] then None
    else if m[|m| - 1].0 == c then Some(m[|m| - 1].1)
    else GlyphOf(m[..|m| - 1], c)
  }

  /** The character of a glyph, by the last entry with it. */
  function PlainOf(m: Entries, g: char): Option<char> {
    if m == [] then None
    else if m[|m| - 1].1 == g then Some(m[|m| - 1].0)
    else PlainOf(m[..|m| - 1], g)
  }

  function Written(m: Entries, c: char): char { GlyphOf(m, c).UnwrapOr(c) }

  function Reading(m: Entries, g: char): char { PlainOf(m, g).UnwrapOr(g) }

  function Obfuscated(text: string, m: Entries): (r: string)
    ensures |r| == |text|
  {
    seq(|text|, i requires 0 <= i < |text| => Written(m, text[i]))
  }

  function Deobfuscated(text: string, m: Entries): (r: string)
    ensures |r| == |text|
  {
    seq(|text|, i requires 0 <= i < |text| => Reading(m, text[i]))
  }

  method ObfuscateText(text: string, m: Entries) returns (out: string)
    ensures out == Obfuscated(text, m)
  {
    hide GlyphOf;
    out := "";
    for i := 0 to |text|
      invariant out == Obfuscated(text[..i], m)
    {
      var glyph := GlyphOf(m, text[i]);
      out := out + [if glyph.Some? then glyph.value else text[i]];
    }
    assert text[..|text|] == text;
  }

  method DeobfuscateText(text: string, m: Entries) returns (out: string)
    ensures out == Deobfuscated(text, m)
  {
    var reverse: map<char, char> := map[];
    for i := 0 to |m|
      invariant forall g :: PlainOf(m[..i], g) == if g in reverse then Some(reverse[g]) else None
    {
      assert m[..i + 1][..i] == m[..i];
      reverse := reverse[m[i].1 := m[i].0];
    }
    assert m[..|m|] == m;
    hide PlainOf;
    out := "";
    for i := 0 to |text|
      invariant out == Deobfuscated(text[..i], m)
    {
      assert PlainOf(m, text[i]) == if text[i] in reverse then Some(reverse[text[i]]) else None;
      out := out + [if text[i] in reverse then reverse[text[i]] else text[i]];
    }
    assert text[..|text|] == text;
  }

  // ---- Main results

  /** No two entries share a character or a glyph. */
  ghost predicate OneToOne(m: Entries) {
    forall i, j :: 0 <= i < j < |m| ==> m[i].0 != m[j].0 && m[i].1 != m[j].1
  }

  lemma {:induction false} LookupEntry(m: Entries, k: nat)
    requires OneToOne(m) && k < |m|
    ensures GlyphOf(m, m[k].0) == Some(m[k].1) && PlainOf(m, m[k].1) == Some(m[k].0)
  {
    if k < |m| - 1 {
      LookupEntry(m[..|m| - 1], k);
    }
  }

  lemma {:induction false} LookupMeans(m: Entries, c: char)
    ensures GlyphOf(m, c).Some? <==> exists k :: 0 <= k < |m| && m[k].0 == c
    ensures PlainOf(m, c).Some? <==> exists k :: 0 <= k < |m| && m[k].1 == c
  {
    if m != [] {
      LookupMeans(m[..|m| - 1], c);
      assert m == m[..|m| - 1] + [m[|m| - 1]];
    }
  }

  /** A character survives writing and reading unless it has no glyph but is itself a glyph of another. */
  lemma CharSurvives(m: Entries, c: char)
    requires OneToOne(m)
    ensures Reading(m, Written(m, c)) == c <==> GlyphOf(m, c).Some? || PlainOf(m, c).None?
  {
    LookupMeans(m, c);
    if GlyphOf(m, c).Some? {
      var k :| 0 <= k < |m| && m[k].0 == c;
      LookupEntry(m, k);
    } else if PlainOf(m, c).Some? {
      var k :| 0 <= k < |m| && m[k].1 == c;
      LookupEntry(m, k);
    }
  }

  /** Reading undoes writing exactly for the texts whose unmapped characters are no glyphs of the map. */
  lemma RoundTripIff(m: Entries, text: string)
    requires OneToOne(m)
    ensures Deobfuscated(Obfuscated(text, m), m) == text <==>
            forall i :: 0 <= i < |text| ==> GlyphOf(m, text[i]).Some? || PlainOf(m, text[i]).None?
  {
    hide GlyphOf, PlainOf;
    var back := Deobfuscated(Obfuscated(text, m), m);
    forall i | 0 <= i < |text|
      ensures back[i] == text[i] <==> GlyphOf(m, text[i]).Some? || PlainOf(m, text[i]).None?
    {
      CharSurvives(m, text[i]);
    }
    if back == text {
      assert forall i :: 0 <= i < |text| ==> back[i] == text[i];
    }
  }

  lemma CodepointFacts(i: nat, j: nat)
    requires i < j < PUA_SIZE
    ensures Codepoint(i) != Codepoint(j) && IsPrivateUse(Codepoint(i)) && IsPrivateUse(Codepoint(j))
  {}

  lemma CodepointsDistinct()
    ensures Distinct(Codepoints()) && forall i :: 0 <= i < PUA_SIZE ==> IsPrivateUse(Codepoints()[i])
  {
    forall i, j | 0 <= i < j < PUA_SIZE
      ensures Codepoints()[i] != Codepoints()[j]
    {
      CodepointFacts(i, j);
    }
  }

  /**
    * Generation fails exactly for too many characters, or when so many draws from the first on are exactly 1 that the
    * hole comes to lie among the code points used; one draw below 1 early enough rules that out.
    */
  lemma GenerationFails(text: string, opts: Options, draw: nat -> real)
    requires AreDraws(draw)
    ensures var n, r := |UniqueChars(text, opts)|, Generated(text, opts, draw);
            && (r == Err(TooManyCharacters(n)) <==> n > PUA_SIZE)
            && (r == Err(InvalidCodePoint) <==> 2 <= n <= PUA_SIZE && forall k :: 0 <= k <= PUA_SIZE - n ==> draw(k) == 1.0)
  {
    hide UniqueChars, Codepoints, Shuffled, AreDraws, Misses, Zipped, Glyphs;
    var n := |UniqueChars(text, opts)|;
    if n <= PUA_SIZE {
      ShuffledIsPermutation(Codepoints(), draw);
      var hole := HoleOf(draw, PUA_SIZE);
      var cells := Shuffled(Codepoints(), draw);
      assert Full(cells, n) <==> n <= hole by {
        if hole < n {
          assert cells[hole].None?;
        }
      }
      MissesMean(draw, 0, PUA_SIZE - 1, PUA_SIZE - n + 1);
    }
  }

  /** A generated map is one-to-one, and its glyphs are private-use characters. */
  lemma GeneratedMap(text: string, opts: Options, draw: nat -> real)
    requires AreDraws(draw) && Generated(text, opts, draw).Ok?
    ensures var m := Generated(text, opts, draw).value;
            && OneToOne(m) && (forall i :: 0 <= i < |m| ==> IsPrivateUse(m[i].1))
            && |m| == |UniqueChars(text, opts)| && forall i :: 0 <= i < |m| ==> m[i].0 == UniqueChars(text, opts)[i]
  {
    hide UniqueChars, Codepoints, Shuffled, AreDraws, IsPrivateUse, Distinct, Misses, HoleOf;
    var cs, cells := UniqueChars(text, opts), Shuffled(Codepoints(), draw);
    UniqueIsDistinct(text, opts);
    ShuffledIsPermutation(Codepoints(), draw);
    CodepointsDistinct();
    CellsDistinct(Codepoints());
    hide Cells;
    DistinctCounts(Cells(Codepoints()));
    DistinctCounts(cells);
    SameMembers(cells, Cells(Codepoints()));
    forall i: nat | i < |cs|
      ensures IsPrivateUse(cells[i].value)
    {
      assert cells[i] in cells;
      CellsHold(Codepoints(), cells[i]);
    }
    GlyphsDistinct(cells, |cs|);
    ZippedOneToOne(cs, Glyphs(cells, |cs|));
  }

  lemma CellsDistinct<T>(s: seq<T>)
    requires Distinct(s)
    ensures Distinct(Cells(s))
  {}

  lemma CellsHold<T>(s: seq<T>, c: Option<T>)
    requires c in Cells(s) && c.Some?
    ensures c.value in s
  {}

  lemma GlyphsDistinct(cells: seq<Option<char>>, n: nat)
    requires Distinct(cells) && n <= |cells| && Full(cells, n)
    ensures Distinct(Glyphs(cells, n))
  {
    forall i, j | 0 <= i < j < n
      ensures Glyphs(cells, n)[i] != Glyphs(cells, n)[j]
    {
      assert cells[i] != cells[j];
    }
  }

  lemma ZippedOneToOne(cs: string, glyphs: string)
    requires Distinct(cs) && Distinct(glyphs) && |cs| <= |glyphs|
    ensures OneToOne(Zipped(cs, glyphs))
  {}

  lemma PreservedAreVisible(c: char, opts: Options)
    requires ShouldPreserve(c, opts)
    ensures !IsPrivateUse(c)
  {}

  lemma GlyphsArePrivate(m: Entries, c: char)
    requires (forall i :: 0 <= i < |m| ==> IsPrivateUse(m[i].1)) && !IsPrivateUse(c)
    ensures PlainOf(m, c).None?
  {
    LookupMeans(m, c);
  }

  /** The text a map was generated for is read back exactly, private-use characters of its own included. */
  lemma OwnTextRoundTrip(text: string, opts: Options, draw: nat -> real)
    requires AreDraws(draw) && Generated(text, opts, draw).Ok?
    ensures var m := Generated(text, opts, draw).value;
            Deobfuscated(Obfuscated(text, m), m) == text
  {
    hide Generated, IsPrivateUse, GlyphOf, PlainOf, ShouldPreserve, Obfuscated, Deobfuscated;
    GeneratedMap(text, opts, draw);
    var cs := UniqueChars(text, opts);
    var m := Generated(text, opts, draw).value;
    forall i | 0 <= i < |text|
      ensures GlyphOf(m, text[i]).Some? || PlainOf(m, text[i]).None?
    {
      assert text[i] in text;
      if ShouldPreserve(text[i], opts) {
        PreservedAreVisible(text[i], opts);
        GlyphsArePrivate(m, text[i]);
      } else {
        var k :| 0 <= k < |cs| && cs[k] == text[i];
        assert m[k].0 == text[i];
        LookupMeans(m, text[i]);
      }
    }
    RoundTripIff(m, text);
  }

  // ---- Characters by code point

  /** The private-use area of the basic plane, all of it. */
  lemma PrivateUseMeans(c: char)
    ensures IsPrivateUse(c) <==> 0xE000 <= c as int <= 0xF8FF
    ensures PUA_SIZE == 0xF8FF - 0xE000 + 1 == 6400
  {}

  /** The code points to shuffle, in order. */
  lemma CodepointsAre(i: nat)
    requires i < 6400
    ensures Codepoints()[i] as int == 0xE000 + i && |Codepoints()| == 6400
  {}

  /** What is preserved: white space, digits and ASCII punctuation, as far as the options ask for it. */
  lemma PreservedMeans(c: char, opts: Options)
    ensures var n := c as int;
            ShouldPreserve(c, opts) <==>
            || (opts.preserveWhitespace && IsSpace(c))
            || (opts.preserveDigits && 48 <= n && n <= 57)
            || (opts.preservePunctuation && (n == 33 || n == 34 || n == 35 || 37 <= n <= 47 || n == 58 || n == 59 || 60 <= n <= 64
                                             || 91 <= n <= 93 || n == 95 || n == 96 || n == 123 || n == 125))
  {
    PunctuationIs(c);
    hide IsPunctuation, IsSpace;
  }

  lemma PunctuationIs(c: char)
    ensures IsPunctuation(c) <==>
            var n := c as int;
            n == 33 || n == 34 || n == 35 || 37 <= n <= 47 || n == 58 || n == 59 || 60 <= n <= 64
            || 91 <= n <= 93 || n == 95 || n == 96 || n == 123 || n == 125
  {}
}
