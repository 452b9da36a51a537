/** The scorers that compare the homoglyph and zero-width channels of a suspect text with what a client would get. */
module ChannelScores {
  import opened Members
  import opened Prelude
  import opened Homoglyph
  import opened KeyedBits
  import opened ZeroWidth
  import opened MultiLayer
  import opened Ranking
  import opened Ratios
  import Synonyms

  datatype HomoglyphScore = HomoglyphScore(matched: nat, total: nat, score: real, observed: nat)

  /** A score of None is the quotient 0/0. */
  datatype ZeroWidthScore = ZeroWidthScore(matched: nat, total: nat, score: Option<real>, present: bool)

  // ---- Homoglyph channel

  /** The harmonic mean of precision and recall. */
  function F1(hits: nat, expected: nat, observed: nat): real
    requires hits <= expected && hits <= observed
  {
    if hits == 0 then 0.0
    else
      var precision, recall := hits as real / observed as real, hits as real / expected as real;
      2.0 * precision * recall / (precision + recall)
  }

  /** F1 is the share of hits among all marks of both sides, counted twice. */
  lemma F1Is(hits: nat, expected: nat, observed: nat)
    requires 0 < hits <= expected && hits <= observed
    ensures F1(hits, expected, observed) * ((expected + observed) as real) == (2 * hits) as real
  {
    var t, e, o := hits as real, expected as real, observed as real;
    var p, r := t / o, t / e;
    assert p * o == t && r * e == t && p > 0.0 && r > 0.0;
    var f := 2.0 * p * r / (p + r);
    assert f * (p + r) == 2.0 * p * r;
    CrossF1(f, p, r, t, e, o);
  }

  lemma CrossF1(f: real, p: real, r: real, t: real, e: real, o: real)
    requires t > 0.0 && e > 0.0 && o > 0.0 && p > 0.0 && r > 0.0
    requires p * o == t && r * e == t && f * (p + r) == 2.0 * p * r
    ensures f * (e + o) == 2.0 * t
  {
    calc {
      f * (p + r) * (e * o);
      f * ((p * o) * e + (r * e) * o);
      f * (t * e + t * o);
      f * (e + o) * t;
    }
    calc {
      2.0 * p * r * (e * o);
      2.0 * (p * o) * (r * e);
      2.0 * t * t;
    }
    assert (f * (e + o) - 2.0 * t) * t == 0.0;
  }

  /** It is a score between 0 and 1, and it is 1 exactly for two equal nonempty sides. */
  lemma F1Range(hits: nat, expected: nat, observed: nat)
    requires hits <= expected && hits <= observed
    ensures 0.0 <= F1(hits, expected, observed) <= 1.0
    ensures F1(hits, expected, observed) == 1.0 <==> 0 < hits == expected == observed
  {
    if hits > 0 {
      F1Is(hits, expected, observed);
      Quotient(F1(hits, expected, observed), (2 * hits) as real, (expected + observed) as real);
    }
  }

  lemma Quotient(f: real, part: real, whole: real)
    requires 0.0 < part <= whole && f * whole == part
    ensures 0.0 < f <= 1.0 && (f == 1.0 <==> part == whole)
  {
    assert f == part / whole;
    RatioRange(part, whole);
    Scaled(f, whole);
  }

  /** The carriers of the canonical text that the suspect shows as twins. */
  function Observed(chars: string, carriers: seq<nat>): set<nat> {
    set p | p in carriers && p < |chars| && IsTwin(chars[p])
  }

  function ScoreHomoglyphs(mac: Mac, c: Client, suspect: string, density: real): HomoglyphScore {
    var chars := Visible(suspect);
    var carriers := Carriers(StripTwins(chars));
    if carriers == [] then HomoglyphScore(0, 0, 0.0, 0)
    else
      var expected := Elements(ChosenPositions(mac, c, carriers, density));
      var observed := Observed(chars, carriers);
      SubsetSizes(expected, observed);
      HomoglyphScore(|expected * observed|, |expected|, F1(|expected * observed|, |expected|, |observed|), |observed|)
  }

  lemma SubsetSize<T>(a: set<T>, b: set<T>)
    requires a <= b
    ensures |a| <= |b| && (|a| == |b| ==> a == b)
  {
    assert b == a + (b - a);
    assert |b| == |a| + |b - a|;
  }

  lemma SubsetSizes<T>(a: set<T>, b: set<T>)
    ensures |a * b| <= |a| && |a * b| <= |b|
  {
    SubsetSize(a * b, a);
    SubsetSize(a * b, b);
  }

  method CollectObserved(chars: string, carriers: seq<nat>) returns (observed: set<nat>)
    requires forall p :: p in carriers ==> p < |chars|
    ensures observed == Observed(chars, carriers)
  {
    hide IsTwin;
    observed := {};
    for i := 0 to |carriers|
      invariant observed == Observed(chars, carriers[..i])
    {
      assert carriers[i] in carriers;
      assert carriers[..i + 1] == carriers[..i] + [carriers[i]];
      if IsTwin(chars[carriers[i]]) {
        observed := observed + {carriers[i]};
      }
    }
    assert carriers[..|carriers|] == carriers;
  }

  method CountHits(expected: seq<nat>, observed: set<nat>) returns (hits: nat)
    requires Distinct(expected)
    ensures hits == |Elements(expected) * observed|
  {
    hide Distinct;
    hits := 0;
    for k := 0 to |expected|
      invariant hits == |Elements(expected[..k]) * observed|
    {
      HitsNext(expected, observed, k);
      if expected[k] in observed {
        hits := hits + 1;
      }
    }
    assert expected[..|expected|] == expected;
  }

  lemma HitsNext(expected: seq<nat>, observed: set<nat>, k: nat)
    requires Distinct(expected) && k < |expected|
    ensures |Elements(expected[..k + 1]) * observed| ==
            |Elements(expected[..k]) * observed| + (if expected[k] in observed then 1 else 0)
  {
    var before, after := Elements(expected[..k]) * observed, Elements(expected[..k + 1]) * observed;
    assert expected[..k + 1] == expected[..k] + [expected[k]];
    assert expected[k] !in expected[..k];
    assert after == before + (if expected[k] in observed then {expected[k]} else {});
  }

  method ScoreHomoglyphChannel(mac: Mac, c: Client, suspect: string, density: real) returns (r: HomoglyphScore)
    ensures r == ScoreHomoglyphs(mac, c, suspect, density)
  {
    hide IsTwin, ToLatin, Carriers, ChosenPositions, F1, Visible, StripTwins, Distinct, Observed;
    var chars := StripZeroWidth(suspect);
    var canonical := StripHomoglyphs(chars);
    var carriers := CollectCarriers(canonical);
    if |carriers| == 0 {
      return HomoglyphScore(0, 0, 0.0, 0);
    }
    CarriersAre(canonical);
    var expected := ChosenPositions(mac, c, carriers, density);
    ChosenAreCarriers(mac, c, canonical, density);
    var observed := CollectObserved(chars, carriers);
    var hits := CountHits(expected, observed);
    SubsetSizes(Elements(expected), observed);
    var score := F1(hits, |expected|, |observed|);
    r := HomoglyphScore(hits, |expected|, score, |observed|);
  }

  /** The score is 1 exactly when the suspect shows the client's flipped letters and no others. */
  lemma PerfectHomoglyphs(mac: Mac, c: Client, suspect: string, density: real)
    ensures var r := ScoreHomoglyphs(mac, c, suspect, density);
            var carriers := Carriers(StripTwins(Visible(suspect)));
            && 0.0 <= r.score <= 1.0
            && (r.score == 1.0 <==> carriers != [] && Observed(Visible(suspect), carriers) == Selected(mac, c, carriers, density))
  {
    hide Carriers, F1, ChosenPositions, Visible, StripTwins, IsTwin;
    var chars := Visible(suspect);
    var carriers := Carriers(StripTwins(chars));
    if carriers != [] {
      var expected, observed := Selected(mac, c, carriers, density), Observed(chars, carriers);
      ChosenAreCarriers(mac, c, StripTwins(chars), density);
      assert |expected| > 0;
      SubsetSizes(expected, observed);
      F1Range(|expected * observed|, |expected|, |observed|);
      SubsetSize(expected * observed, expected);
      SubsetSize(expected * observed, observed);
      if expected == observed {
        assert expected * observed == expected;
      }
    }
  }

  /** A protected text scores 1 for its own client as soon as the shuffled text has a letter with a twin. */
  lemma OwnHomoglyphs(lex: Synonyms.Lexicon, mac: Mac, c: Client, opts: Options, text: string)
    requires Synonyms.LawfulLexicon(lex)
    ensures var r := ScoreHomoglyphs(mac, c, Protect(lex, mac, c, opts, text).text, opts.density);
            var carriers := Carriers(Synonyms.Shuffle(lex, c, Canonical(text)).text);
            && r.score == (if carriers == [] then 0.0 else 1.0)
            && r.total == r.matched == ChosenCount(|carriers|, opts.density)
  {
    hide Synonyms.LawfulLexicon, Synonyms.Shuffle, ClientBits, Framed, Carriers, ChosenPositions, F1, Visible, StripTwins,
         IsTwin, Flipped, HasTwin, Canonical, Plain;
    CanonicalOfProtected(lex, mac, c, opts, text);
    var plain := Synonyms.Shuffle(lex, c, Canonical(text)).text;
    LayerOnPlain(mac, c, plain, opts.density);
    var marked := HomoglyphLayer(mac, c, plain, opts.density).text;
    var frame := Framed(ClientBits(mac, c, opts.nBits));
    FrameVanishes(ClientBits(mac, c, opts.nBits));
    VisibleIsStable(marked);
    VisibleConcat(frame, marked);
    assert Visible(Protect(lex, mac, c, opts, text).text) == marked;
    ShownAreChosen(mac, c, plain, opts.density);
    PerfectHomoglyphs(mac, c, Protect(lex, mac, c, opts, text).text, opts.density);
    ChosenAreCarriers(mac, c, plain, opts.density);
    var chosen := Selected(mac, c, Carriers(plain), opts.density);
    assert chosen * chosen == chosen;
  }

  lemma ShownAreChosen(mac: Mac, c: Client, plain: string, density: real)
    requires Plain(plain)
    ensures Observed(Flipped(plain, Selected(mac, c, Carriers(plain), density)), Carriers(plain))
            == Selected(mac, c, Carriers(plain), density)
  {
    hide Carriers, ChosenPositions, ToCyrillic, ToLatin, IsZeroWidth;
    var carriers := Carriers(plain);
    var chosen := Selected(mac, c, carriers, density);
    ChosenAreCarriers(mac, c, plain, density);
    CarriersAre(plain);
    forall p: nat | p in carriers
      ensures IsTwin(Flipped(plain, chosen)[p]) <==> p in chosen
    {
      TwinsPair(plain[p]);
      assert !IsTwin(plain[p]);
    }
  }

  // ---- Zero-width channel

  /** The bits between the first two frame marks, no more than `maxBits` of them. */
  function FramedBits(text: string, maxBits: nat): seq<bool> {
    match FramePayload(text)
    case None => []
    case Some(payload) => FirstBits(payload, maxBits)
  }

  /** The scan stops after the character that brings the count to `maxBits`, but always looks at one. */
  function FirstBits(payload: string, maxBits: nat): seq<bool> {
    if maxBits == 0 then BitsOf(if payload == "" then "" else payload[..1])
    else if |BitsOf(payload)| <= maxBits then BitsOf(payload)
    else BitsOf(payload)[..maxBits]
  }

  lemma {:induction false} BitsOfPrefix(payload: string, i: nat)
    requires i <= |payload|
    ensures BitsOf(payload[..i]) <= BitsOf(payload)
    decreases |payload| - i
  {
    if i == |payload| {
      assert payload[..i] == payload;
    } else {
      BitsOfPrefix(payload, i + 1);
      assert payload[..i + 1][..i] == payload[..i];
    }
  }

  method ExtractFramedZwBits(text: string, maxBits: nat) returns (bits: seq<bool>)
    ensures bits == FramedBits(text, maxBits)
  {
    var payload := FramePayload(text);
    if payload.None? {
      return [];
    }
    bits := ReadFirstBits(payload.value, maxBits);
  }

  method ReadFirstBits(payload: string, maxBits: nat) returns (bits: seq<bool>)
    ensures bits == FirstBits(payload, maxBits)
  {
    bits := [];
    for i := 0 to |payload|
      invariant bits == BitsOf(payload[..i])
      invariant i > 0 ==> |bits| < maxBits
    {
      assert payload[..i + 1][..i] == payload[..i];
      if payload[i] == ZW_ZERO {
        bits := bits + [false];
      } else if payload[i] == ZW_ONE {
        bits := bits + [true];
      }
      if |bits| >= maxBits {
        BitsOfPrefix(payload, i + 1);
        return;
      }
    }
    assert payload[..|payload|] == payload;
  }

  /** How many positions agree. */
  function Agreeing(a: seq<bool>, b: seq<bool>, n: nat): (r: nat)
    requires n <= |a| && n <= |b|
    ensures r <= n && (r == n <==> a[..n] == b[..n])
  {
    if n == 0 then 0
    else
      assert a[..n] == a[..n - 1] + [a[n - 1]] && b[..n] == b[..n - 1] + [b[n - 1]];
      Agreeing(a, b, n - 1) + (if a[n - 1] == b[n - 1] then 1 else 0)
  }

  function ScoreZeroWidth(mac: Mac, c: Client, suspect: string, nBits: nat): ZeroWidthScore {
    var expected, observed := ClientBits(mac, c, nBits), FramedBits(suspect, nBits);
    if observed == [] then ZeroWidthScore(0, nBits, Some(0.0), false)
    else
      var matched := Agreeing(observed, expected, if |observed| < nBits then |observed| else nBits);
      ZeroWidthScore(matched, nBits, if nBits == 0 then None else Some(matched as real / nBits as real), true)
  }

  method ScoreZeroWidthChannel(mac: Mac, c: Client, suspect: string, nBits: nat) returns (r: ZeroWidthScore)
    ensures r == ScoreZeroWidth(mac, c, suspect, nBits)
  {
    hide FramedBits, DigestBits;
    var expected := ReadBits(mac(c.secret, BitsMessage(c.id)), nBits);
    var observed := ExtractFramedZwBits(suspect, nBits);
    if |observed| == 0 {
      return ZeroWidthScore(0, nBits, Some(0.0), false);
    }
    var compareCount := if |observed| < nBits then |observed| else nBits;
    var matched := 0;
    for i := 0 to compareCount
      invariant matched == Agreeing(observed, expected, i)
    {
      if observed[i] == expected[i] {
        matched := matched + 1;
      }
    }
    r := ZeroWidthScore(matched, nBits, if nBits == 0 then None else Some(matched as real / nBits as real), true);
  }

  /** A frame in front of a text is read back whole. */
  lemma FrameIsRead(bits: seq<bool>, rest: string)
    ensures FramedBits(Framed(bits) + rest, |bits|) == bits
  {
    FrameIsFound(bits, rest);
    BitsRoundTrip(bits);
  }

  /** A protected text scores 1 on this channel for its own client, unless no bits at all were asked for. */
  lemma OwnZeroWidth(lex: Synonyms.Lexicon, mac: Mac, c: Client, opts: Options, text: string)
    ensures ScoreZeroWidth(mac, c, Protect(lex, mac, c, opts, text).text, opts.nBits) ==
            if opts.nBits == 0 then ZeroWidthScore(0, 0, Some(0.0), false)
            else ZeroWidthScore(opts.nBits, opts.nBits, Some(1.0), true)
  {
    hide Synonyms.Shuffle, HomoglyphLayer, DigestBits, Framed, FramedBits, Visible;
    var bits := ClientBits(mac, c, opts.nBits);
    var rest := Visible(Protect(lex, mac, c, opts, text).homoglyphs.text);
    FrameIsRead(bits, rest);
    assert Protect(lex, mac, c, opts, text).text == Framed(bits) + rest;
    if opts.nBits > 0 {
      assert Agreeing(bits, bits, opts.nBits) == opts.nBits;
      assert opts.nBits as real / opts.nBits as real == 1.0;
    }
  }

  /** The score is 1 exactly when the frame spells the client's bits. */
  lemma PerfectZeroWidth(mac: Mac, c: Client, suspect: string, nBits: nat)
    requires nBits > 0
    ensures ScoreZeroWidth(mac, c, suspect, nBits).score == Some(1.0) <==> FramedBits(suspect, nBits) == ClientBits(mac, c, nBits)
  {
    var expected, observed := ClientBits(mac, c, nBits), FramedBits(suspect, nBits);
    hide DigestBits, FramedBits;
    FramedLength(suspect, nBits);
    if observed != [] {
      var matched := Agreeing(observed, expected, |observed|);
      assert observed[..|observed|] == observed && expected[..nBits] == expected;
      assert matched as real / nBits as real == 1.0 <==> matched == nBits;
    }
  }

  lemma FramedLength(text: string, maxBits: nat)
    requires maxBits > 0
    ensures |FramedBits(text, maxBits)| <= maxBits
  {
    hide FramePayload, BitsOf;
  }
}
