/**
  * The user fingerprint: bits repeated over the homoglyph carriers of a text and framed in front of it as zero-width
  * characters, and the decoder that folds the bits it reads by majority and scores candidates.
  */
module Fingerprint {
  import opened Members
  import opened Prelude
  import opened Bytes
  import opened Homoglyph
  import opened KeyedBits
  import opened Ratios
  import opened Search
  import opened Sorting
  import opened ZeroWidth

  /** The keyed digest of a user. */
  type Mac = (string, string) -> Bytes

  function UserBits(mac: Mac, secret: string, user: string, n: nat): (bits: seq<bool>)
    ensures |bits| == n
  {
    DigestBits(mac(secret, user), n)
  }

  // ---- Encoding

  datatype EncodeOptions = EncodeOptions(homoglyph: bool, zeroWidth: bool)

  function CarrierCount(text: string): (n: nat)
    ensures n <= |text|
  {
    if text == "" then 0
    else CarrierCount(text[..|text| - 1]) + (if IsHomoglyphCarrier(text[|text| - 1]) then 1 else 0)
  }

  /** Carrier number `k` takes bit `k` modulo the number of bits; without bits the flip is the default. */
  function BitFor(bits: seq<bool>, k: nat): bool { if bits == [] then true else bits[k % |bits|] }

  function Carried(text: string, bits: seq<bool>): (r: string)
    ensures |r| == |text|
  {
    if text == "" then ""
    else
      var front, last := text[..|text| - 1], text[|text| - 1];
      Carried(front, bits)
      + [if IsHomoglyphCarrier(last) then SetHomoglyphBit(last, BitFor(bits, CarrierCount(front))) else last]
  }

  function Encode(text: string, bits: seq<bool>, opts: EncodeOptions): string {
    var clean := StripTwins(text);
    var carried := if opts.homoglyph then Carried(clean, bits) else clean;
    if opts.zeroWidth then Framed(bits) + carried else carried
  }

  method EncodeFingerprint(text: string, bits: seq<bool>, opts: EncodeOptions) returns (out: string)
    ensures out == Encode(text, bits, opts)
  {
    hide ToLatin, ToCyrillic, StripTwins;
    var clean := StripHomoglyphs(text);
    out := "";
    var bitIdx := 0;
    for i := 0 to |clean|
      invariant bitIdx == if opts.homoglyph then CarrierCount(clean[..i]) else 0
      invariant out == if opts.homoglyph then Carried(clean[..i], bits) else clean[..i]
    {
      assert clean[..i + 1][..i] == clean[..i];
      var ch := clean[i];
      if opts.homoglyph && IsHomoglyphCarrier(ch) {
        ch := SetHomoglyphBit(ch, BitFor(bits, bitIdx));
        bitIdx := bitIdx + 1;
      }
      out := out + [ch];
    }
    assert clean[..|clean|] == clean;
    if opts.zeroWidth {
      var payload := BitsToZeroWidth(bits);
      out := [ZW_MARK] + payload + [ZW_MARK] + out;
    }
  }

  // ---- Reading

  function CarrierBits(text: string): seq<bool> {
    if text == "" then []
    else
      var b := ReadHomoglyphBit(text[|text| - 1]);
      CarrierBits(text[..|text| - 1]) + (if b.Some? then [b.value] else [])
  }

  function FrameBits(text: string): seq<bool> {
    match FramePayload(text)
    case None => []
    case Some(payload) => BitsOf(payload)
  }

  datatype Source = Homoglyphs | ZeroWidths

  datatype Reading = Reading(bits: seq<bool>, source: Source)

  function Readings(text: string): seq<Reading> {
    (if CarrierBits(text) == [] then [] else [Reading(CarrierBits(text), Homoglyphs)])
    + (if FrameBits(text) == [] then [] else [Reading(FrameBits(text), ZeroWidths)])
  }

  method ReadChannels(text: string) returns (readings: seq<Reading>)
    ensures readings == Readings(text)
  {
    hide HasTwin, IsTwin, FramePayload;
    var homoBits: seq<bool> := [];
    for i := 0 to |text|
      invariant homoBits == CarrierBits(text[..i])
    {
      assert text[..i + 1][..i] == text[..i];
      var b := ReadHomoglyphBit(text[i]);
      if b.Some? {
        homoBits := homoBits + [b.value];
      }
    }
    assert text[..|text|] == text;
    var zwBits := [];
    var payload := FramePayload(text);
    if payload.Some? {
      zwBits := ExtractZeroWidthBits(payload.value);
    }
    readings := [];
    if |homoBits| > 0 {
      readings := readings + [Reading(homoBits, Homoglyphs)];
    }
    if |zwBits| > 0 {
      readings := readings + [Reading(zwBits, ZeroWidths)];
    }
  }

  // ---- Folding and scoring

  /** How many of the first `m` observed bits fall on a slot, and how many of those are set. */
  function Copies(n: nat, slot: nat, m: nat): (c: nat)
    requires n > 0
  {
    if m == 0 then 0 else Copies(n, slot, m - 1) + (if (m - 1) % n == slot then 1 else 0)
  }

  function Ones(observed: seq<bool>, n: nat, slot: nat, m: nat): (o: nat)
    requires n > 0 && m <= |observed|
    ensures o <= Copies(n, slot, m)
  {
    if m == 0 then 0 else Ones(observed, n, slot, m - 1) + (if (m - 1) % n == slot && observed[m - 1] then 1 else 0)
  }

  /** The share of set copies of a slot, or -1 for a slot without copies. */
  function SlotValue(observed: seq<bool>, n: nat, slot: nat): real
    requires n > 0
  {
    var c := Copies(n, slot, |observed|);
    if c == 0 then -1.0 else Ones(observed, n, slot, |observed|) as real / c as real
  }

  function Folded(observed: seq<bool>, n: nat): (f: seq<real>)
    ensures |f| == n
  {
    seq(n, slot requires 0 <= slot < n => SlotValue(observed, n, slot))
  }

  method FoldToLength(observed: seq<bool>, n: nat) returns (folded: seq<real>)
    ensures folded == Folded(observed, n)
  {
    var sums, counts := new nat[n](i => 0), new nat[n](i => 0);
    for i := 0 to |observed|
      invariant fresh(sums) && fresh(counts) && sums != counts
      invariant forall slot :: 0 <= slot < n ==> sums[slot] == Ones(observed, n, slot, i) && counts[slot] == Copies(n, slot, i)
    {
      if n == 0 {
        continue; // a remainder modulo 0 names no slot
      }
      var slot := i % n;
      sums[slot] := sums[slot] + (if observed[i] then 1 else 0);
      counts[slot] := counts[slot] + 1;
    }
    folded := [];
    for i := 0 to n
      invariant |folded| == i && forall slot :: 0 <= slot < i ==> folded[slot] == SlotValue(observed, n, slot)
      invariant forall slot :: 0 <= slot < n ==>
        sums[slot] == Ones(observed, n, slot, |observed|) && counts[slot] == Copies(n, slot, |observed|)
    {
      folded := folded + [if counts[i] == 0 then -1.0 else sums[i] as real / counts[i] as real];
    }
  }

  predicate Counted(f: real) { f >= 0.0 }

  predicate Predicts(f: real, bit: bool) { (f >= 0.5) == bit }

  /** Slots with copies among the first `m`, and those of them whose prediction is right. */
  function Total(folded: seq<real>, m: nat): nat
    requires m <= |folded|
  {
    if m == 0 then 0 else Total(folded, m - 1) + (if Counted(folded[m - 1]) then 1 else 0)
  }

  function Right(folded: seq<real>, expected: seq<bool>, m: nat): (r: nat)
    requires m <= |folded| && m <= |expected|
    ensures r <= Total(folded, m)
    ensures r == Total(folded, m) <==> forall i :: 0 <= i < m && Counted(folded[i]) ==> Predicts(folded[i], expected[i])
  {
    if m == 0 then 0
    else Right(folded, expected, m - 1) + (if Counted(folded[m - 1]) && Predicts(folded[m - 1], expected[m - 1]) then 1 else 0)
  }

  function Score(folded: seq<real>, expected: seq<bool>): real
    requires |folded| == |expected|
  {
    var total := Total(folded, |folded|);
    if total == 0 then 0.0 else Right(folded, expected, |folded|) as real / total as real
  }

  method ScoreCandidate(folded: seq<real>, expected: seq<bool>) returns (score: real)
    requires |folded| == |expected|
    ensures score == Score(folded, expected)
  {
    var scored, total := 0, 0;
    for i := 0 to |expected|
      invariant total == Total(folded, i) && scored == Right(folded, expected, i)
    {
      var f := folded[i];
      if f < 0.0 {
        continue;
      }
      var predicted := f >= 0.5;
      if predicted == expected[i] {
        scored := scored + 1;
      }
      total := total + 1;
    }
    score := if total == 0 then 0.0 else scored as real / total as real;
  }

  // ---- Identifying

  /** The share of the expected bits that there are. */
  function WeightOf(r: Reading, n: nat): real
  {
    if n == 0 then 1.0 else Least(|r.bits|, n) as real / n as real
  }

  function Least(a: nat, b: nat): nat { if a <= b then a else b }

  function Combined(readings: seq<Reading>, expected: seq<bool>): real
  {
    if readings == [] then 0.0
    else
      var r := readings[|readings| - 1];
      Combined(readings[..|readings| - 1], expected) + Score(Folded(r.bits, |expected|), expected) * WeightOf(r, |expected|)
  }

  function Weight(readings: seq<Reading>, n: nat): real
  {
    if readings == [] then 0.0
    else Weight(readings[..|readings| - 1], n) + WeightOf(readings[|readings| - 1], n)
  }

  function Confidence(readings: seq<Reading>, expected: seq<bool>): real
  {
    var w := Weight(readings, |expected|);
    if w == 0.0 then 0.0 else Combined(readings, expected) / w
  }

  datatype Ranked = Ranked(userId: string, confidence: real)

  datatype Identification = Identification(userId: Option<string>, confidence: real, channels: seq<(Source, real)>, ranked: seq<Ranked>)

  function Rate(mac: Mac, secret: string, readings: seq<Reading>, users: seq<string>, n: nat): (r: seq<Ranked>)
    ensures |r| == |users|
  {
    seq(|users|, i requires 0 <= i < |users| => Ranked(users[i], Confidence(readings, UserBits(mac, secret, users[i], n))))
  }

  function AtLeast(): (real, real) -> bool { (a: real, b: real) => a >= b }

  function ConfidenceOf(): Ranked -> real { (r: Ranked) => r.confidence }

  function Ranking(mac: Mac, secret: string, readings: seq<Reading>, candidates: seq<string>, n: nat): seq<Ranked>
  {
    Sort(AtLeast(), ConfidenceOf(), Rate(mac, secret, readings, Mentioned(candidates), n))
  }

  /** The best score any of the candidates reaches on one channel. */
  function Best(mac: Mac, secret: string, r: Reading, candidates: seq<string>, n: nat): real
  {
    if candidates == [] then 0.0
    else
      var front := Best(mac, secret, r, candidates[..|candidates| - 1], n);
      var s := Score(Folded(r.bits, n), UserBits(mac, secret, candidates[|candidates| - 1], n));
      if s > front then s else front
  }

  function Channels(mac: Mac, secret: string, readings: seq<Reading>, candidates: seq<string>, n: nat): (c: seq<(Source, real)>)
    ensures |c| == |readings|
  {
    seq(|readings|, i requires 0 <= i < |readings| => (readings[i].source, Best(mac, secret, readings[i], candidates, n)))
  }

  function Identify(mac: Mac, secret: string, text: string, candidates: seq<string>, n: nat): Identification
  {
    var readings := Readings(text);
    var ranked := Ranking(mac, secret, readings, candidates, n);
    Identification(if ranked != [] && ranked[0].confidence >= 0.7 then Some(ranked[0].userId) else None,
                   if ranked != [] then ranked[0].confidence else 0.0,
                   Channels(mac, secret, readings, candidates, n), ranked)
  }

  lemma WeightIs(r: Reading, n: nat)
    ensures WeightOf(r, n) == if |r.bits| >= n then 1.0 else |r.bits| as real / n as real
  {
    if n > 0 {
      assert n as real / n as real == 1.0 by {
        RatioRange(n as real, n as real);
      }
    }
  }

  method Confide(readings: seq<Reading>, expected: seq<bool>) returns (confidence: real)
    ensures confidence == Confidence(readings, expected)
  {
    hide Folded, Score, WeightOf;
    var n := |expected|;
    var combined, weight := 0.0, 0.0;
    for i := 0 to |readings|
      invariant combined == Combined(readings[..i], expected) && weight == Weight(readings[..i], n)
    {
      assert readings[..i + 1][..i] == readings[..i];
      var folded := FoldToLength(readings[i].bits, n);
      var score := ScoreCandidate(folded, expected);
      var w := if |readings[i].bits| >= n then 1.0 else |readings[i].bits| as real / n as real;
      WeightIs(readings[i], n);
      combined := combined + score * w;
      weight := weight + w;
    }
    assert readings[..|readings|] == readings;
    confidence := if weight == 0.0 then 0.0 else combined / weight;
  }

  method BestOf(mac: Mac, secret: string, r: Reading, candidates: seq<string>, n: nat) returns (best: real)
    ensures best == Best(mac, secret, r, candidates, n)
  {
    hide Folded, Score, DigestBits;
    best := 0.0;
    for i := 0 to |candidates|
      invariant best == Best(mac, secret, r, candidates[..i], n)
    {
      assert candidates[..i + 1][..i] == candidates[..i];
      var expected := ReadBits(mac(secret, candidates[i]), n);
      var folded := FoldToLength(r.bits, n);
      var s := ScoreCandidate(folded, expected);
      if s > best {
        best := s;
      }
    }
    assert candidates[..|candidates|] == candidates;
  }

  /** A candidate named twice is rated twice, with the same outcome. */
  method RateCandidates(mac: Mac, secret: string, readings: seq<Reading>, candidates: seq<string>, n: nat) returns (rated: seq<Ranked>)
    ensures rated == Rate(mac, secret, readings, Mentioned(candidates), n)
  {
    hide Confidence, DigestBits;
    rated := [];
    for i := 0 to |candidates|
      invariant rated == Rate(mac, secret, readings, Mentioned(candidates[..i]), n)
    {
      assert candidates[..i + 1][..i] == candidates[..i];
      var expected := ReadBits(mac(secret, candidates[i]), n);
      var confidence := Confide(readings, expected);
      if candidates[i] !in Mentioned(candidates[..i]) {
        rated := rated + [Ranked(candidates[i], confidence)];
      }
    }
    assert candidates[..|candidates|] == candidates;
  }

  method IdentifyFingerprint(mac: Mac, secret: string, text: string, candidates: seq<string>, n: nat) returns (r: Identification)
    ensures r == Identify(mac, secret, text, candidates, n)
  {
    hide Readings, Rate, Best, Sort, Mentioned;
    var readings := ReadChannels(text);
    var rated := RateCandidates(mac, secret, readings, candidates, n);
    var ranked := Sort(AtLeast(), ConfidenceOf(), rated);
    var channels: seq<(Source, real)> := [];
    for i := 0 to |readings|
      invariant |channels| == i && forall k :: 0 <= k < i ==> channels[k] == (readings[k].source, Best(mac, secret, readings[k], candidates, n))
    {
      var best := BestOf(mac, secret, readings[i], candidates, n);
      channels := channels + [(readings[i].source, best)];
    }
    r := Identification(if |ranked| > 0 && ranked[0].confidence >= 0.7 then Some(ranked[0].userId) else None,
                        if |ranked| > 0 then ranked[0].confidence else 0.0, channels, ranked);
  }

  // ---- Stripping

  function Strip(text: string): string { StripTwins(Visible(text)) }

  method StripFingerprint(text: string) returns (out: string)
    ensures out == Strip(text)
  {
    hide Visible, StripTwins;
    var visible := StripZeroWidth(text);
    out := StripHomoglyphs(visible);
  }

  lemma {:induction false} CarriedStrips(text: string, bits: seq<bool>)
    ensures StripTwins(Visible(Carried(text, bits))) == StripTwins(Visible(text))
  {
    if text != "" {
      hide ToLatin, ToCyrillic, IsZeroWidth, StripTwins;
      var n := |text| - 1;
      var front, last := text[..n], text[n];
      CarriedStrips(front, bits);
      var c := if IsHomoglyphCarrier(last) then SetHomoglyphBit(last, BitFor(bits, CarrierCount(front))) else last;
      CarrierHoldsBit(last, BitFor(bits, CarrierCount(front)));
      CarrierIsVisible(last, BitFor(bits, CarrierCount(front)));
      assert Carried(text, bits)[..n] == Carried(front, bits);
      StripTwinsConcat(Visible(Carried(front, bits)), if IsZeroWidth(c) then "" else [c]);
      StripTwinsConcat(Visible(front), if IsZeroWidth(last) then "" else [last]);
      StripOne(c, last);
    }
  }

  lemma StripOne(a: char, b: char)
    requires ToLatin(a) == ToLatin(b)
    ensures StripTwins([a]) == StripTwins([b])
  {}

  lemma CarrierIsVisible(c: char, bit: bool)
    ensures IsHomoglyphCarrier(c) ==> !IsZeroWidth(c) && !IsZeroWidth(SetHomoglyphBit(c, bit))
  {}

  lemma {:induction false} VisibleOfLatin(text: string)
    ensures StripTwins(Visible(StripTwins(text))) == StripTwins(Visible(text))
  {
    if text != "" {
      hide ToLatin, ToCyrillic, IsZeroWidth, StripTwins;
      var n := |text| - 1;
      var front, last := text[..n], text[n];
      VisibleOfLatin(front);
      LatinTwice(last);
      assert text == front + [last];
      StripTwinsConcat(front, [last]);
      OneLatin(last);
      assert StripTwins(text)[..n] == StripTwins(front) && StripTwins(text)[n] == ToLatin(last);
      var l := ToLatin(last);
      StripTwinsConcat(Visible(StripTwins(front)), if IsZeroWidth(l) then "" else [l]);
      StripTwinsConcat(Visible(front), if IsZeroWidth(last) then "" else [last]);
      StripOne(l, last);
    }
  }

  lemma OneLatin(c: char)
    ensures StripTwins([c]) == [ToLatin(c)]
  {}

  lemma LatinTwice(c: char)
    ensures ToLatin(ToLatin(c)) == ToLatin(c) && (IsZeroWidth(ToLatin(c)) <==> IsZeroWidth(c))
  {
    CarrierHoldsBit(c, false);
  }

  /** Stripping an encoded text gives what stripping the original gives, for any bits and options. */
  lemma StripUndoesEncode(text: string, bits: seq<bool>, opts: EncodeOptions)
    ensures Strip(Encode(text, bits, opts)) == Strip(text)
  {
    hide Carried, StripTwins, Framed, Visible;
    var clean := StripTwins(text);
    VisibleOfLatin(text);
    CarriedStrips(clean, bits);
    var carried := if opts.homoglyph then Carried(clean, bits) else clean;
    if opts.zeroWidth {
      FrameIsInvisible(bits);
      VisibleConcat(Framed(bits), carried);
      assert "" + Visible(carried) == Visible(carried);
    }
  }

  lemma FrameIsInvisible(bits: seq<bool>)
    ensures Visible(Framed(bits)) == ""
  {
    VisibleDropsAll(Framed(bits));
  }

  // ---- Decoding

  /** A slot is predicted right by majority: at least half of its copies for a one, more than half for a zero. */
  lemma SlotMajority(observed: seq<bool>, n: nat, slot: nat, bit: bool)
    requires n > 0
    ensures var v := SlotValue(observed, n, slot);
            var copies, ones := Copies(n, slot, |observed|), Ones(observed, n, slot, |observed|);
            && (Counted(v) <==> copies > 0)
            && (Predicts(v, bit) && copies > 0 <==> copies > 0 && if bit then 2 * ones >= copies else 2 * (copies - ones) > copies)
  {
    var copies, ones := Copies(n, slot, |observed|), Ones(observed, n, slot, |observed|);
    if copies > 0 {
      Half(ones, copies);
    }
  }

  lemma Half(part: nat, whole: nat)
    requires whole > 0
    ensures part as real / whole as real >= 0.0
    ensures part as real / whole as real >= 0.5 <==> 2 * part >= whole
  {
    var v, w := part as real / whole as real, whole as real;
    assert v * w == part as real;
    Scaled(v, w);
  }

  lemma ScoreRange(folded: seq<real>, expected: seq<bool>)
    requires |folded| == |expected|
    ensures 0.0 <= Score(folded, expected) <= 1.0
    ensures Score(folded, expected) == 1.0 <==>
            && (exists i :: 0 <= i < |folded| && Counted(folded[i]))
            && (forall i :: 0 <= i < |folded| && Counted(folded[i]) ==> Predicts(folded[i], expected[i]))
  {
    hide Counted, Predicts;
    TotalPositive(folded, |folded|);
    var total, right := Total(folded, |folded|), Right(folded, expected, |folded|);
    if total > 0 {
      QuotientRange(right, total);
    }
  }

  lemma {:induction false} TotalPositive(folded: seq<real>, m: nat)
    requires m <= |folded|
    ensures Total(folded, m) > 0 <==> exists i :: 0 <= i < m && Counted(folded[i])
  {
    hide Counted;
    if m > 0 {
      TotalPositive(folded, m - 1);
    }
  }

  ghost predicate Repeats(observed: seq<bool>, bits: seq<bool>)
    requires bits != []
  {
    forall i :: 0 <= i < |observed| ==> observed[i] == bits[i % |bits|]
  }

  lemma {:induction false} RepeatedOnes(observed: seq<bool>, bits: seq<bool>, slot: nat, m: nat)
    requires bits != [] && Repeats(observed, bits) && slot < |bits| && m <= |observed|
    ensures Ones(observed, |bits|, slot, m) == if bits[slot] then Copies(|bits|, slot, m) else 0
  {
    if m > 0 {
      RepeatedOnes(observed, bits, slot, m - 1);
      assert observed[m - 1] == bits[(m - 1) % |bits|];
    }
  }

  lemma {:induction false} SlotIsHit(n: nat, slot: nat, m: nat)
    requires n > 0 && slot < m && slot < n
    ensures Copies(n, slot, m) > 0
    decreases m
  {
    if m == slot + 1 {
      assert slot % n == slot;
    } else {
      SlotIsHit(n, slot, m - 1);
    }
  }

  lemma {:induction false} NoCopies(n: nat, slot: nat, m: nat)
    requires n > 0 && m <= slot < n
    ensures Copies(n, slot, m) == 0
    decreases m
  {
    if m > 0 {
      NoCopies(n, slot, m - 1);
      SmallMod(m - 1, n);
    }
  }

  /** On every slot with copies, the majority says what is expected. */
  ghost predicate Supports(observed: seq<bool>, expected: seq<bool>) {
    forall slot: nat :: slot < |expected| && slot < |observed| ==> MajorityIs(observed, |expected|, slot, expected[slot])
  }

  predicate MajorityIs(observed: seq<bool>, n: nat, slot: nat, bit: bool)
    requires n > 0
  {
    var copies, ones := Copies(n, slot, |observed|), Ones(observed, n, slot, |observed|);
    if bit then 2 * ones >= copies else 2 * (copies - ones) > copies
  }

  /** Observed bits score 1 for exactly the candidates they support. */
  lemma SupportsScore(observed: seq<bool>, expected: seq<bool>)
    requires observed != [] && expected != []
    ensures Score(Folded(observed, |expected|), expected) == 1.0 <==> Supports(observed, expected)
  {
    hide Score, SlotValue, Counted, Predicts;
    var n := |expected|;
    var folded := Folded(observed, n);
    ScoreRange(folded, expected);
    forall slot: nat | slot < n
      ensures Counted(folded[slot]) <==> slot < |observed|
      ensures slot < |observed| ==> (Predicts(folded[slot], expected[slot]) <==> MajorityIs(observed, n, slot, expected[slot]))
    {
      SlotMajority(observed, n, slot, expected[slot]);
      if slot < |observed| {
        SlotIsHit(n, slot, |observed|);
      } else {
        NoCopies(n, slot, |observed|);
      }
    }
    hide MajorityIs;
    assert Counted(folded[0]);
  }

  /** Bits that repeat a pattern, however often and however cut off, support exactly what agrees with it on the slots seen. */
  lemma RepeatsSupport(observed: seq<bool>, bits: seq<bool>, expected: seq<bool>)
    requires bits != [] && |bits| == |expected| && Repeats(observed, bits)
    ensures Supports(observed, expected) <==> forall s :: 0 <= s < |bits| && s < |observed| ==> expected[s] == bits[s]
  {
    hide Repeats;
    var n := |bits|;
    forall slot: nat | slot < n && slot < |observed|
      ensures MajorityIs(observed, n, slot, expected[slot]) <==> expected[slot] == bits[slot]
    {
      RepeatedOnes(observed, bits, slot, |observed|);
      SlotIsHit(n, slot, |observed|);
    }
    hide MajorityIs;
  }

  /** Bits that repeat a user's bits, however often and however cut off, score 1 for that user. */
  lemma RepeatsScoreOne(observed: seq<bool>, bits: seq<bool>)
    requires bits != [] && observed != [] && Repeats(observed, bits)
    ensures Score(Folded(observed, |bits|), bits) == 1.0
  {
    hide Score, Folded, Repeats;
    RepeatsSupport(observed, bits, bits);
    SupportsScore(observed, bits);
  }

  /** Bits read whole score 1 for a candidate only if they are the candidate's bits. */
  lemma WholeScoresOne(bits: seq<bool>, expected: seq<bool>)
    requires bits != [] && |bits| == |expected| && Score(Folded(bits, |bits|), expected) == 1.0
    ensures bits == expected
  {
    hide Score, Folded, Repeats;
    SelfRepeats(bits);
    RepeatsSupport(bits, bits, expected);
    SupportsScore(bits, expected);
  }

  lemma SelfRepeats(bits: seq<bool>)
    requires bits != []
    ensures Repeats(bits, bits)
  {
    forall i | 0 <= i < |bits|
      ensures bits[i] == bits[i % |bits|]
    {
      SmallMod(i, |bits|);
    }
  }

  lemma SmallMod(i: nat, n: nat)
    requires i < n
    ensures i % n == i
  {}

  // ---- What an encoded text reads as

  lemma {:induction false} CarriedRepeats(text: string, bits: seq<bool>)
    requires bits != []
    ensures |CarrierBits(Carried(text, bits))| == CarrierCount(text) && Repeats(CarrierBits(Carried(text, bits)), bits)
  {
    if text != "" {
      hide HasTwin, IsTwin, SetHomoglyphBit;
      var n := |text| - 1;
      var front, last := text[..n], text[n];
      CarriedRepeats(front, bits);
      CarrierHoldsBit(last, BitFor(bits, CarrierCount(front)));
      assert Carried(text, bits)[..n] == Carried(front, bits);
    }
  }

  lemma {:induction false} CarrierBitsConcat(x: string, y: string)
    ensures CarrierBits(x + y) == CarrierBits(x) + CarrierBits(y)
  {
    if y == "" {
      assert x + y == x;
    } else {
      hide ReadHomoglyphBit;
      var n := |y| - 1;
      assert (x + y)[..|x + y| - 1] == x + y[..n];
      CarrierBitsConcat(x, y[..n]);
    }
  }

  lemma {:induction false} NoCarriers(text: string)
    requires forall i :: 0 <= i < |text| ==> IsZeroWidth(text[i])
    ensures CarrierBits(text) == []
  {
    if text != "" {
      NoCarriers(text[..|text| - 1]);
      ZeroWidthIsNoCarrier(text[|text| - 1]);
    }
  }

  lemma ZeroWidthIsNoCarrier(c: char)
    requires IsZeroWidth(c)
    ensures ReadHomoglyphBit(c) == None
  {}

  // Without the homoglyph channel the twins are stripped all the same, so that every carrier reads as a 0.

  function WrittenBits(bits: seq<bool>, opts: EncodeOptions): (w: seq<bool>)
    ensures |w| == |bits|
  {
    if opts.homoglyph then bits else seq(|bits|, i => false)
  }

  lemma {:induction false} LatinCarriers(text: string)
    ensures CarrierCount(StripTwins(text)) == CarrierCount(text) == |CarrierBits(StripTwins(text))|
    ensures forall i :: 0 <= i < CarrierCount(text) ==> !CarrierBits(StripTwins(text))[i]
  {
    if text != "" {
      hide ToLatin, ToCyrillic;
      var n := |text| - 1;
      LatinCarriers(text[..n]);
      CarrierHoldsBit(text[n], false);
      assert StripTwins(text)[..n] == StripTwins(text[..n]);
    }
  }

  /** The part of an encoding behind its frame. */
  function Written(text: string, bits: seq<bool>, opts: EncodeOptions): (r: string)
    ensures |r| == |text|
  {
    if opts.homoglyph then Carried(StripTwins(text), bits) else StripTwins(text)
  }

  lemma WrittenCarriers(text: string, bits: seq<bool>, opts: EncodeOptions)
    requires bits != []
    ensures var carriers := CarrierBits(Written(text, bits, opts));
            |carriers| == CarrierCount(text) && Repeats(carriers, WrittenBits(bits, opts))
  {
    hide StripTwins, CarrierBits, Carried;
    LatinCarriers(text);
    CarriedRepeats(StripTwins(text), bits);
  }

  /** The same zero-width characters at the same places. */
  ghost predicate SameMarks(x: string, y: string) {
    |x| == |y| && forall i :: 0 <= i < |x| ==> x[i] == y[i] || (!IsZeroWidth(x[i]) && !IsZeroWidth(y[i]))
  }

  lemma {:induction false} CarriedAt(text: string, bits: seq<bool>, i: nat)
    requires i < |text|
    ensures Carried(text, bits)[i] ==
            if IsHomoglyphCarrier(text[i]) then SetHomoglyphBit(text[i], BitFor(bits, CarrierCount(text[..i]))) else text[i]
    decreases |text|
  {
    hide IsHomoglyphCarrier, SetHomoglyphBit, CarrierCount;
    var n := |text| - 1;
    if i < n {
      CarriedAt(text[..n], bits, i);
      assert text[..n][..i] == text[..i];
    }
  }

  lemma WrittenMarks(text: string, bits: seq<bool>, opts: EncodeOptions)
    ensures SameMarks(text, Written(text, bits, opts))
  {
    hide ToLatin, ToCyrillic, IsZeroWidth, Carried;
    forall i: nat | i < |text|
      ensures var c := Written(text, bits, opts)[i]; text[i] == c || (!IsZeroWidth(text[i]) && !IsZeroWidth(c))
    {
      var l := ToLatin(text[i]);
      LatinMark(text[i]);
      assert StripTwins(text)[i] == l;
      CarriedAt(StripTwins(text), bits, i);
      CarrierIsVisible(l, BitFor(bits, CarrierCount(StripTwins(text)[..i])));
    }
  }

  lemma LatinMark(c: char)
    ensures IsZeroWidth(c) ==> ToLatin(c) == c
    ensures !IsZeroWidth(c) ==> !IsZeroWidth(ToLatin(c))
  {
    LatinTwice(c);
    if IsZeroWidth(c) {
      ZeroWidthIsNoCarrier(c);
    }
  }

  lemma MarkIsThere(x: string, y: string, i: nat)
    requires SameMarks(x, y)
    ensures At(x, [ZW_MARK], i) <==> At(y, [ZW_MARK], i)
  {
    if i < |x| {
      assert x[i..i + 1] == [x[i]] && y[i..i + 1] == [y[i]];
    }
  }

  lemma SameIndex(x: string, y: string, from: nat)
    requires SameMarks(x, y)
    ensures IndexOf(x, [ZW_MARK], from) == IndexOf(y, [ZW_MARK], from)
  {
    hide At, SameMarks, IndexOf;
    IndexOfFirst(x, [ZW_MARK], from);
    IndexOfFirst(y, [ZW_MARK], from);
    forall i: nat
      ensures At(x, [ZW_MARK], i) <==> At(y, [ZW_MARK], i)
    {
      MarkIsThere(x, y, i);
    }
  }

  lemma {:induction false} SameBits(x: string, y: string)
    requires SameMarks(x, y)
    ensures BitsOf(x) == BitsOf(y)
  {
    if x != "" {
      SameBits(x[..|x| - 1], y[..|y| - 1]);
    }
  }

  lemma SameFrames(x: string, y: string)
    requires SameMarks(x, y)
    ensures FrameBits(x) == FrameBits(y)
  {
    hide IndexOf, BitsOf;
    SameIndex(x, y, 0);
    var first := IndexOf(x, [ZW_MARK], 0);
    if first.Some? {
      SameIndex(x, y, first.value + 1);
      var second := IndexOf(x, [ZW_MARK], first.value + 1);
      if second.Some? {
        IndexOfFirst(x, [ZW_MARK], first.value + 1);
        IndexOfFirst(y, [ZW_MARK], first.value + 1);
        SameBits(x[first.value + 1..second.value], y[first.value + 1..second.value]);
      }
    }
  }

  /**
    * Whatever the text held before: the carriers of an encoding repeat the bits, or zeros with that channel off, and its
    * frame holds the bits once, or with that channel off is the frame the text had, if any.
    */
  lemma EncodedReads(text: string, bits: seq<bool>, opts: EncodeOptions)
    requires bits != []
    ensures var out := Encode(text, bits, opts);
            && FrameBits(out) == (if opts.zeroWidth then bits else FrameBits(text))
            && |CarrierBits(out)| == CarrierCount(text) && Repeats(CarrierBits(out), WrittenBits(bits, opts))
  {
    hide StripTwins, FramePayload, Repeats, CarrierBits, Carried, Framed;
    var written := Written(text, bits, opts);
    WrittenCarriers(text, bits, opts);
    if opts.zeroWidth {
      FrameIsFound(bits, written);
      BitsRoundTrip(bits);
      CarrierBitsConcat(Framed(bits), written);
      FrameHasNoCarriers(bits);
      assert [] + CarrierBits(written) == CarrierBits(written);
    } else {
      WrittenMarks(text, bits, opts);
      SameFrames(text, written);
    }
  }

  lemma FrameHasNoCarriers(bits: seq<bool>)
    ensures CarrierBits(Framed(bits)) == []
  {
    NoCarriers(Framed(bits));
  }

  /** The weighted sum of scores reaches the sum of weights exactly when every channel scores 1. */
  lemma {:induction false} CombinedBound(readings: seq<Reading>, expected: seq<bool>)
    requires expected != [] && forall i :: 0 <= i < |readings| ==> readings[i].bits != []
    ensures 0.0 <= Combined(readings, expected) <= Weight(readings, |expected|)
    ensures Weight(readings, |expected|) > 0.0 <==> readings != []
    ensures Combined(readings, expected) == Weight(readings, |expected|) <==>
            forall i :: 0 <= i < |readings| ==> Score(Folded(readings[i].bits, |expected|), expected) == 1.0
  {
    hide Folded, Score, WeightOf;
    if readings != [] {
      var k := |readings| - 1;
      CombinedBound(readings[..k], expected);
      var s, w := Score(Folded(readings[k].bits, |expected|), expected), WeightOf(readings[k], |expected|);
      ScoreRange(Folded(readings[k].bits, |expected|), expected);
      WeightRange(readings[k], |expected|);
      Share(s, w);
      assert Combined(readings, expected) == Combined(readings[..k], expected) + s * w;
      assert Weight(readings, |expected|) == Weight(readings[..k], |expected|) + w;
      forall i | 0 <= i < k
        ensures readings[i] == readings[..k][i]
      {}
    }
  }

  lemma Share(s: real, w: real)
    requires 0.0 <= s <= 1.0 && w > 0.0
    ensures 0.0 <= s * w <= w && (s * w == w <==> s == 1.0)
  {
    Scaled(s, w);
  }

  /** The confidence in a candidate is at most 1, and 1 exactly when there are channels and each supports its bits. */
  lemma ConfidenceOne(readings: seq<Reading>, expected: seq<bool>)
    requires expected != [] && forall i :: 0 <= i < |readings| ==> readings[i].bits != []
    ensures Confidence(readings, expected) <= 1.0
    ensures Confidence(readings, expected) == 1.0 <==>
            readings != [] && forall i :: 0 <= i < |readings| ==> Supports(readings[i].bits, expected)
  {
    hide Folded, Score, Supports, Combined, Weight;
    CombinedBound(readings, expected);
    forall i | 0 <= i < |readings|
      ensures Score(Folded(readings[i].bits, |expected|), expected) == 1.0 <==> Supports(readings[i].bits, expected)
    {
      SupportsScore(readings[i].bits, expected);
    }
    if readings != [] {
      RatioRange(Combined(readings, expected), Weight(readings, |expected|));
    }
  }

  lemma WeightRange(r: Reading, n: nat)
    requires r.bits != []
    ensures 0.0 < WeightOf(r, n) <= 1.0
  {
    WeightIs(r, n);
    if |r.bits| < n {
      var v, w := |r.bits| as real / n as real, n as real;
      assert v * w == |r.bits| as real;
    }
  }

  // ---- Main result

  /** What the text, the bits and the options say of a candidate with the bits `expected`. */
  ghost predicate Decodes(text: string, bits: seq<bool>, opts: EncodeOptions, expected: seq<bool>)
    requires |expected| == |bits|
  {
    && (opts.zeroWidth || CarrierCount(text) > 0 || FrameBits(text) != [])
    && (forall s :: 0 <= s < |bits| && s < CarrierCount(text) ==> expected[s] == (opts.homoglyph && bits[s]))
    && (if opts.zeroWidth then expected == bits else Supports(FrameBits(text), expected))
  }

  /** The confidence in a candidate after encoding is at most 1, and 1 exactly if the encoding decodes to its bits. */
  lemma EncodedConfidence(text: string, bits: seq<bool>, opts: EncodeOptions, expected: seq<bool>)
    requires bits != [] && |expected| == |bits|
    ensures var c := Confidence(Readings(Encode(text, bits, opts)), expected);
            c <= 1.0 && (c == 1.0 <==> Decodes(text, bits, opts, expected))
  {
    hide Encode, Readings, FrameBits, CarrierBits, CarrierCount, Confidence, Repeats, Supports;
    var out := Encode(text, bits, opts);
    EncodedReads(text, bits, opts);
    ReadingsAre(out, expected);
    ConfidenceOne(Readings(out), expected);
    RepeatsSupport(CarrierBits(out), WrittenBits(bits, opts), expected);
    SelfRepeats(bits);
    RepeatsSupport(bits, bits, expected);
    NothingSupports(expected);
  }

  lemma ReadingsAre(text: string, expected: seq<bool>)
    ensures (forall i :: 0 <= i < |Readings(text)| ==> Supports(Readings(text)[i].bits, expected)) <==>
            (CarrierBits(text) != [] ==> Supports(CarrierBits(text), expected))
            && (FrameBits(text) != [] ==> Supports(FrameBits(text), expected))
    ensures forall i :: 0 <= i < |Readings(text)| ==> Readings(text)[i].bits != []
    ensures Readings(text) != [] <==> CarrierBits(text) != [] || FrameBits(text) != []
  {
    hide FrameBits, CarrierBits, Supports;
    var a, b := Reading(CarrierBits(text), Homoglyphs), Reading(FrameBits(text), ZeroWidths);
    var rs := Readings(text);
    assert a.bits != [] ==> rs[0] == a;
    assert b.bits != [] ==> rs[|rs| - 1] == b;
  }

  lemma NothingSupports(expected: seq<bool>)
    ensures Supports([], expected)
  {}

  lemma RankingOrder(mac: Mac, secret: string, readings: seq<Reading>, candidates: seq<string>, n: nat)
    ensures var ranked := Ranking(mac, secret, readings, candidates, n);
            && (forall u :: u in candidates <==> Ranked(u, Confidence(readings, UserBits(mac, secret, u, n))) in ranked)
            && (forall r :: r in ranked ==> r.userId in candidates && r.confidence == Confidence(readings, UserBits(mac, secret, r.userId, n))
                                            && r.confidence <= ranked[0].confidence)
  {
    hide Confidence, UserBits;
    var users := Mentioned(candidates);
    var rated := Rate(mac, secret, readings, users, n);
    var ranked := Ranking(mac, secret, readings, candidates, n);
    SortPermutes(AtLeast(), ConfidenceOf(), rated);
    AtLeastIsTotal();
    SortSorts(AtLeast(), ConfidenceOf(), rated);
    forall r
      ensures r in ranked <==> r in rated
    {
      assert r in ranked <==> r in multiset(ranked);
    }
    forall u
      ensures u in users <==> Ranked(u, Confidence(readings, UserBits(mac, secret, u, n))) in rated
    {
      if u in users {
        var i :| 0 <= i < |users| && users[i] == u;
        assert rated[i].userId == u;
      }
    }
    forall r | r in ranked
      ensures r.confidence <= ranked[0].confidence
    {
      var i :| 0 <= i < |ranked| && ranked[i] == r;
      assert i > 0 ==> AtLeast()(ConfidenceOf()(ranked[0]), ConfidenceOf()(ranked[i]));
    }
  }

  lemma AtLeastIsTotal()
    ensures TotalPreorder(AtLeast())
  {}

  /** Without bits nobody can score. */
  lemma {:induction false} NoBitsNoConfidence(readings: seq<Reading>)
    ensures Combined(readings, []) == 0.0 && Confidence(readings, []) == 0.0
  {
    if readings != [] {
      NoBitsNoConfidence(readings[..|readings| - 1]);
    }
  }

  /**
    * Identifying an encoded text: its user has confidence exactly 1 if and only if the encoding decodes to its bits, which
    * it always does with the zero-width channel and the homoglyph channel on. Then a user is named to whose bits it
    * decodes as well, and that is the encoding user unless there is another. With no bits at all nobody is named.
    */
  lemma EncoderIsIdentified(mac: Mac, secret: string, text: string, user: string, candidates: seq<string>, n: nat, opts: EncodeOptions)
    requires user in candidates
    ensures var bits := UserBits(mac, secret, user, n);
            var r := Identify(mac, secret, Encode(text, bits, opts), candidates, n);
            if n == 0 then r.confidence == 0.0 && r.userId.None?
            else
              && (Ranked(user, 1.0) in r.ranked <==> Decodes(text, bits, opts, bits))
              && (Decodes(text, bits, opts, bits) ==>
                    && r.confidence == 1.0 && r.userId.Some? && r.userId.value in candidates
                    && Decodes(text, bits, opts, UserBits(mac, secret, r.userId.value, n))
                    && ((forall other :: other in candidates && Decodes(text, bits, opts, UserBits(mac, secret, other, n)) ==> other == user)
                        ==> r.userId == Some(user)))
  {
    hide Encode, Readings, Confidence, DigestBits, Ranking, Decodes;
    var bits := UserBits(mac, secret, user, n);
    var readings := Readings(Encode(text, bits, opts));
    RankingOrder(mac, secret, readings, candidates, n);
    var ranked := Ranking(mac, secret, readings, candidates, n);
    if n == 0 {
      NoBitsNoConfidence(readings);
      assert ranked != [] ==> ranked[0] in ranked;
    } else {
      EncodedConfidence(text, bits, opts, bits);
      assert Ranked(user, Confidence(readings, bits)) in ranked;
      assert ranked[0] in ranked;
      EncodedConfidence(text, bits, opts, UserBits(mac, secret, ranked[0].userId, n));
    }
  }

  /** With both channels on, an encoding decodes to the encoded bits and to no others. */
  lemma BothChannelsDecode(text: string, bits: seq<bool>, expected: seq<bool>)
    requires |expected| == |bits|
    ensures Decodes(text, bits, EncodeOptions(true, true), expected) <==> expected == bits
  {}

  /** With the homoglyph channel off, one plain letter contradicts a bit of 1, and nobody is named. */
  lemma OffChannelContradicts(mac: Mac, secret: string, user: string)
    requires UserBits(mac, secret, user, 1) == [true]
    ensures var r := Identify(mac, secret, Encode("a", [true], EncodeOptions(false, true)), [user], 1);
            r.confidence == 0.5 && r.userId.None?
  {
    var opts := EncodeOptions(false, true);
    var out := Encode("a", [true], opts);
    EncodedReads("a", [true], opts);
    LetterIsCarrier();
    assert CarrierBits(out)[0] == WrittenBits([true], opts)[0 % 1];
    assert CarrierBits(out) == [false] && FrameBits(out) == [true];
    hide Encode, CarrierBits, FrameBits;
    HalfConfident();
    RankingOrder(mac, secret, Readings(out), [user], 1);
    var ranked := Ranking(mac, secret, Readings(out), [user], 1);
    hide Ranking, Confidence, UserBits;
    assert user in [user];
    assert ranked != [] && ranked[0] in ranked;
  }

  lemma LetterIsCarrier()
    ensures CarrierCount("a") == 1
  {
    assert HasTwin('a');
    assert "a"[..0] == "";
  }

  /** A 0 and a 1 on the two channels are half a confirmation of a 1. */
  lemma HalfConfident()
    ensures Confidence([Reading([false], Homoglyphs)] + [Reading([true], ZeroWidths)], [true]) == 0.5
  {
    var a, b := Reading([false], Homoglyphs), Reading([true], ZeroWidths);
    SingleBit(false);
    SingleBit(true);
    hide Folded, Score;
    var none: seq<Reading> := [];
    assert ([a] + [b])[..1] == [a] && [a][..0] == none;
    assert Combined(none, [true]) == 0.0 && Weight(none, 1) == 0.0;
    assert Combined([a], [true]) == 0.0 && Weight([a], 1) == 1.0;
    assert Combined([a] + [b], [true]) == 1.0 && Weight([a] + [b], 1) == 2.0;
  }

  lemma SingleBit(bit: bool)
    ensures Score(Folded([bit], 1), [true]) == if bit then 1.0 else 0.0
  {
    var f := Folded([bit], 1);
    assert Copies(1, 0, 1) == 1;
    assert Ones([bit], 1, 0, 1) == if bit then 1 else 0;
    assert f[0] == if bit then 1.0 else 0.0;
    assert Total(f, 1) == 1 && Right(f, [true], 1) == if bit then 1 else 0;
  }

  /** Carriers take the bits in turn; without bits every carrier is replaced by its look-alike. */
  lemma CarriersTakeBits(text: string, bits: seq<bool>, i: nat)
    requires i < |text| && IsHomoglyphCarrier(text[i])
    ensures var k := CarrierCount(text[..i]);
            Carried(text, bits)[i] == if bits == [] || bits[k % |bits|] then ToCyrillic(text[i]) else ToLatin(text[i])
  {
    hide IsHomoglyphCarrier, ToCyrillic, ToLatin, CarrierCount;
    CarriedAt(text, bits, i);
  }
}
