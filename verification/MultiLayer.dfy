/**
  * The protection pipeline: canonicalize, shuffle synonyms, flip some letters to their Cyrillic twins, prepend the
  * client's bits as framed zero-width characters. And the two channel scorers that read the last two layers back.
  */
module MultiLayer {
  import opened Decimals
  import opened Members
  import opened Messages
  import opened Prelude
  import opened Bytes
  import opened Search
  import opened Ranking
  import opened Sorting
  import opened Homoglyph
  import opened KeyedBits
  import opened ZeroWidth
  import Synonyms

  type Client = Synonyms.Client

  /** The keyed hash, by secret and message. */
  type Mac = (string, string) -> Bytes

  // ---- Homoglyph layer

  /** The positions of letters that have a twin, ascending. */
  function Carriers(chars: string): seq<nat> {
    if chars == "" then []
    else
      var n := |chars| - 1;
      Carriers(chars[..n]) + (if HasTwin(chars[n]) then [n] else [])
  }

  function TargetCount(n: nat, density: real): nat {
    if Round(n as real * density) > 1 then Round(n as real * density) else 1
  }

  function PositionMessage(id: string, pos: nat): string { id + "|homoglyph|" + Decimal(pos) }

  function Score(mac: Mac, c: Client): nat -> nat { (pos: nat) => FirstWord(mac(c.secret, PositionMessage(c.id, pos))) }

  /** The lowest-scoring carriers, as many as the density asks for and at least one. */
  function ChosenPositions(mac: Mac, c: Client, carriers: seq<nat>, density: real): seq<nat> {
    if carriers == [] then [] else Lowest(Score(mac, c), carriers, TargetCount(|carriers|, density))
  }

  ghost function Selected(mac: Mac, c: Client, carriers: seq<nat>, density: real): set<nat> {
    Elements(ChosenPositions(mac, c, carriers, density))
  }

  function Flipped(chars: string, positions: set<nat>): (r: string)
    ensures |r| == |chars|
  {
    seq(|chars|, i requires 0 <= i < |chars| => if i in positions then ToCyrillic(chars[i]) else chars[i])
  }

  datatype HomoglyphResult = HomoglyphResult(text: string, positions: seq<nat>, carrierCount: nat, flippedCount: nat)

  function HomoglyphLayer(mac: Mac, c: Client, text: string, density: real): HomoglyphResult {
    var chars := StripTwins(text);
    var carriers := Carriers(chars);
    var chosen := ChosenPositions(mac, c, carriers, density);
    HomoglyphResult(Flipped(chars, Elements(chosen)), Sort(AtMost(), (p: nat) => p, chosen), |carriers|, |chosen|)
  }

  method CollectCarriers(chars: string) returns (carriers: seq<nat>)
    ensures carriers == Carriers(chars)
  {
    carriers := [];
    for i := 0 to |chars|
      invariant carriers == Carriers(chars[..i])
    {
      assert chars[..i + 1][..i] == chars[..i];
      if HasTwin(chars[i]) {
        carriers := carriers + [i];
      }
    }
    assert chars[..|chars|] == chars;
  }

  method ApplyHomoglyphLayer(mac: Mac, c: Client, text: string, density: real) returns (r: HomoglyphResult)
    ensures r == HomoglyphLayer(mac, c, text, density)
  {
    hide ToCyrillic, ToLatin, Carriers, ChosenPositions, Sort;
    var canonical := StripHomoglyphs(text);
    var carriers := CollectCarriers(canonical);
    if |carriers| == 0 {
      NothingChosen(mac, c, density);
      assert Flipped(canonical, {}) == canonical;
      return HomoglyphResult(canonical, [], 0, 0);
    }
    var chars := new char[|canonical|](i requires 0 <= i < |canonical| => canonical[i]);
    var chosen := ChosenPositions(mac, c, carriers, density);
    ChosenAreCarriers(mac, c, canonical, density);
    assert chars[..] == Flipped(canonical, {});
    for k := 0 to |chosen|
      invariant chars[..] == Flipped(canonical, Elements(chosen[..k]))
    {
      var p := chosen[k];
      assert p in chosen;
      TwinsPair(canonical[p]);
      assert Elements(chosen[..k + 1]) == Elements(chosen[..k]) + {p};
      chars[p] := ToCyrillic(chars[p]);
    }
    assert chosen[..|chosen|] == chosen;
    r := HomoglyphResult(chars[..], Sort(AtMost(), (p: nat) => p, chosen), |carriers|, |chosen|);
  }

  lemma NothingChosen(mac: Mac, c: Client, density: real)
    ensures ChosenPositions(mac, c, [], density) == [] && Elements<nat>([]) == {} && Sort(AtMost(), (p: nat) => p, []) == []
  {}

  // ---- Facts about the choice

  lemma {:induction false} CarriersAre(chars: string)
    ensures forall i: nat :: i in Carriers(chars) <==> i < |chars| && HasTwin(chars[i])
    ensures forall i, j :: 0 <= i < j < |Carriers(chars)| ==> Carriers(chars)[i] < Carriers(chars)[j]
  {
    hide HasTwin;
    if chars != "" {
      var n := |chars| - 1;
      CarriersAre(chars[..n]);
      forall i | 0 <= i < |Carriers(chars[..n])|
        ensures Carriers(chars[..n])[i] < n
      {
        assert Carriers(chars[..n])[i] in Carriers(chars[..n]);
      }
    }
  }

  /** The choice takes distinct carriers, at least one if there is any, and none scores above a carrier left out. */
  lemma ChosenAreCarriers(mac: Mac, c: Client, chars: string, density: real)
    ensures var carriers := Carriers(chars);
            var chosen := ChosenPositions(mac, c, carriers, density);
            && (forall p: nat :: p in chosen ==> p in carriers && p < |chars| && HasTwin(chars[p]))
            && Distinct(chosen) && |Elements(chosen)| == |chosen|
            && |chosen| == ChosenCount(|carriers|, density)
            && (forall p, q: nat :: p in chosen && q in carriers && q !in chosen ==>
                  Score(mac, c)(p) < Score(mac, c)(q) || (Score(mac, c)(p) == Score(mac, c)(q) && p < q))
  {
    hide HasTwin, TargetCount, Score, Carriers, Lowest, Distinct;
    CarriersAre(chars);
    var carriers := Carriers(chars);
    Ascending(carriers);
    LowestLaws(Score(mac, c), carriers, if carriers == [] then 0 else TargetCount(|carriers|, density));
    if carriers == [] {
      DistinctCounts<nat>([]);
    }
    var chosen := ChosenPositions(mac, c, carriers, density);
    forall p, q: nat | p in chosen && q in carriers && q !in chosen
      ensures Score(mac, c)(p) < Score(mac, c)(q) || (Score(mac, c)(p) == Score(mac, c)(q) && p < q)
    {
      LowestInOrder(Score(mac, c), carriers, TargetCount(|carriers|, density), p, q);
    }
  }

  function ChosenCount(n: nat, density: real): nat {
    if TargetCount(n, density) < n then TargetCount(n, density) else n
  }

  /** What the score of a letter is: the first four bytes of the digest over client and position. */
  lemma ScoreMeans(mac: Mac, c: Client, pos: nat)
    requires forall key, message :: |mac(key, message)| == 32
    ensures Score(mac, c)(pos) == HighestFirst(mac(c.secret, c.id + ("|" + "homoglyph" + "|" + Decimal(pos)))[0..4])
  {
    hide Decimal;
    assert PositionMessage(c.id, pos) == c.id + ("|" + "homoglyph" + "|" + Decimal(pos));
    hide PositionMessage;
    FirstWordSpells(mac(c.secret, PositionMessage(c.id, pos)));
  }

  /**
    * Client and position can be told from what the homoglyph layer hashes, and the client from what the zero-width layer
    * hashes. No two of the three layers ever hash the same message, not even for different clients.
    */
  lemma LayersTell(id: string, pos: nat, id': string, pos': nat, group: nat, n: nat)
    ensures PositionMessage(id, pos) == PositionMessage(id', pos') <==> id == id' && pos == pos'
    ensures BitsMessage(id) == BitsMessage(id') <==> id == id'
    ensures PositionMessage(id, pos) != BitsMessage(id')
    ensures Synonyms.DrawMessage(id, group, n) != PositionMessage(id', pos)
    ensures Synonyms.DrawMessage(id, group, n) != BitsMessage(id')
  {
    LayerParts(id, pos);
    LayerParts(id', pos');
    LayerParts(id', pos);
    Synonyms.DrawParts(id, group, n);
    DecimalTells(pos, pos');
    NotDecimal(group);
    NotDecimal(n);
    NotDecimal(pos);
    hide PositionMessage, BitsMessage, Decimal;
    LastTells(id + (['|'] + "homoglyph"), id' + (['|'] + "homoglyph"), '|', Decimal(pos), Decimal(pos'));
    LastTells(id, id', '|', "homoglyph", "homoglyph");
    LastTells(id, id', '|', "zerowidth", "zerowidth");
    LastTells(id + (['|'] + "homoglyph"), id', '|', Decimal(pos), "zerowidth");
    LastTells(id + (['|'] + Decimal(group)), id' + (['|'] + "homoglyph"), '|', Decimal(n), Decimal(pos));
    LastTells(id, id', '|', Decimal(group), "homoglyph");
    LastTells(id + (['|'] + Decimal(group)), id', '|', Decimal(n), "zerowidth");
  }

  lemma LayerParts(id: string, pos: nat)
    ensures PositionMessage(id, pos) == id + (['|'] + "homoglyph") + (['|'] + Decimal(pos))
    ensures BitsMessage(id) == id + (['|'] + "zerowidth")
  {
    hide Decimal;
  }

  lemma NotDecimal(n: nat)
    ensures Decimal(n) != "homoglyph" && Decimal(n) != "zerowidth"
  {
    assert "homoglyph"[0] == 'h' && "zerowidth"[0] == 'z';
  }

  // ---- Zero-width layer

  function BitsMessage(id: string): string { id + "|zerowidth" }

  function ClientBits(mac: Mac, c: Client, nBits: nat): seq<bool> { DigestBits(mac(c.secret, BitsMessage(c.id)), nBits) }

  function ZeroWidthLayer(mac: Mac, c: Client, text: string, nBits: nat): string {
    Framed(ClientBits(mac, c, nBits)) + Visible(text)
  }

  method ApplyZeroWidthLayer(mac: Mac, c: Client, text: string, nBits: nat) returns (out: string, bits: seq<bool>)
    ensures out == ZeroWidthLayer(mac, c, text, nBits) && bits == ClientBits(mac, c, nBits)
  {
    var canonical := StripZeroWidth(text);
    bits := ReadBits(mac(c.secret, BitsMessage(c.id)), nBits);
    var payload := BitsToZeroWidth(bits);
    out := [ZW_MARK] + payload + [ZW_MARK] + canonical;
  }

  // ---- The pipeline

  function Canonical(text: string): string { Visible(StripTwins(text)) }

  datatype Options = Options(density: real, nBits: nat)

  /** What protecting a text yields, layer by layer. */
  datatype Protection = Protection(text: string, synonyms: Synonyms.ShuffleResult, homoglyphs: HomoglyphResult, bits: seq<bool>)

  function Protect(lex: Synonyms.Lexicon, mac: Mac, c: Client, opts: Options, text: string): Protection {
    var syn := Synonyms.Shuffle(lex, c, Canonical(text));
    var homo := HomoglyphLayer(mac, c, syn.text, opts.density);
    Protection(ZeroWidthLayer(mac, c, homo.text, opts.nBits), syn, homo, ClientBits(mac, c, opts.nBits))
  }

  method ProtectByClient(lex: Synonyms.Lexicon, table: map<string, Synonyms.Entry>, mac: Mac, c: Client, opts: Options,
                         text: string)
    returns (r: Protection)
    requires Synonyms.IsTable(lex, table)
    ensures r == Protect(lex, mac, c, opts, text)
  {
    hide Synonyms.IsTable, HomoglyphLayer, ZeroWidthLayer, Synonyms.Shuffle, ClientBits, Visible, StripTwins;
    var latin := StripHomoglyphs(text);
    var canonical := StripZeroWidth(latin);
    var syn := Synonyms.ShuffleByClient(lex, table, canonical, c);
    var homo := ApplyHomoglyphLayer(mac, c, syn.text, opts.density);
    var out, bits := ApplyZeroWidthLayer(mac, c, homo.text, opts.nBits);
    r := Protection(out, syn, homo, bits);
  }

  // ---- What the pipeline keeps

  /** Free of both kinds of carrier state: no Cyrillic twin, no zero-width character. */
  predicate Plain(text: string) { NoTwins(text) && AllVisible(text) }

  lemma CanonicalIsPlain(text: string)
    ensures Plain(Canonical(text))
    ensures Plain(text) ==> Canonical(text) == text
  {
    hide IsTwin, ToLatin, IsZeroWidth;
    var latin := StripTwins(text);
    StripIsStable(text);
    VisibleIsStable(latin);
    VisibleKeepsAll(latin, (ch: char) => !IsTwin(ch));
  }

  lemma LettersArePlain(ch: char)
    requires Synonyms.IsLetter(ch)
    ensures !IsTwin(ch) && !IsZeroWidth(ch)
  {}

  lemma ShuffledIsPlain(lex: Synonyms.Lexicon, c: Client, text: string)
    requires Synonyms.LawfulLexicon(lex) && Plain(text)
    ensures Plain(Synonyms.Shuffle(lex, c, text).text)
  {
    hide IsTwin, IsZeroWidth, Synonyms.IsLetter, Synonyms.LawfulLexicon, Synonyms.Shuffled;
    forall ch | Synonyms.IsLetter(ch)
      ensures !IsTwin(ch) && !IsZeroWidth(ch)
    {
      LettersArePlain(ch);
    }
    var p := (ch: char) => !IsTwin(ch) && !IsZeroWidth(ch);
    Synonyms.ShuffleKeepsAll(lex, c, text, map[], p);
  }

  lemma TwinIsVisible(ch: char)
    requires !IsZeroWidth(ch)
    ensures !IsZeroWidth(ToCyrillic(ch))
  {}

  /** Flipping letters can be undone, and shows nothing but letters. */
  lemma FlippedStrips(chars: string, positions: set<nat>)
    requires NoTwins(chars)
    ensures StripTwins(Flipped(chars, positions)) == chars
    ensures AllVisible(chars) ==> AllVisible(Flipped(chars, positions))
  {
    hide ToCyrillic, ToLatin, IsZeroWidth;
    forall i | 0 <= i < |chars|
      ensures ToLatin(Flipped(chars, positions)[i]) == chars[i]
      ensures !IsZeroWidth(chars[i]) ==> !IsZeroWidth(Flipped(chars, positions)[i])
    {
      assert !IsTwin(chars[i]);
      TwinsPair(chars[i]);
      if !IsZeroWidth(chars[i]) {
        TwinIsVisible(chars[i]);
      }
    }
    assert |StripTwins(Flipped(chars, positions))| == |chars|;
  }

  lemma FrameChar(ch: char)
    requires ch == ZW_MARK || ch == ZW_ZERO || ch == ZW_ONE
    ensures IsZeroWidth(ch) && ToLatin(ch) == ch
  {}

  /** The frame has no letters to strip and leaves nothing visible. */
  lemma FrameVanishes(bits: seq<bool>)
    ensures StripTwins(Framed(bits)) == Framed(bits) && Visible(Framed(bits)) == ""
  {
    hide ToLatin, IsZeroWidth;
    var f := Framed(bits);
    forall i | 0 <= i < |f|
      ensures IsZeroWidth(f[i]) && ToLatin(f[i]) == f[i]
    {
      FrameChar(f[i]);
    }
    VisibleDropsAll(f);
  }

  /** What the homoglyph layer does to plain text, and how it is undone. */
  lemma LayerOnPlain(mac: Mac, c: Client, text: string, density: real)
    requires Plain(text)
    ensures var r := HomoglyphLayer(mac, c, text, density);
            && r.text == Flipped(text, Selected(mac, c, Carriers(text), density))
            && StripTwins(r.text) == text && AllVisible(r.text)
  {
    hide IsTwin, IsZeroWidth, Flipped, ChosenPositions, Carriers;
    StripIsStable(text);
    FlippedStrips(text, Selected(mac, c, Carriers(text), density));
  }

  /** Stripping the carriers of a protected text leaves the shuffled text, whatever the original held. */
  lemma CanonicalOfProtected(lex: Synonyms.Lexicon, mac: Mac, c: Client, opts: Options, text: string)
    requires Synonyms.LawfulLexicon(lex)
    ensures Canonical(Protect(lex, mac, c, opts, text).text) == Synonyms.Shuffle(lex, c, Canonical(text)).text
    ensures Plain(Synonyms.Shuffle(lex, c, Canonical(text)).text)
  {
    hide Synonyms.LawfulLexicon, Synonyms.Shuffle, HomoglyphLayer, ClientBits, Framed, StripTwins, Visible;
    CanonicalIsPlain(text);
    ShuffledIsPlain(lex, c, Canonical(text));
    var plain := Synonyms.Shuffle(lex, c, Canonical(text)).text;
    LayerOnPlain(mac, c, plain, opts.density);
    var marked := HomoglyphLayer(mac, c, plain, opts.density).text;
    var frame := Framed(ClientBits(mac, c, opts.nBits));
    FrameVanishes(ClientBits(mac, c, opts.nBits));
    VisibleIsStable(marked);
    StripTwinsConcat(frame, marked);
    VisibleConcat(frame, plain);
    VisibleIsStable(plain);
  }

  /**
    * Protecting a protected text again for the same client changes nothing. The second pass replaces no word, so its
    * record of replacements is empty even where that of the first was not.
    */
  lemma ProtectIsStable(lex: Synonyms.Lexicon, mac: Mac, c: Client, opts: Options, text: string)
    requires Synonyms.LawfulLexicon(lex)
    ensures var once := Protect(lex, mac, c, opts, text);
            var twice := Protect(lex, mac, c, opts, once.text);
            && twice.text == once.text && twice.homoglyphs == once.homoglyphs && twice.bits == once.bits
            && twice.synonyms.text == once.synonyms.text && twice.synonyms.replacements == []
  {
    hide Synonyms.LawfulLexicon, Synonyms.Shuffled, Synonyms.Replaced, HomoglyphLayer, ZeroWidthLayer, ClientBits, Canonical;
    CanonicalOfProtected(lex, mac, c, opts, text);
    Synonyms.ShuffleIsStable(lex, c, Canonical(text), map[], 0);
  }

  /**
    * Only the text is a fixed point: the variant hash stays exactly if the first pass replaced nothing, or if the keyed
    * hash has one value for the two different messages of a list of replacements and of an empty one.
    */
  lemma VariantHashCanChange(lex: Synonyms.Lexicon, mac: Mac, c: Client, opts: Options, text: string)
    requires Synonyms.LawfulLexicon(lex)
    ensures var once := Protect(lex, mac, c, opts, text);
            var twice := Protect(lex, mac, c, opts, once.text);
            var p, q := Synonyms.VariantMessage(lex, c, once.synonyms.replacements), Synonyms.VariantMessage(lex, c, []);
            && (once.synonyms.replacements != [] ==> p != q)
            && (twice.synonyms.variantHash == once.synonyms.variantHash <==>
                once.synonyms.replacements == [] || lex.variant(c.secret, p) == lex.variant(c.secret, q))
  {
    hide Synonyms.LawfulLexicon, Synonyms.Shuffled, Synonyms.Replaced, HomoglyphLayer, ZeroWidthLayer, ClientBits, Canonical;
    ProtectIsStable(lex, mac, c, opts, text);
    VariantMessagesDiffer(lex, c, Protect(lex, mac, c, opts, text).synonyms.replacements);
  }

  lemma VariantMessagesDiffer(lex: Synonyms.Lexicon, c: Client, rs: seq<Synonyms.Replacement>)
    ensures rs != [] ==> Synonyms.VariantMessage(lex, c, rs) != Synonyms.VariantMessage(lex, c, [])
  {
    if rs != [] {
      assert |Synonyms.Joined(lex, rs)| > 0;
      assert |Synonyms.VariantMessage(lex, c, rs)| > |Synonyms.VariantMessage(lex, c, [])|;
    }
  }

  /** How many carriers are flipped: the rounded share of them, at least one, and all if that is more. */
  lemma ChosenCountMeans(n: nat, density: real)
    ensures var w, c := Round(n as real * density), ChosenCount(n, density);
            (n == 0 ==> c == 0) && (n >= 1 && w <= 1 ==> c == 1) && (1 <= w <= n ==> c == w) && (w >= n ==> c == n)
  {
    hide Round;
    if n == 0 {
      assert n as real * density == 0.0;
    }
  }
}
