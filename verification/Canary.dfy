/**
  * The canary: a made-up sentence in invisible markers, noised with look-alike letters and zero-width characters,
  * placed behind one of the sentences of a text; and its verification.
  */
module Canary {
  import opened Decimals
  import opened Prelude
  import opened Bytes
  import opened Homoglyph
  import opened Markers
  import opened Search
  import opened Whitespace
  import opened ZeroWidth

  const CANARY_OPEN := '\U{2063}'
  const CANARY_CLOSE := '\U{2064}'

  /**
    * What the canary takes from the runtime: the keyed digest of a seed, lower-casing of a character, and the random
    * draws used where the secret is empty.
    */
  datatype Host = Host(mac: (string, string) -> Bytes, lower: char -> string, random: nat -> real)

  /** Digests have 32 bytes; lower-casing keeps white space, and makes none. */
  ghost predicate LawfulHost(h: Host) {
    && (forall secret, seed :: |h.mac(secret, seed)| == 32)
    && (forall c :: if IsSpace(c) then h.lower(c) == [c] else h.lower(c) != "" && NoSpace(h.lower(c)))
  }

  predicate NoSpace(s: string) { forall i :: 0 <= i < |s| ==> !IsSpace(s[i]) }

  // ---- The fact

  function Terms(): seq<string> {
    ["kreatofibrin", "velmoria", "tezaktin", "morbiotik", "synaptolen", "ferrozaktil", "neurokinaz", "lipotrenz",
     "cytoveldin", "axoprenil", "metaglobin", "thyrovexin", "pyroxalit", "endokrazil", "myelovax"]
  }

  function Nouns(): seq<string> { FirstNouns() + LastNouns() }

  function FirstNouns(): seq<string> {
    ["endeksi", "sendromu", "reaksiyonu", "katsay\U{0131}s\U{0131}", "faz ge\U{00E7}i\U{015F}i",
     "aktivasyon e\U{015F}i\U{011F}i"]
  }

  function LastNouns(): seq<string> {
    ["rezonans b\U{00F6}lgesi", "denge sabiti", "saturasyon noktas\U{0131}", "iyon mobilitesi",
     "yar\U{0131} \U{00F6}mr\U{00FC}", "dispersiyon profili"]
  }

  /** All the words start with a letter from a to z. */
  function Capitalize(s: string): string {
    if s != "" && 'a' <= s[0] <= 'z' then [(s[0] as int - 32) as char] + s[1..] else s
  }

  function Start(template: nat, term: string, noun: string): string {
    if template == 1 then Capitalize(noun) else if template == 2 then "Standart " else Capitalize(term)
  }

  function Joint(template: nat): string {
    if template == 0 then " "
    else if template == 1 then ") i\U{00E7}in referans de\U{011F}er "
    else if template == 2 then " e\U{015F}i\U{011F}i "
    else " kaynakl\U{0131} "
  }

  function Middle(template: nat, term: string, noun: string, n: string): string {
    if template == 0 then " " + noun + Joint(0) + n
    else if template == 1 then " (" + term + Joint(1) + n
    else if template == 2 then term + " " + noun + Joint(2) + n
    else Joint(3) + noun + " " + n
  }

  function Closing(template: nat): string {
    if template == 0 then " olarak \U{00F6}l\U{00E7}\U{00FC}lm\U{00FC}\U{015F}t\U{00FC}r."
    else if template == 1 then " kabul edilir."
    else if template == 2 then " civar\U{0131}ndad\U{0131}r."
    else " oran\U{0131}nda g\U{00F6}zlemlenir."
  }

  /** The four templates. */
  function Statement(template: nat, term: string, noun: string, n: string): string {
    Start(template, term, noun) + Middle(template, term, noun, n) + Closing(template)
  }

  function GetBE(b: Bytes, at: nat, n: nat): nat
    requires at + n <= |b|
  {
    if n == 0 then 0 else 256 * GetBE(b, at, n - 1) + b[at + n - 1] as int
  }

  function TwoDigits(n: nat): string
    requires n < 100
  {
    [(48 + n / 10) as char, (48 + n % 10) as char]
  }

  datatype Fact = Fact(text: string, term: string)

  function FactFrom(mac: Bytes): Fact
    requires |mac| == 32
  {
    var term, noun := Terms()[GetBE(mac, 0, 4) % 15], Nouns()[GetBE(mac, 4, 4) % 12];
    var number := TwoDigits(GetBE(mac, 12, 2) % 90 + 10) + "." + TwoDigits(GetBE(mac, 14, 2) % 100);
    Fact(Statement(GetBE(mac, 8, 4) % 4, term, noun, number), term)
  }

  function FactOf(h: Host, docId: string, secret: string): Fact
    requires LawfulHost(h)
  {
    FactFrom(h.mac(secret, "canary-fact:" + docId))
  }

  /** Characters below U+0400: no Cyrillic twins, no zero-width characters, no markers. */
  predicate Low(s: string) { forall i :: 0 <= i < |s| ==> s[i] as int < 0x400 }

  /** A sentence of plain characters that starts visibly and ends with a full stop. */
  predicate Sentence(s: string) { Low(s) && s != "" && !IsSpace(s[0]) && s[|s| - 1] == '.' }

  predicate Word(s: string) { Low(s) && s != "" && 'a' <= s[0] <= 'z' }

  lemma TermsAreWords(i: nat)
    requires i < 15
    ensures Word(Terms()[i])
  {}

  lemma FirstNounsAreWords(i: nat)
    requires i < 6
    ensures |FirstNouns()| == 6 && Word(FirstNouns()[i])
  {}

  lemma LastNounsAreWords(i: nat)
    requires i < 6
    ensures |LastNouns()| == 6 && Word(LastNouns()[i])
  {}

  lemma NounsAreWords(i: nat)
    requires i < 12
    ensures |Nouns()| == 12 && Word(Nouns()[i])
  {
    hide FirstNouns, LastNouns, Word;
    FirstNounsAreWords(if i < 6 then i else 0);
    LastNounsAreWords(if i < 6 then 0 else i - 6);
  }

  lemma CapitalizedWord(w: string)
    requires Word(w)
    ensures Low(Capitalize(w)) && Capitalize(w) != "" && !IsSpace(Capitalize(w)[0])
  {}

  lemma LowConcat(x: string, y: string)
    requires Low(x) && Low(y)
    ensures Low(x + y)
  {}

  /** A sentence from a visible beginning, a low middle and a closing. */
  lemma SentenceFrom(start: string, middle: string, close: string)
    requires Low(start) && start != "" && !IsSpace(start[0]) && Low(middle)
    requires Low(close) && close != "" && close[|close| - 1] == '.'
    ensures Sentence(start + middle + close)
  {}

  lemma ClosingIsLow(template: nat)
    ensures var close := Closing(template); Low(close) && close != "" && close[|close| - 1] == '.'
  {}

  lemma StartIsVisible(template: nat, term: string, noun: string)
    requires Word(term) && Word(noun)
    ensures var start := Start(template, term, noun); Low(start) && start != "" && !IsSpace(start[0])
  {
    CapitalizedWord(term);
    CapitalizedWord(noun);
    hide Capitalize;
  }

  lemma JointIsLow(template: nat)
    ensures Low(Joint(template)) && Low(" ") && Low(" (")
  {}

  lemma FourLow(x: string, y: string, z: string, w: string)
    requires Low(x) && Low(y) && Low(z) && Low(w)
    ensures Low(x + y + z + w)
  {}

  lemma MiddleIsLow(template: nat, term: string, noun: string, n: string)
    requires Word(term) && Word(noun) && Low(n)
    ensures Low(Middle(template, term, noun, n))
  {
    hide Low, Joint;
    JointIsLow(0);
    JointIsLow(1);
    JointIsLow(2);
    JointIsLow(3);
    if template == 0 {
      FourLow(" ", noun, Joint(0), n);
    } else if template == 1 {
      FourLow(" (", term, Joint(1), n);
    } else if template == 2 {
      FourLow(term, " ", noun, Joint(2));
      LowConcat(term + " " + noun + Joint(2), n);
    } else {
      FourLow(Joint(3), noun, " ", n);
    }
  }

  lemma StatementIsSentence(template: nat, term: string, noun: string, n: string)
    requires Word(term) && Word(noun) && Low(n)
    ensures Sentence(Statement(template, term, noun, n))
  {
    hide Low, Sentence, Start, Middle, Closing;
    StartIsVisible(template, term, noun);
    MiddleIsLow(template, term, noun, n);
    ClosingIsLow(template);
    SentenceFrom(Start(template, term, noun), Middle(template, term, noun, n), Closing(template));
  }

  lemma FactIsSentence(mac: Bytes)
    requires |mac| == 32
    ensures Sentence(FactFrom(mac).text)
  {
    hide Terms, Nouns, Statement, GetBE, Sentence;
    TermsAreWords(GetBE(mac, 0, 4) % 15);
    NounsAreWords(GetBE(mac, 4, 4) % 12);
    TablesAreFull();
    var number := TwoDigits(GetBE(mac, 12, 2) % 90 + 10) + "." + TwoDigits(GetBE(mac, 14, 2) % 100);
    assert Low(number);
    StatementIsSentence(GetBE(mac, 8, 4) % 4, Terms()[GetBE(mac, 0, 4) % 15], Nouns()[GetBE(mac, 4, 4) % 12], number);
  }

  lemma TablesAreFull()
    ensures |Terms()| == 15 && |Nouns()| == 12
  {}

  // ---- Noise

  function Clamp(density: real): real { if density < 0.0 then 0.0 else if density > 1.0 then 1.0 else density }

  function NoiseMark(r: real): char {
    var pick := (r * 1000.0).Floor % 3;
    if pick == 0 then ZW_ZERO else if pick == 1 then ZW_ONE else ZW_MARK
  }

  /** The characters one character becomes, for one draw. */
  function Noised(c: char, density: real, r: real): string {
    [if r < density && HasTwin(c) then ToCyrillic(c) else c] + (if r < density / 2.0 then [NoiseMark(r)] else "")
  }

  function Wrapped(text: string, density: real, draw: nat -> real): string {
    if text == "" then ""
    else
      var n := |text| - 1;
      Wrapped(text[..n], density, draw) + Noised(text[n], density, draw(n))
  }

  method WrapWithEntropy(text: string, density: real, draw: nat -> real) returns (out: string)
    ensures out == Wrapped(text, Clamp(density), draw)
  {
    hide HasTwin, ToCyrillic, NoiseMark;
    var d := if density < 0.0 then 0.0 else if density > 1.0 then 1.0 else density;
    out := "";
    var counter := 0;
    for i := 0 to |text|
      invariant counter == i && out == Wrapped(text[..i], d, draw)
    {
      assert text[..i + 1][..i] == text[..i];
      var r := draw(counter);
      counter := counter + 1;
      var piece := if r < d && HasTwin(text[i]) then [ToCyrillic(text[i])] else [text[i]];
      if r < d / 2.0 {
        piece := piece + [NoiseMark(r)];
      }
      out := out + piece;
    }
    assert text[..|text|] == text;
  }

  /** The text without noise. */
  function Cleaned(text: string): string { StripTwins(Visible(text)) }

  method StripCanaryNoise(text: string) returns (out: string)
    ensures out == Cleaned(text)
  {
    hide ToLatin, IsZeroWidth, Cleaned;
    out := "";
    NothingToClean();
    for i := 0 to |text|
      invariant out == Cleaned(text[..i])
    {
      assert text[..i + 1] == text[..i] + [text[i]];
      CleanedConcat(text[..i], [text[i]]);
      CleanedChar(text[i]);
      if !IsZeroWidth(text[i]) {
        out := out + [ToLatin(text[i])];
      }
    }
    assert text[..|text|] == text;
  }

  lemma CleanedChar(c: char)
    ensures Cleaned([c]) == if IsZeroWidth(c) then "" else [ToLatin(c)]
  {
    assert [c][..0] == "";
    assert Visible([c]) == if IsZeroWidth(c) then "" else [c];
  }

  lemma NothingToClean()
    ensures Cleaned("") == ""
  {}

  lemma CleanedConcat(x: string, y: string)
    ensures Cleaned(x + y) == Cleaned(x) + Cleaned(y)
  {
    hide Visible, StripTwins;
    VisibleConcat(x, y);
    StripTwinsConcat(Visible(x), Visible(y));
  }

  lemma LowIsPlain(c: char)
    requires c as int < 0x400
    ensures !IsTwin(c) && !IsZeroWidth(c) && ToCyrillic(c) != CANARY_OPEN && ToCyrillic(c) != CANARY_CLOSE
    ensures !IsZeroWidth(ToCyrillic(c)) && ToLatin(ToCyrillic(c)) == c && ToLatin(c) == c
    ensures c != CANARY_OPEN && c != CANARY_CLOSE
  {
    TwinsPair(c);
  }

  lemma MarksAreNoise(r: real)
    ensures IsZeroWidth(NoiseMark(r)) && NoiseMark(r) != CANARY_OPEN && NoiseMark(r) != CANARY_CLOSE
  {}

  lemma NoisedCleans(c: char, density: real, r: real)
    requires c as int < 0x400
    ensures Cleaned(Noised(c, density, r)) == [c]
    ensures CANARY_OPEN !in Noised(c, density, r) && CANARY_CLOSE !in Noised(c, density, r)
  {
    hide ToCyrillic, ToLatin, NoiseMark, IsZeroWidth, Cleaned;
    LowIsPlain(c);
    MarksAreNoise(r);
    var ch := if r < density && HasTwin(c) then ToCyrillic(c) else c;
    CleanedChar(ch);
    assert [ch] + "" == [ch];
    if r < density / 2.0 {
      CleanedChar(NoiseMark(r));
      CleanedConcat([ch], [NoiseMark(r)]);
      assert [c] + "" == [c];
    }
  }

  /** Noise can be cleaned off, whatever the density and the draws, and holds no marker. */
  lemma {:induction false} WrappedCleans(text: string, density: real, draw: nat -> real)
    requires Low(text)
    ensures Cleaned(Wrapped(text, density, draw)) == text
    ensures CANARY_OPEN !in Wrapped(text, density, draw) && CANARY_CLOSE !in Wrapped(text, density, draw)
  {
    hide Noised, Cleaned;
    if text == "" {
      NothingToClean();
    } else {
      var n := |text| - 1;
      WrappedCleans(text[..n], density, draw);
      NoisedCleans(text[n], density, draw(n));
      CleanedConcat(Wrapped(text[..n], density, draw), Noised(text[n], density, draw(n)));
      assert text == text[..n] + [text[n]];
    }
  }

  // ---- Sentences

  predicate EndsSentence(c: char) { c == '.' || c == '!' || c == '?' || c == '\n' }

  /** The sentences of a text that are complete, and the rest behind the last of them. */
  function Pieces(text: string): (r: (seq<string>, string)) {
    if text == "" then ([], "")
    else
      var c := text[|text| - 1];
      var (done, rest) := Pieces(text[..|text| - 1]);
      if EndsSentence(c) then (done + [rest + [c]], "") else (done, rest + [c])
  }

  function Sentences(text: string): seq<string> {
    var (done, rest) := Pieces(text);
    if rest == "" then done else done + [rest]
  }

  method SplitSentences(text: string) returns (out: seq<string>)
    ensures out == Sentences(text)
  {
    out := [];
    var buf := "";
    for i := 0 to |text|
      invariant (out, buf) == Pieces(text[..i])
    {
      assert text[..i + 1][..i] == text[..i];
      buf := buf + [text[i]];
      if text[i] == '.' || text[i] == '!' || text[i] == '?' || text[i] == '\n' {
        out := out + [buf];
        buf := "";
      }
    }
    assert text[..|text|] == text;
    if |buf| > 0 {
      out := out + [buf];
    }
  }

  function Joined(parts: seq<string>): string {
    if parts == [] then "" else Joined(parts[..|parts| - 1]) + parts[|parts| - 1]
  }

  lemma JoinedNext(parts: seq<string>, part: string)
    ensures Joined(parts + [part]) == Joined(parts) + part
  {
    assert (parts + [part])[..|parts|] == parts;
  }

  lemma {:induction false} JoinedConcat(x: seq<string>, y: seq<string>)
    ensures Joined(x + y) == Joined(x) + Joined(y)
  {
    if y == [] {
      assert x + y == x;
    } else {
      var n := |y| - 1;
      assert (x + y)[..|x + y| - 1] == x + y[..n];
      JoinedConcat(x, y[..n]);
    }
  }

  lemma {:induction false} PiecesJoin(text: string)
    ensures Joined(Pieces(text).0) + Pieces(text).1 == text
  {
    if text != "" {
      var n := |text| - 1;
      var (done, rest) := Pieces(text[..n]);
      PiecesJoin(text[..n]);
      JoinedNext(done, rest + [text[n]]);
      assert text == text[..n] + [text[n]];
    }
  }

  /** Splitting loses nothing, wherever the sentences are parted. */
  lemma SentencesJoin(text: string, k: nat)
    requires k <= |Sentences(text)|
    ensures Joined(Sentences(text)[..k]) + Joined(Sentences(text)[k..]) == text
  {
    var all := Sentences(text);
    PiecesJoin(text);
    JoinedNext(Pieces(text).0, Pieces(text).1);
    assert all[..k] + all[k..] == all;
    JoinedConcat(all[..k], all[k..]);
  }

  // ---- Injection

  /** The draws of the noise: keyed where there is a secret, random otherwise. */
  function Draws(h: Host, docId: string, secret: string): nat -> real {
    (i: nat) =>
      var mac := h.mac(secret, "canary-wrap:" + docId + ":e:" + Decimal(i));
      if secret != "" && |mac| >= 4 then GetBE(mac, 0, 4) as real / 4294967295.0 else h.random(i)
  }

  function Marked(h: Host, docId: string, secret: string, density: Option<real>): string
    requires LawfulHost(h)
  {
    [CANARY_OPEN]
    + Wrapped(FactOf(h, docId, secret).text, Clamp(density.UnwrapOr(0.15)), Draws(h, docId, secret))
    + [CANARY_CLOSE]
  }

  /** Where the canary goes: the text before and behind it, and the padding on both sides. */
  datatype Placement = Placement(before: string, lead: string, trail: string, after: string, injectedAt: nat)

  function Place(h: Host, docId: string, secret: string, text: string): Placement
    requires LawfulHost(h)
  {
    var parts := Sentences(text);
    if parts == [] then Placement("", "", "", "", 0)
    else
      var pos := GetBE(h.mac(secret, "canary-pos:" + docId), 0, 4) % |parts|;
      var before, after := Joined(parts[..pos + 1]), Joined(parts[pos + 1..]);
      Placement(before, if before == "" || IsSpace(before[|before| - 1]) then "" else " ",
                if after == "" || IsSpace(after[0]) then "" else " ", after, pos)
  }

  datatype Injection = Injection(text: string, canary: Fact, injectedAt: nat)

  function Inject(h: Host, docId: string, secret: string, density: Option<real>, text: string): Injection
    requires LawfulHost(h)
  {
    var p := Place(h, docId, secret, text);
    Injection(p.before + p.lead + Marked(h, docId, secret, density) + p.trail + p.after, FactOf(h, docId, secret), p.injectedAt)
  }

  method InjectRadioactiveCanary(h: Host, docId: string, secret: string, density: Option<real>, text: string) returns (r: Injection)
    requires LawfulHost(h)
    ensures r == Inject(h, docId, secret, density, text)
  {
    hide LawfulHost, Wrapped, Sentences, Joined, Draws, GetBE, FactFrom;
    MacSize(h, secret, "canary-fact:" + docId);
    MacSize(h, secret, "canary-pos:" + docId);
    var canary := FactFrom(h.mac(secret, "canary-fact:" + docId));
    var noise := WrapWithEntropy(canary.text, density.UnwrapOr(0.15), Draws(h, docId, secret));
    var wrapped := [CANARY_OPEN] + noise + [CANARY_CLOSE];
    var sentences := SplitSentences(text);
    if |sentences| == 0 {
      assert "" + "" + wrapped + "" + "" == wrapped;
      return Injection(wrapped, canary, 0);
    }
    var pos := GetBE(h.mac(secret, "canary-pos:" + docId), 0, 4) % |sentences|;
    var before, after := Joined(sentences[..pos + 1]), Joined(sentences[pos + 1..]);
    var lead := if |before| == 0 || IsSpace(before[|before| - 1]) then "" else " ";
    var trail := if |after| == 0 then "" else if IsSpace(after[0]) then "" else " ";
    r := Injection(before + lead + wrapped + trail + after, canary, pos);
  }

  lemma MacSize(h: Host, secret: string, seed: string)
    requires LawfulHost(h)
    ensures |h.mac(secret, seed)| == 32
  {}

  /** Cutting the canary and its padding out again leaves the original text. */
  lemma RemovalRestores(h: Host, docId: string, secret: string, density: Option<real>, text: string)
    requires LawfulHost(h)
    ensures var p := Place(h, docId, secret, text);
            var out := Inject(h, docId, secret, density, text).text;
            var end := |p.before| + |p.lead| + |Marked(h, docId, secret, density)| + |p.trail|;
            && end <= |out| && out[..|p.before|] + out[end..] == text
            && |p.lead| <= 1 && |p.trail| <= 1
  {
    hide LawfulHost, Sentences, Joined, GetBE, Marked, FactOf;
    var p := Place(h, docId, secret, text);
    MacSize(h, secret, "canary-pos:" + docId);
    var parts := Sentences(text);
    if parts == [] {
      SentencesJoin(text, 0);
      NothingJoined();
      assert parts[..0] == [] && parts[0..] == [];
    } else {
      SentencesJoin(text, GetBE(h.mac(secret, "canary-pos:" + docId), 0, 4) % |parts| + 1);
    }
    assert p.before + p.after == text;
    CutOut(p.before, p.lead, Marked(h, docId, secret, density), p.trail, p.after);
  }

  lemma NothingJoined()
    ensures Joined([]) == ""
  {}

  lemma CutOut(x: string, a: string, b: string, c: string, y: string)
    ensures var out := x + a + b + c + y;
            out[..|x|] == x && out[|x| + |a| + |b| + |c|..] == y
  {}

  // ---- Extraction

  datatype Extracted = Extracted(raw: string, cleaned: string)

  function MarkerFrame(): Frame<char> { Frame([CANARY_OPEN], [CANARY_CLOSE]) }

  /** An opening marker pairs with the next closing marker; the search goes on behind that. */
  function Extractions(text: string): seq<Extracted> {
    var bodies := ScanFrom(MarkerFrame(), text, 0).bodies;
    seq(|bodies|, i requires 0 <= i < |bodies| => Extracted(bodies[i], Cleaned(bodies[i])))
  }

  method ExtractCanaries(text: string) returns (out: seq<Extracted>)
    ensures out == Extractions(text)
  {
    hide IndexOf, At, Cleaned;
    var f := MarkerFrame();
    out := [];
    var cursor := 0;
    ghost var bodies: seq<string> := [];
    ghost var all := ScanFrom(f, text, 0).bodies;
    while cursor < |text|
      invariant all == bodies + ScanFrom(f, text, cursor).bodies
      invariant |out| == |bodies| && forall i :: 0 <= i < |out| ==> out[i] == Extracted(bodies[i], Cleaned(bodies[i]))
      decreases |text| - cursor
    {
      var open := IndexOf(text, f.begin, cursor);
      IndexOfFirst(text, f.begin, cursor);
      if open.None? {
        assert all == bodies;
        return;
      }
      IndexOfFirst(text, f.end, open.value + 1);
      var close := IndexOf(text, f.end, open.value + 1);
      if close.None? {
        assert all == bodies;
        return;
      }
      var raw := text[open.value + 1..close.value];
      var cleaned := StripCanaryNoise(raw);
      cursor := close.value + 1;
      out := out + [Extracted(raw, cleaned)];
      assert bodies + ([raw] + ScanFrom(f, text, cursor).bodies) == (bodies + [raw]) + ScanFrom(f, text, cursor).bodies;
      bodies := bodies + [raw];
    }
    assert all == bodies;
  }

  // ---- Matching

  function Lowered(h: Host, s: string): string {
    if s == "" then "" else Lowered(h, s[..|s| - 1]) + h.lower(s[|s| - 1])
  }

  /** Every run of white space becomes one blank. */
  function Collapsed(s: string): string {
    if s == "" then ""
    else
      var front, last := s[..|s| - 1], s[|s| - 1];
      Collapsed(front)
      + (if !IsSpace(last) then [last] else if front != "" && IsSpace(front[|front| - 1]) then "" else " ")
  }

  function Normalized(h: Host, s: string): string { Trim(Collapsed(Lowered(h, s))) }

  datatype Verdict = InMarker | InPlaintext | NotFound {
    predicate Found() { !NotFound? }
  }

  function Verify(h: Host, docId: string, secret: string, text: string): (r: Verdict)
    requires LawfulHost(h)
  {
    var expected := Normalized(h, FactOf(h, docId, secret).text);
    if exists i :: 0 <= i < |Extractions(text)| && Contains(Normalized(h, Extractions(text)[i].cleaned), expected) then InMarker
    else if Contains(Normalized(h, Cleaned(text)), expected) then InPlaintext
    else NotFound
  }

  method VerifyCanary(h: Host, docId: string, secret: string, text: string) returns (r: Verdict, matches: seq<Extracted>)
    requires LawfulHost(h)
    ensures r == Verify(h, docId, secret, text) && matches == Extractions(text)
  {
    hide LawfulHost, Normalized, FactFrom, Cleaned, Contains, Extractions;
    MacSize(h, secret, "canary-fact:" + docId);
    var expected := FactFrom(h.mac(secret, "canary-fact:" + docId));
    var expectedNorm := Normalized(h, expected.text);
    matches := ExtractCanaries(text);
    var inMarkers := false;
    for i := 0 to |matches|
      invariant inMarkers <==> exists k :: 0 <= k < i && Contains(Normalized(h, matches[k].cleaned), expectedNorm)
    {
      inMarkers := inMarkers || Contains(Normalized(h, matches[i].cleaned), expectedNorm);
    }
    if inMarkers {
      return InMarker, matches;
    }
    var cleanedFull := StripCanaryNoise(text);
    r := if Contains(Normalized(h, cleanedFull), expectedNorm) then InPlaintext else NotFound;
  }

  lemma {:induction false} LoweredConcat(h: Host, x: string, y: string)
    ensures Lowered(h, x + y) == Lowered(h, x) + Lowered(h, y)
  {
    if y == "" {
      assert x + y == x;
    } else {
      var n := |y| - 1;
      assert (x + y)[..|x + y| - 1] == x + y[..n];
      LoweredConcat(h, x, y[..n]);
    }
  }

  /** Runs of white space do not reach over a border with a visible character on one side. */
  lemma {:induction false} CollapsedConcat(x: string, y: string)
    requires x == "" || y == "" || !IsSpace(x[|x| - 1]) || !IsSpace(y[0])
    ensures Collapsed(x + y) == Collapsed(x) + Collapsed(y)
    decreases |y|
  {
    hide IsSpace;
    if y == "" {
      assert x + y == x;
    } else {
      var n := |y| - 1;
      var front := x + y[..n];
      assert (x + y)[..|x + y| - 1] == front;
      CollapsedConcat(x, y[..n]);
      assert n > 0 ==> front[|front| - 1] == y[..n][n - 1];
    }
  }

  /** Visible at both ends. */
  predicate Bounded(s: string) { s != "" && !IsSpace(s[0]) && !IsSpace(s[|s| - 1]) }

  lemma {:induction false} CollapsedEnds(s: string)
    requires s != "" && !IsSpace(s[0])
    ensures Collapsed(s) != "" && !IsSpace(Collapsed(s)[0])
    ensures !IsSpace(s[|s| - 1]) ==> !IsSpace(Collapsed(s)[|Collapsed(s)| - 1])
  {
    hide IsSpace;
    if |s| > 1 {
      CollapsedEnds(s[..|s| - 1]);
    } else {
      assert s[..0] == "";
    }
  }

  lemma LoweredEnds(h: Host, s: string)
    requires LawfulHost(h) && Bounded(s)
    ensures Bounded(Lowered(h, s))
  {
    var n := |s| - 1;
    var first, last := s[0], s[n];
    assert s == [first] + s[1..] && s == s[..n] + [last];
    OneLowered(h, first);
    OneLowered(h, last);
    hide IsSpace;
    LoweredConcat(h, [first], s[1..]);
    LoweredConcat(h, s[..n], [last]);
  }

  lemma OneLowered(h: Host, c: char)
    requires LawfulHost(h) && !IsSpace(c)
    ensures Lowered(h, [c]) == h.lower(c) && Bounded(h.lower(c))
  {
    assert [c][..0] == "";
  }

  /** A sentence inside a text is inside the normalized text, normalized. */
  lemma NormalizedWithin(h: Host, x: string, f: string, y: string)
    requires LawfulHost(h) && Bounded(f)
    ensures Contains(Normalized(h, x + f + y), Normalized(h, f))
  {
    hide LawfulHost, Contains, Collapsed, Lowered, TrimStart, TrimEnd, IsSpace;
    LoweredConcat(h, x + f, y);
    LoweredConcat(h, x, f);
    LoweredEnds(h, f);
    var lx, lf, ly := Lowered(h, x), Lowered(h, f), Lowered(h, y);
    CollapsedConcat(lx, lf);
    assert (lx + lf)[|lx + lf| - 1] == lf[|lf| - 1];
    CollapsedConcat(lx + lf, ly);
    CollapsedEnds(lf);
    TrimmedWithin(Collapsed(lx), Collapsed(lf), Collapsed(ly));
  }

  lemma TrimmedWithin(a: string, b: string, c: string)
    requires Bounded(b)
    ensures Contains(Trim(a + b + c), Trim(b))
  {
    hide IsSpace, Contains, TrimStart, TrimEnd;
    assert a + b + c == a + (b + c);
    TrimStartKeeps(a, b + c);
    var t := TrimStart(a);
    assert t + (b + c) == (t + b) + c && (t + b)[|t + b| - 1] == b[|b| - 1];
    TrimEndKeeps(t + b, c);
    TrimsToItself(b);
    ContainsWithin(t, b, TrimEnd(c));
  }

  lemma TrimsToItself(b: string)
    requires Bounded(b)
    ensures Trim(b) == b
  {}

  lemma ContainsWithin(t: string, b: string, d: string)
    ensures Contains(t + b + d, b)
  {
    assert (t + b + d)[|t|..|t| + |b|] == b;
    ContainsIff(t + b + d, b);
    assert At(t + b + d, b, |t|);
  }

  // ---- Main results

  lemma FactIsBounded(h: Host, docId: string, secret: string)
    requires LawfulHost(h)
    ensures Bounded(FactOf(h, docId, secret).text) && Low(FactOf(h, docId, secret).text)
  {
    hide FactFrom;
    FactIsSentence(h.mac(secret, "canary-fact:" + docId));
  }

  /** A text that holds the fact after cleaning is recognised, with or without markers. */
  lemma FactIsFound(h: Host, docId: string, secret: string, text: string, x: string, y: string)
    requires LawfulHost(h) && Cleaned(text) == x + FactOf(h, docId, secret).text + y
    ensures Verify(h, docId, secret, text).Found()
  {
    hide LawfulHost, Cleaned, FactOf, Normalized, Extractions, Contains;
    FactIsBounded(h, docId, secret);
    NormalizedWithin(h, x, FactOf(h, docId, secret).text, y);
  }

  /** The scan of a text that holds a marked canary finds it, alone or behind what a dangling marker swallowed. */
  lemma MarkedIsScanned(x: string, noise: string, y: string) returns (rest: string, i: nat)
    requires CANARY_OPEN !in noise && CANARY_CLOSE !in noise
    ensures var bodies := ScanFrom(MarkerFrame(), x + ([CANARY_OPEN] + noise + [CANARY_CLOSE] + y), 0).bodies;
            i < |bodies| && bodies[i] == rest + noise
  {
    hide IndexOf, Separate, ScanFrom, At;
    var f := MarkerFrame();
    var open, close := [CANARY_OPEN], [CANARY_CLOSE];
    var tail := open + noise + close + y;
    SingleSeparates(x, tail, CANARY_OPEN);
    SingleSeparates(x, tail, CANARY_CLOSE);
    TailSearch(noise, y);
    ScanComposes(f, x, tail, 0);
    var first := ScanFrom(f, x, 0);
    i := |first.bodies|;
    if first.dangling.None? {
      assert tail == [] + f.begin + noise + f.end + y;
      ScanFrame(f, [], noise, y);
      rest := "";
    } else {
      assert tail[..1 + |noise|] == open + noise;
      rest := first.dangling.value + open;
      assert first.dangling.value + (open + noise) == rest + noise;
    }
  }

  lemma SingleSeparates(x: string, y: string, c: char)
    ensures Separate(x, y, [c])
  {}

  lemma TailSearch(noise: string, y: string)
    requires CANARY_OPEN !in noise && CANARY_CLOSE !in noise
    ensures var tail := [CANARY_OPEN] + noise + [CANARY_CLOSE] + y;
            && IndexOf(tail, [CANARY_OPEN], 0) == Some(0)
            && IndexOf(tail, [CANARY_CLOSE], 0) == Some(1 + |noise|)
            && IndexOf(tail, [CANARY_CLOSE], 1) == Some(1 + |noise|)
  {
    hide IndexOf;
    var tail := [CANARY_OPEN] + noise + [CANARY_CLOSE] + y;
    assert tail[0..1] == [CANARY_OPEN] && tail[1 + |noise|..2 + |noise|] == [CANARY_CLOSE];
    forall k | 0 <= k < 1 + |noise|
      ensures !At(tail, [CANARY_CLOSE], k)
    {
      assert k > 0 ==> tail[k] == noise[k - 1];
    }
    IndexOfIs(tail, [CANARY_OPEN], 0, 0);
    IndexOfIs(tail, [CANARY_CLOSE], 0, 1 + |noise|);
    IndexOfIs(tail, [CANARY_CLOSE], 1, 1 + |noise|);
  }

  /**
    * Injecting and verifying: the canary is found by its markers, whatever markers, zero-width characters or look-alike
    * letters the original held, and whatever the density and the draws.
    */
  lemma InjectedIsFound(h: Host, docId: string, secret: string, density: Option<real>, text: string)
    requires LawfulHost(h)
    ensures Verify(h, docId, secret, Inject(h, docId, secret, density, text).text) == InMarker
  {
    hide LawfulHost, Cleaned, FactOf, Normalized, Contains, ScanFrom, Wrapped, Place, Draws, Clamp;
    var fact := FactOf(h, docId, secret).text;
    var p := Place(h, docId, secret, text);
    var out := Inject(h, docId, secret, density, text).text;
    FactIsBounded(h, docId, secret);
    var d, draws := Clamp(density.UnwrapOr(0.15)), Draws(h, docId, secret);
    var noise := Wrapped(fact, d, draws);
    WrappedCleans(fact, d, draws);
    var x, y := p.before + p.lead, p.trail + p.after;
    assert out == x + ([CANARY_OPEN] + noise + [CANARY_CLOSE] + y);
    var rest, i := MarkedIsScanned(x, noise, y);
    CleanedConcat(rest, noise);
    NormalizedWithin(h, Cleaned(rest), fact, "");
    assert Cleaned(rest) + fact + "" == Cleaned(rest) + fact;
    assert Extractions(out)[i].cleaned == Cleaned(rest + noise);
  }

  // ---- The fact spelled out

  /** The four sentences a canary can be. */
  lemma Statements(term: string, noun: string, n: string)
    ensures Statement(0, term, noun, n) ==
            Capitalize(term) + (" " + noun + " " + n) + " olarak \U{00F6}l\U{00E7}\U{00FC}lm\U{00FC}\U{015F}t\U{00FC}r."
    ensures Statement(1, term, noun, n) ==
            Capitalize(noun) + (" (" + term + ") i\U{00E7}in referans de\U{011F}er " + n) + " kabul edilir."
    ensures Statement(2, term, noun, n) ==
            "Standart " + (term + " " + noun + " e\U{015F}i\U{011F}i " + n) + " civar\U{0131}ndad\U{0131}r."
    ensures Statement(3, term, noun, n) ==
            Capitalize(term) + (" kaynakl\U{0131} " + noun + " " + n) + " oran\U{0131}nda g\U{00F6}zlemlenir."
  {}

  lemma CapitalMeans(s: string)
    requires s != "" && 97 <= s[0] as int <= 122
    ensures |Capitalize(s)| == |s| && Capitalize(s)[0] as int == s[0] as int - 97 + 65 && Capitalize(s)[1..] == s[1..]
  {}

  lemma {:induction false} BigEndianSpells(b: Bytes, at: nat, n: nat)
    requires at + n <= |b|
    ensures GetBE(b, at, n) == HighestFirst(b[at..at + n])
    decreases n
  {
    if n > 0 {
      BigEndianSpells(b, at, n - 1);
      assert b[at..at + n][..n - 1] == b[at..at + n - 1];
    }
  }

  lemma TwoDigitsPrint(n: nat)
    requires n < 100
    ensures TwoDigits(n) == if n < 10 then "0" + Decimal(n) else Decimal(n)
  {
    if n >= 10 {
      assert Decimal(n / 10) == [('0' as int + n / 10) as char];
    }
  }

  /** Which fact a digest selects: four bytes each for term, noun and sentence, two each for the digits of the number. */
  lemma FactMeans(mac: Bytes)
    requires |mac| == 32
    ensures |Terms()| == 15 && |Nouns()| == 12
    ensures var term, noun := Terms()[HighestFirst(mac[0..4]) % 15], Nouns()[HighestFirst(mac[4..8]) % 12];
            var whole, part := HighestFirst(mac[12..14]) % 90 + 10, HighestFirst(mac[14..16]) % 100;
            && FactFrom(mac).term == term
            && FactFrom(mac).text ==
               Statement(HighestFirst(mac[8..12]) % 4, term, noun, Decimal(whole) + "." + (if part < 10 then "0" + Decimal(part) else Decimal(part)))
  {
    hide Statement, Decimal, HighestFirst, GetBE;
    BigEndianSpells(mac, 0, 4);
    BigEndianSpells(mac, 4, 4);
    BigEndianSpells(mac, 8, 4);
    BigEndianSpells(mac, 12, 2);
    BigEndianSpells(mac, 14, 2);
    TwoDigitsPrint(GetBE(mac, 12, 2) % 90 + 10);
    TwoDigitsPrint(GetBE(mac, 14, 2) % 100);
    hide TwoDigits;
  }

  // ---- The noise spelled out

  /** The thousandths of a draw choose the zero-width character. */
  lemma MarkMeans(k: nat, r: real)
    requires k as real <= r * 1000.0 < (k + 1) as real
    ensures NoiseMark(r) == [0x200B as char, 0x200C as char, 0x2060 as char][k % 3]
  {
    assert (r * 1000.0).Floor == k;
  }

  /** A keyed draw is the first word of the digest over document and position, scaled to 0 .. 1. */
  lemma DrawMeans(h: Host, docId: string, secret: string, i: nat)
    requires LawfulHost(h) && secret != ""
    ensures 4294967295.0 * Draws(h, docId, secret)(i) ==
            HighestFirst(h.mac(secret, "canary-wrap:" + docId + (":e:" + Decimal(i)))[0..4]) as real
    ensures 0.0 <= Draws(h, docId, secret)(i) <= 1.0
  {
    var mac := h.mac(secret, "canary-wrap:" + docId + ":e:" + Decimal(i));
    assert "canary-wrap:" + docId + ":e:" + Decimal(i) == "canary-wrap:" + docId + (":e:" + Decimal(i));
    BigEndianSpells(mac, 0, 4);
    WordFits(mac);
  }

  lemma WordFits(b: Bytes)
    requires |b| >= 4
    ensures GetBE(b, 0, 4) <= 0xFFFF_FFFF
  {
    assert GetBE(b, 0, 1) == 256 * GetBE(b, 0, 0) + b[0] as int;
    assert GetBE(b, 0, 2) == 256 * GetBE(b, 0, 1) + b[1] as int;
    assert GetBE(b, 0, 3) == 256 * GetBE(b, 0, 2) + b[2] as int;
  }
}
