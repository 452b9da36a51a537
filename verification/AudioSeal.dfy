/**
  * The audio seal: a framed marker at the tail of the file, for WAV also inside an extra RIFF chunk, and its reader.
  */
module AudioSeal {
  import opened Prelude
  import opened Bytes
  import opened Fields
  import opened SealGuards
  import opened Search
  import opened Markers
  import opened Whitespace

  const MAX_SUPPORTED_AUDIO_BYTES := 120 * 1024 * 1024

  datatype SealError = FlagDisabled | InvalidId | UnsafeSize | UnsupportedContainer

  /** The fields of a parsed marker body that are strings. */
  datatype Payload = Payload(version: Option<string>, role: Option<string>, format: Option<string>, idTag: Option<string>,
                             checksum: Option<string>)

  /** What the seal takes from the runtime: SHA-256 in hex, the JSON parser, the feature flag. */
  datatype Host = Host(digest: string -> string, parse: string -> Option<Payload>, flag: Option<string>)

  predicate Hex(s: string) { forall i :: 0 <= i < |s| ==> IsHexDigit(s[i]) }

  /**
    * SHA-256 prints 64 hex digits. JSON parsing undoes printing, and fails on a text with a line that starts with the
    * begin pattern: a line break cannot lie inside a JSON string, and no JSON token starts with T.
    */
  ghost predicate LawfulHost(h: Host) {
    && (forall s :: |h.digest(s)| == 64 && Hex(h.digest(s)))
    && (forall tag, sum :: Hex(tag) && Hex(sum) ==>
          h.parse(Body(tag, sum)) == Some(Payload(Some(SealVersion()), Some(DecisionRole()), Some("audio"), Some(tag), Some(sum))))
    && (forall p, q :: p == "" || p[|p| - 1] == '\n' ==> h.parse(p + (MarkerBegin() + ("\n" + q))) == None)
  }

  // ---- Text of bytes

  function Latin1(b: Bytes): (s: string)
    ensures |s| == |b|
  {
    seq(|b|, i requires 0 <= i < |b| => b[i] as int as char)
  }

  function Ascii(s: string): (b: Bytes)
    ensures |b| == |s|
  {
    seq(|s|, i requires 0 <= i < |s| => (s[i] as int % 256) as byte)
  }

  lemma Latin1Concat(x: Bytes, y: Bytes)
    ensures Latin1(x + y) == Latin1(x) + Latin1(y)
  {}

  predicate Narrow(s: string) { forall i :: 0 <= i < |s| ==> s[i] as int < 128 }

  lemma Latin1OfAscii(s: string)
    requires Narrow(s)
    ensures Latin1(Ascii(s)) == s
  {}

  // ---- Guards

  predicate FlagEnabled(h: Host) { h.flag == Some("1") || h.flag == Some("true") }

  predicate SafeSize(audio: Bytes) { 0 < |audio| <= MAX_SUPPORTED_AUDIO_BYTES }

  /** The ASCII decoder of the runtime drops the highest bit of every byte. */
  predicate AsciiAt(audio: Bytes, at: nat, s: string) {
    at + |s| <= |audio| && forall i :: 0 <= i < |s| ==> (audio[at + i] % 128) as int == s[i] as int
  }

  predicate IsWave(audio: Bytes) { |audio| >= 12 && AsciiAt(audio, 0, "RIFF") && AsciiAt(audio, 8, "WAVE") }

  predicate IsMp3(audio: Bytes) { |audio| >= 3 && (AsciiAt(audio, 0, "ID3") || (audio[0] == 255 && audio[1] >= 224)) }

  predicate IsMp4Audio(audio: Bytes) { |audio| >= 16 && 8 <= GetBE32(audio, 0) <= |audio| && AsciiAt(audio, 4, "ftyp") }

  predicate IsOgg(audio: Bytes) { AsciiAt(audio, 0, "OggS") }

  predicate IsFlac(audio: Bytes) { AsciiAt(audio, 0, "fLaC") }

  predicate Supported(audio: Bytes) { IsWave(audio) || IsMp3(audio) || IsMp4Audio(audio) || IsOgg(audio) || IsFlac(audio) }

  /** The first guard that fails, in the order the operations run them. */
  function Refusal(h: Host, audio: Bytes, id: string): Option<SealError> {
    if !FlagEnabled(h) then Some(FlagDisabled)
    else if !SafeId(id) then Some(InvalidId)
    else if !SafeSize(audio) then Some(UnsafeSize)
    else if !Supported(audio) then Some(UnsupportedContainer)
    else None
  }

  // ---- The marker

  function MarkerBegin(): string { "TANCMARK_AUDIO_AI_SEAL_BEGIN_V1" }

  function MarkerEnd(): string { "TANCMARK_AUDIO_AI_SEAL_END_V1" }

  function SealVersion(): string { "tancmark-ai-seal-audio-mvp-v1" }

  function DecisionRole(): string { "audio_ai_exact_id_owner" + "ship_no_vault_no_final" }

  function SealFrame(): Frame<char> { Frame(MarkerBegin(), MarkerEnd()) }

  function IdTag(h: Host, id: string): string { h.digest(SealVersion() + ":" + id) }

  function Checksum(h: Host, version: string, role: string, format: string, tag: string): string {
    h.digest(version + ":" + role + ":" + format + ":" + tag)
  }

  function OpenVersion(): string { "{\"version\":\"" }

  function OpenRole(): string { "\",\"role\":\"" }

  function OpenTag(): string { "\",\"format\":\"audio\",\"idTag\":\"" }

  function OpenChecksum(): string { "\",\"vault\":false,\"final\":false,\"checksum\":\"" }

  /** The JSON text of a marker body. */
  function Body(tag: string, sum: string): string {
    OpenVersion() + SealVersion() + OpenRole() + DecisionRole() + OpenTag() + tag + OpenChecksum() + sum + "\"}"
  }

  function OwnBody(h: Host, id: string): string {
    Body(IdTag(h, id), Checksum(h, SealVersion(), DecisionRole(), "audio", IdTag(h, id)))
  }

  /** What a scan finds between the patterns of a marker. */
  function Segment(body: string): string { "\n" + body + "\n" }

  function MarkerText(body: string): string { "\n" + MarkerBegin() + Segment(body) + MarkerEnd() + "\n" }

  function Marker(h: Host, id: string): Bytes { Ascii(MarkerText(OwnBody(h, id))) }

  // ---- Sealing

  function ChunkHead(size: nat): Bytes
    requires size < 0x1_0000_0000
  {
    Ascii("TMAI") + LE32(size)
  }

  function Padding(size: nat): Bytes { if size % 2 == 1 then [0] else [] }

  function Extended(audio: Bytes, marker: Bytes): Bytes
    requires |marker| < 0x1_0000_0000
  {
    audio + ChunkHead(|marker|) + marker + Padding(|marker|)
  }

  /** The file with one more chunk, and the RIFF size field set to match. */
  function WithChunk(audio: Bytes, marker: Bytes): Bytes
    requires |audio| >= 8 && |audio| + |marker| + 1 < 0x1_0000_0000
  {
    var next := Extended(audio, marker);
    next[..4] + LE32(|next| - 8) + next[8..]
  }

  method AppendWaveChunk(audio: Bytes, marker: Bytes) returns (next: array<byte>)
    requires |audio| >= 8 && |audio| + |marker| + 1 < 0x1_0000_0000
    ensures fresh(next) && next[..] == WithChunk(audio, marker)
  {
    var all := Extended(audio, marker);
    next := new byte[|all|](i requires 0 <= i < |all| => all[i]);
    assert next[..] == all;
    PutLE32(next, next.Length - 8, 4);
  }

  function Sealed(h: Host, audio: Bytes, id: string): Bytes
    requires LawfulHost(h) && |audio| <= MAX_SUPPORTED_AUDIO_BYTES
  {
    MarkerFacts(h, id);
    if IsWave(audio) then WithChunk(audio, Marker(h, id)) + Marker(h, id) else audio + Marker(h, id)
  }

  method SealAudioAiMedia(h: Host, audio: Bytes, id: string) returns (r: Result<Bytes, SealError>, copiesWritten: nat)
    requires LawfulHost(h)
    ensures Refusal(h, audio, id).Some? ==> r == Err(Refusal(h, audio, id).value)
    ensures Refusal(h, audio, id).None? ==> r == Ok(Sealed(h, audio, id)) && copiesWritten == (if IsWave(audio) then 2 else 1)
  {
    hide MarkerText, OwnBody, LawfulHost, Supported, SafeId, Ascii;
    MarkerFacts(h, id);
    copiesWritten := 0;
    if !FlagEnabled(h) {
      return Err(FlagDisabled), 0;
    }
    if !SafeId(id) {
      return Err(InvalidId), 0;
    }
    if !SafeSize(audio) {
      return Err(UnsafeSize), 0;
    }
    if !Supported(audio) {
      return Err(UnsupportedContainer), 0;
    }
    var marker := Marker(h, id);
    if IsWave(audio) {
      var chunked := AppendWaveChunk(audio, marker);
      r, copiesWritten := Ok(chunked[..] + marker), 2;
    } else {
      r, copiesWritten := Ok(audio + marker), 1;
    }
  }

  // ---- Reading

  /** The id tag of a body that is a whole, untampered marker. */
  function TagOf(h: Host, raw: string): Option<string> {
    match h.parse(Trim(raw))
    case None => None
    case Some(p) =>
      if p.version != Some(SealVersion()) || p.role != Some(DecisionRole()) || p.format != Some("audio") || p.idTag.None?
         || p.checksum != Some(Checksum(h, SealVersion(), DecisionRole(), "audio", p.idTag.value))
      then None
      else p.idTag
  }

  /** The tags of all valid markers, in order. */
  function Tags(h: Host, bodies: seq<string>): seq<string> {
    if bodies == [] then []
    else
      Tags(h, bodies[..|bodies| - 1])
      + (match TagOf(h, bodies[|bodies| - 1]) case None => [] case Some(t) => [t])
  }

  function Copies(tags: seq<string>, tag: string): nat { multiset(tags)[tag] }

  function ScanAudio(audio: Bytes): Scan<char> { ScanFrom(SealFrame(), Latin1(audio), 0) }

  method ExtractMarkers(h: Host, audio: Bytes) returns (tags: seq<string>)
    ensures tags == Tags(h, ScanAudio(audio).bodies)
  {
    hide MarkerBegin, MarkerEnd, IndexOf, TagOf, Tags, Latin1, SealFrame, IsPattern, ScanFrom, At;
    PatternFacts();
    var f, text := SealFrame(), Latin1(audio);
    NoTags(h);
    tags := [];
    var cursor := 0;
    ghost var bodies: seq<string> := [];
    ghost var all := ScanFrom(f, text, 0).bodies;
    while cursor < |text|
      invariant tags == Tags(h, bodies)
      invariant all == bodies + ScanFrom(f, text, cursor).bodies
      decreases |text| - cursor
    {
      ScanStep(f, text, cursor);
      ghost var rest := ScanFrom(f, text, cursor).bodies;
      var begin := IndexOf(text, f.begin, cursor);
      if begin.None? {
        assert all == bodies;
        return;
      }
      var bodyStart := begin.value + |f.begin|;
      var end := IndexOf(text, f.end, bodyStart);
      if end.None? {
        assert all == bodies;
        return;
      }
      var raw := text[bodyStart..end.value];
      cursor := end.value + |f.end|;
      var tag := TagOf(h, raw);
      if tag.Some? {
        tags := tags + [tag.value];
      }
      TagsNext(h, bodies, raw);
      assert bodies + ([raw] + ScanFrom(f, text, cursor).bodies) == (bodies + [raw]) + ScanFrom(f, text, cursor).bodies;
      bodies := bodies + [raw];
    }
    ScanEnd(f, text, cursor);
    assert all == bodies;
  }

  lemma NoTags(h: Host)
    ensures Tags(h, []) == []
  {}

  lemma TagsNext(h: Host, bodies: seq<string>, raw: string)
    ensures Tags(h, bodies + [raw]) == match TagOf(h, raw) case None => Tags(h, bodies) case Some(t) => Tags(h, bodies) + [t]
  {
    assert (bodies + [raw])[..|bodies|] == bodies;
  }

  lemma ScanEnd(f: Frame<char>, s: string, cursor: nat)
    requires f.Proper() && cursor >= |s|
    ensures ScanFrom(f, s, cursor).bodies == []
  {}

  /** One round of the scan. */
  lemma ScanStep(f: Frame<char>, s: string, cursor: nat)
    requires f.Proper() && cursor < |s|
    ensures ScanFrom(f, s, cursor).bodies ==
            match IndexOf(s, f.begin, cursor)
            case None => []
            case Some(b) =>
              match IndexOf(s, f.end, b + |f.begin|)
              case None => []
              case Some(e) =>
                if b + |f.begin| <= e && e + |f.end| <= |s|
                then [s[b + |f.begin|..e]] + ScanFrom(f, s, e + |f.end|).bodies
                else []
    ensures match IndexOf(s, f.begin, cursor)
            case None => true
            case Some(b) =>
              && cursor <= b && b + |f.begin| <= |s|
              && (match IndexOf(s, f.end, b + |f.begin|)
                  case None => true
                  case Some(e) => b + |f.begin| <= e && e + |f.end| <= |s|)
  {
    hide IndexOf;
    IndexOfFirst(s, f.begin, cursor);
    match IndexOf(s, f.begin, cursor) {
      case None =>
      case Some(b) => IndexOfFirst(s, f.end, b + |f.begin|);
    }
  }

  datatype Reading = Reading(found: bool, weakSignal: bool, score: real, copies: nat, percent: nat)

  function Judge(tags: seq<string>, tag: string): Reading {
    var n := Copies(tags, tag);
    var weak := n == 0 && tags != [];
    Reading(n >= 1, weak,
            if n >= 2 then 1.0 else if n == 1 then 0.5 else if weak then 0.35 else 0.0,
            n,
            if n >= 2 then 100 else if n == 1 then 95 else if weak then 35 else 0)
  }

  method CountTag(tags: seq<string>, tag: string) returns (n: nat)
    ensures n == Copies(tags, tag)
  {
    n := 0;
    for i := 0 to |tags|
      invariant n == Copies(tags[..i], tag)
    {
      assert tags[..i + 1] == tags[..i] + [tags[i]];
      if tags[i] == tag {
        n := n + 1;
      }
    }
    assert tags[..|tags|] == tags;
  }

  method ReadAudioAiSeal(h: Host, audio: Bytes, id: string) returns (r: Result<Reading, SealError>)
    ensures Refusal(h, audio, id).Some? ==> r == Err(Refusal(h, audio, id).value)
    ensures Refusal(h, audio, id).None? ==> r == Ok(Judge(Tags(h, ScanAudio(audio).bodies), IdTag(h, id)))
  {
    if !FlagEnabled(h) {
      return Err(FlagDisabled);
    }
    if !SafeId(id) {
      return Err(InvalidId);
    }
    if !SafeSize(audio) {
      return Err(UnsafeSize);
    }
    if !Supported(audio) {
      return Err(UnsupportedContainer);
    }
    var tags := ExtractMarkers(h, audio);
    var copies := CountTag(tags, IdTag(h, id));
    var found := copies >= 1;
    var weakSignal := !found && |tags| > 0;
    var half := if copies as real / 2.0 < 1.0 then copies as real / 2.0 else 1.0;
    var score := if found then half else if weakSignal then 0.35 else 0.0;
    var percent := if found then (if copies >= 2 then 100 else 95) else if weakSignal then 35 else 0;
    r := Ok(Reading(found, weakSignal, score, copies, percent));
  }

  // ---- Facts about the marker

  /** Both patterns start with their only T, have N third, and differ within their common length. */
  predicate IsPattern(p: string) {
    && |p| >= 29 && p[0] == 'T' && p[2] == 'N'
    && (forall k :: 1 <= k < |p| ==> p[k] != 'T')
    && (forall k :: 0 <= k < |p| ==> p[k] as int < 128 && p[k] != '\n' && p[k] != 'W')
  }

  lemma BeginIsPattern()
    ensures IsPattern(MarkerBegin()) && |MarkerBegin()| == 31
  {}

  lemma EndIsPattern()
    ensures IsPattern(MarkerEnd()) && |MarkerEnd()| == 29
  {}

  lemma PatternFacts()
    ensures IsPattern(MarkerBegin()) && |MarkerBegin()| == 31 && IsPattern(MarkerEnd()) && |MarkerEnd()| == 29
    ensures MarkerBegin()[23] != MarkerEnd()[23]
    ensures SealFrame().Proper()
  {
    BeginIsPattern();
    EndIsPattern();
  }

  /** A body the scan and the trimming leave whole. */
  predicate Tidy(body: string) {
    && Narrow(body)
    && (forall i :: 0 <= i < |body| ==> body[i] != 'N')
    && body != "" && !IsSpace(body[0]) && !IsSpace(body[|body| - 1])
  }

  predicate Quiet(s: string) { forall i :: 0 <= i < |s| ==> s[i] as int < 128 && s[i] != 'N' }

  lemma QuietConcat(x: string, y: string)
    requires Quiet(x) && Quiet(y)
    ensures Quiet(x + y)
  {}

  lemma OpenVersionIsQuiet()
    ensures Quiet(OpenVersion()) && |OpenVersion()| == 12
  {}

  lemma SealVersionIsQuiet()
    ensures Quiet(SealVersion()) && |SealVersion()| == 29
  {}

  lemma OpenRoleIsQuiet()
    ensures Quiet(OpenRole()) && |OpenRole()| == 10
  {}

  lemma DecisionRoleIsQuiet()
    ensures Quiet(DecisionRole()) && |DecisionRole()| == 45
  {
    QuietConcat("audio_ai_exact_id_owner", "ship_no_vault_no_final");
  }

  lemma OpenTagIsQuiet()
    ensures Quiet(OpenTag()) && |OpenTag()| == 28
  {}

  lemma OpenChecksumIsQuiet()
    ensures Quiet(OpenChecksum()) && |OpenChecksum()| == 42
  {}

  lemma BodyIsTidy(tag: string, sum: string)
    requires Hex(tag) && Hex(sum)
    ensures Tidy(Body(tag, sum)) && |Body(tag, sum)| <= 300 + |tag| + |sum|
  {
    assert OpenVersion()[0] == '{';
    hide OpenVersion, SealVersion, OpenRole, DecisionRole, OpenTag, OpenChecksum;
    OpenVersionIsQuiet();
    SealVersionIsQuiet();
    OpenRoleIsQuiet();
    DecisionRoleIsQuiet();
    OpenTagIsQuiet();
    OpenChecksumIsQuiet();
    assert Quiet(tag) && Quiet(sum) && Quiet("\"}");
    hide Quiet, Hex;
    var b1 := OpenVersion() + SealVersion();
    var b2 := b1 + OpenRole();
    var b3 := b2 + DecisionRole();
    var b4 := b3 + OpenTag();
    var b5 := b4 + tag;
    var b6 := b5 + OpenChecksum();
    var b7 := b6 + sum;
    QuietConcat(OpenVersion(), SealVersion());
    QuietConcat(b1, OpenRole());
    QuietConcat(b2, DecisionRole());
    QuietConcat(b3, OpenTag());
    QuietConcat(b4, tag);
    QuietConcat(b5, OpenChecksum());
    QuietConcat(b6, sum);
    QuietConcat(b7, "\"}");
    assert Body(tag, sum) == b7 + "\"}";
    QuietIsTidy(Body(tag, sum));
  }

  lemma QuietIsTidy(s: string)
    requires Quiet(s) && s != "" && s[0] == '{' && s[|s| - 1] == '}'
    ensures Tidy(s)
  {}

  lemma OwnBodyIsTidy(h: Host, id: string)
    requires LawfulHost(h)
    ensures Tidy(OwnBody(h, id)) && |OwnBody(h, id)| <= 428
  {
    hide Body, Tidy, SealVersion, DecisionRole;
    var tag := IdTag(h, id);
    BodyIsTidy(tag, Checksum(h, SealVersion(), DecisionRole(), "audio", tag));
  }

  lemma MarkerIsNarrow(body: string)
    requires Narrow(body)
    ensures Narrow(MarkerText(body)) && |MarkerText(body)| == |body| + 64
  {
    PatternFacts();
    hide MarkerBegin, MarkerEnd;
  }

  lemma MarkerFacts(h: Host, id: string)
    requires LawfulHost(h)
    ensures |Marker(h, id)| < 1000 && Tidy(OwnBody(h, id)) && Latin1(Marker(h, id)) == MarkerText(OwnBody(h, id))
  {
    hide OwnBody, MarkerText, Latin1, LawfulHost;
    OwnBodyIsTidy(h, id);
    MarkerIsNarrow(OwnBody(h, id));
    Latin1OfAscii(MarkerText(OwnBody(h, id)));
  }

  // ---- Scanning a marker

  lemma AtPattern(s: string, pat: string, j: nat, k: nat)
    requires At(s, pat, j) && k < |pat|
    ensures s[j + k] == pat[k]
  {
    assert s[j..j + |pat|][k] == pat[k];
  }

  lemma NotAt(s: string, pat: string, j: nat)
    requires |pat| >= 29 && pat[0] == 'T' && pat[2] == 'N'
    requires j + 2 < |s| ==> s[j] != 'T' || s[j + 2] != 'N'
    ensures !At(s, pat, j)
  {}

  /** In a marker, T and N stand two apart only where the patterns start. */
  lemma MarkerShape(body: string, after: string, j: nat)
    requires Tidy(body) && j < |body| + 34 && j != 1
    ensures var s := MarkerText(body) + after; s[j] != 'T' || s[j + 2] != 'N'
  {
    PatternFacts();
    hide MarkerBegin, MarkerEnd;
    var n := |body|;
    var s := MarkerText(body) + after;
    assert s[0] == '\n' && s[32] == '\n' && s[33 + n] == '\n' && s[34 + n] == 'T';
    if 2 <= j < 32 {
      assert s[j] == MarkerBegin()[j - 1];
    } else if 33 <= j < 33 + n {
      if j + 2 < 33 + n {
        assert s[j + 2] == body[j + 2 - 33];
      }
    }
  }

  lemma MarkerHolds(body: string, after: string)
    ensures At(MarkerText(body) + after, MarkerBegin(), 1) && At(MarkerText(body) + after, MarkerEnd(), |body| + 34)
  {
    PatternFacts();
    hide MarkerBegin, MarkerEnd;
    var s := MarkerText(body) + after;
    assert s[1..32] == MarkerBegin();
    assert s[|body| + 34..|body| + 63] == MarkerEnd();
  }

  lemma MarkerSearch(body: string, after: string)
    requires Tidy(body)
    ensures var s := MarkerText(body) + after;
            && IndexOf(s, MarkerBegin(), 0) == Some(1)
            && IndexOf(s, MarkerEnd(), 0) == Some(|body| + 34)
            && IndexOf(s, MarkerEnd(), 32) == Some(|body| + 34)
  {
    PatternFacts();
    hide MarkerBegin, MarkerEnd, IndexOf, At, MarkerText, Tidy;
    var s := MarkerText(body) + after;
    MarkerHolds(body, after);
    AtPattern(s, MarkerBegin(), 1, 23);
    forall j: nat | j < |body| + 34 && j != 1
      ensures !At(s, MarkerEnd(), j) && !At(s, MarkerBegin(), j)
    {
      MarkerShape(body, after, j);
      NotAt(s, MarkerEnd(), j);
      NotAt(s, MarkerBegin(), j);
    }
    if At(s, MarkerEnd(), 1) {
      AtPattern(s, MarkerEnd(), 1, 23);
    }
    IndexOfIs(s, MarkerBegin(), 0, 1);
    IndexOfIs(s, MarkerEnd(), 0, |body| + 34);
    IndexOfIs(s, MarkerEnd(), 32, |body| + 34);
  }

  lemma FramesSeparate(x: string, y: string)
    requires y == "" || y[0] == '\n' || y[0] == 'T' || (x != "" && x[|x| - 1] == '\n')
    ensures SeparateFrames(SealFrame(), x, y)
  {
    PatternFacts();
    hide MarkerBegin, MarkerEnd;
    if y != "" {
      BorderSeparates(x, y, MarkerBegin());
      BorderSeparates(x, y, MarkerEnd());
    }
  }

  lemma TooShort(x: string)
    requires |x| < 29
    ensures Absent(x, MarkerBegin()) && Absent(x, MarkerEnd())
  {
    PatternFacts();
  }

  /** A marker adds its segment to the scan of what follows. */
  lemma MarkerScan(body: string, after: string)
    requires Tidy(body)
    ensures ScanFrom(SealFrame(), MarkerText(body) + after, 0) == ScanFrom(SealFrame(), after, 0).After([Segment(body)])
  {
    PatternFacts();
    MarkerSearch(body, after);
    hide MarkerBegin, MarkerEnd, IndexOf, ScanFrom, Tidy, IsPattern;
    assert MarkerText(body) + after == "\n" + MarkerBegin() + Segment(body) + MarkerEnd() + ("\n" + after);
    ScanFrame(SealFrame(), "\n", Segment(body), "\n" + after);
    TooShort("\n");
    FramesSeparate("\n", after);
    ScanSkips(SealFrame(), "\n", after);
  }

  /** What a dangling begin leaves of a marker. */
  lemma MarkerRemainder(body: string, after: string)
    requires Tidy(body)
    ensures ScanFrom(SealFrame(), MarkerText(body) + after, |body| + 63) == ScanFrom(SealFrame(), after, 0)
  {
    PatternFacts();
    hide MarkerBegin, MarkerEnd, IndexOf, ScanFrom, Tidy, IsPattern;
    var front := "\n" + MarkerBegin() + Segment(body) + MarkerEnd();
    assert MarkerText(body) + after == front + ("\n" + after);
    ScanBehind(SealFrame(), front, "\n" + after, 0);
    TooShort("\n");
    FramesSeparate("\n", after);
    ScanSkips(SealFrame(), "\n", after);
  }

  /** The marker up to its end pattern. */
  function Opening(body: string): string { "\n" + MarkerBegin() + Segment(body) }

  lemma OpeningOf(body: string, after: string)
    ensures |Opening(body)| == |body| + 34 && (MarkerText(body) + after)[..|body| + 34] == Opening(body)
  {
    PatternFacts();
    hide MarkerBegin, MarkerEnd, IsPattern;
  }

  /** A text followed by one marker. */
  lemma ScanBeforeMarker(x: string, body: string)
    requires Tidy(body)
    ensures var first := ScanFrom(SealFrame(), x, 0);
            ScanFrom(SealFrame(), x + MarkerText(body), 0) == Scan(first.bodies + [if first.dangling.None? then Segment(body)
                                                                   else first.dangling.value + Opening(body)], None)
  {
    var y, f := MarkerText(body), SealFrame();
    assert y + "" == y;
    MarkerScan(body, "");
    MarkerRemainder(body, "");
    MarkerSearch(body, "");
    OpeningOf(body, "");
    FramesSeparate(x, y);
    PatternFacts();
    assert ScanFrom(f, "", 0) == Scan([], None);
    hide MarkerBegin, MarkerEnd, IndexOf, ScanFrom, Tidy, IsPattern, SeparateFrames, MarkerText, Opening, Segment;
    ScanComposes(f, x, y, 0);
  }

  /** What sealing a WAV appends to its text: chunk head, marker, padding, marker. */
  function WaveTail(head: string, body: string, pad: string): string {
    head + (MarkerText(body) + (pad + MarkerText(body)))
  }

  lemma PaddedMarker(body: string, pad: string)
    requires Tidy(body) && |pad| <= 1
    ensures ScanFrom(SealFrame(), pad + MarkerText(body), 0) == Scan([Segment(body)], None)
  {
    var y, f := MarkerText(body), SealFrame();
    assert y + "" == y && y[0] == '\n';
    MarkerScan(body, "");
    assert ScanFrom(f, "", 0) == Scan([], None);
    TooShort(pad);
    FramesSeparate(pad, y);
    PatternFacts();
    hide MarkerBegin, MarkerEnd, IndexOf, ScanFrom, Tidy, IsPattern, SeparateFrames, MarkerText, Segment;
    ScanSkips(f, pad, y);
  }

  lemma WaveTailScan(head: string, body: string, pad: string)
    requires Tidy(body) && |pad| <= 1 && |head| == 8
    ensures var y, f := WaveTail(head, body, pad), SealFrame();
            && ScanFrom(f, y, 0) == Scan([Segment(body), Segment(body)], None)
            && IndexOf(y, MarkerEnd(), 0) == Some(|body| + 42)
            && |y| >= |body| + 71 && ScanFrom(f, y, |body| + 71) == Scan([Segment(body)], None)
            && y[..|body| + 42] == head + Opening(body)
  {
    var f := SealFrame();
    var rest := pad + MarkerText(body);
    var m := MarkerText(body) + rest;
    MarkerIsLong(body, rest);
    PaddedMarker(body, pad);
    MarkerScan(body, rest);
    MarkerRemainder(body, rest);
    MarkerSearch(body, rest);
    OpeningOf(body, rest);
    hide MarkerBegin, MarkerEnd, IndexOf, ScanFrom, Tidy, MarkerText, Segment, Opening, At, SealFrame;
    HeadSkips(head, m);
    ScanBehind(f, head, m, |body| + 63);
    assert (head + m)[..|body| + 42] == head + m[..|body| + 34];
  }

  lemma MarkerIsLong(body: string, after: string)
    ensures var m := MarkerText(body) + after; |m| >= |body| + 63 && m[0] == '\n'
  {
    PatternFacts();
  }

  lemma HeadSkips(head: string, m: string)
    requires |head| == 8 && m != "" && m[0] == '\n'
    ensures ScanFrom(SealFrame(), head + m, 0) == ScanFrom(SealFrame(), m, 0)
    ensures IndexOf(head + m, MarkerEnd(), 0) == match IndexOf(m, MarkerEnd(), 0) case Some(j) => Some(8 + j) case None => None
    ensures SealFrame().Proper()
  {
    hide MarkerBegin, MarkerEnd, IndexOf, ScanFrom, At;
    PatternFacts();
    TooShort(head);
    FramesSeparate(head, m);
    hide Separate;
    ScanSkips(SealFrame(), head, m);
    IndexOfFirst(head, MarkerEnd(), 0);
    IndexOfConcat(head, m, MarkerEnd(), 0);
  }

  /** A text followed by what sealing a WAV appends. */
  lemma ScanBeforeWaveTail(x: string, head: string, body: string, pad: string)
    requires Tidy(body) && |pad| <= 1 && |head| == 8 && head[0] == 'T'
    ensures var first := ScanFrom(SealFrame(), x, 0);
            ScanFrom(SealFrame(), x + WaveTail(head, body, pad), 0) ==
            Scan(first.bodies + [if first.dangling.None? then Segment(body)
                                 else first.dangling.value + (head + Opening(body)), Segment(body)], None)
  {
    var y, f := WaveTail(head, body, pad), SealFrame();
    WaveTailScan(head, body, pad);
    FramesSeparate(x, y);
    PatternFacts();
    hide MarkerBegin, MarkerEnd, IndexOf, ScanFrom, Tidy, IsPattern, SeparateFrames, WaveTail, Opening, Segment;
    ScanComposes(f, x, y, 0);
    var first := ScanFrom(f, x, 0);
    if first.dangling.Some? {
      var swallowed := first.dangling.value + y[..|body| + 42];
      assert (first.bodies + [swallowed]) + [Segment(body)] == first.bodies + [swallowed, Segment(body)];
    }
  }

  /** The size field of the RIFF header does not matter to the scan. */
  lemma ScanIgnoresSize(audio: Bytes, size: Bytes)
    requires IsWave(audio) && |size| == 4
    ensures ScanAudio(audio[..4] + size + audio[8..]) == ScanAudio(audio)
  {
    var chunks := Latin1(audio[8..]);
    var old8, new8 := Latin1(audio[..8]), Latin1(audio[..4] + size);
    assert Latin1(audio) == old8 + chunks && Latin1(audio[..4] + size + audio[8..]) == new8 + chunks;
    assert chunks[0] == 'W' || chunks[0] as int == 215 by {
      var s := "WAVE";
      assert s[0] as int == 87;
      assert audio[8 + 0] % 128 == 87;
      assert chunks[0] == audio[8] as int as char;
    }
    PatternFacts();
    hide MarkerBegin, MarkerEnd, Latin1, ScanFrom;
    BorderSeparates(old8, chunks, MarkerBegin());
    BorderSeparates(old8, chunks, MarkerEnd());
    BorderSeparates(new8, chunks, MarkerBegin());
    BorderSeparates(new8, chunks, MarkerEnd());
    hide IsPattern, Separate;
    TooShort(old8);
    TooShort(new8);
    ScanSkips(SealFrame(), old8, chunks);
    ScanSkips(SealFrame(), new8, chunks);
  }

  // ---- Trimming and parsing

  lemma TrimEndLine(x: string)
    requires x != "" && !IsSpace(x[|x| - 1])
    ensures TrimEnd(x + "\n") == x
  {
    var t := x + "\n";
    assert IsSpace(t[|t| - 1]) && t[..|t| - 1] == x;
    assert TrimEnd(t) == TrimEnd(x);
  }

  lemma TrimSegment(body: string)
    requires Tidy(body)
    ensures Trim(Segment(body)) == body
  {
    var s := Segment(body);
    assert IsSpace(s[0]) && s[1..] == body + "\n";
    assert TrimStart(s) == TrimStart(body + "\n");
    assert TrimStart(body + "\n") == body + "\n";
    TrimEndLine(body);
  }

  /** A swallowed marker still starts a line with the begin pattern. */
  lemma TrimSwallowed(pre: string, body: string) returns (p: string)
    requires Tidy(body)
    ensures Trim(pre + Opening(body)) == p + (MarkerBegin() + ("\n" + body))
    ensures p == "" || p[|p| - 1] == '\n'
  {
    PatternFacts();
    hide MarkerBegin, MarkerEnd;
    var line := MarkerBegin() + ("\n" + body);
    p := TrimStart(pre + "\n");
    TrimStartKeeps(pre + "\n", line + "\n");
    assert pre + Opening(body) == (pre + "\n") + (line + "\n");
    assert p + (line + "\n") == (p + line) + "\n";
    assert (p + line)[|p + line| - 1] == body[|body| - 1];
    TrimEndLine(p + line);
  }

  lemma SwallowedIsRejected(h: Host, pre: string, body: string)
    requires LawfulHost(h) && Tidy(body)
    ensures TagOf(h, pre + Opening(body)) == None
  {
    hide Trim, Opening, Tidy, MarkerBegin, SealVersion, DecisionRole;
    var p := TrimSwallowed(pre, body);
    assert h.parse(p + (MarkerBegin() + ("\n" + body))) == None;
  }

  lemma OwnIsAccepted(h: Host, id: string)
    requires LawfulHost(h)
    ensures TagOf(h, Segment(OwnBody(h, id))) == Some(IdTag(h, id))
  {
    hide Trim, Tidy, Body, Segment, MarkerBegin, SealVersion, DecisionRole;
    OwnBodyIsTidy(h, id);
    TrimSegment(OwnBody(h, id));
    var tag := IdTag(h, id);
    assert Hex(tag) && Hex(Checksum(h, SealVersion(), DecisionRole(), "audio", tag));
  }

  lemma {:induction false} TagsConcat(h: Host, xs: seq<string>, ys: seq<string>)
    ensures Tags(h, xs + ys) == Tags(h, xs) + Tags(h, ys)
  {
    if ys == [] {
      assert xs + ys == xs;
    } else {
      var n := |ys| - 1;
      assert (xs + ys)[..|xs + ys| - 1] == xs + ys[..n] && (xs + ys)[|xs + ys| - 1] == ys[n];
      TagsConcat(h, xs, ys[..n]);
    }
  }

  lemma TagsOne(h: Host, raw: string)
    ensures Tags(h, [raw]) == match TagOf(h, raw) case None => [] case Some(t) => [t]
  {
    assert [raw][..0] == [] && Tags(h, []) == [];
  }

  // ---- What sealing does to the markers of a file

  /** The scan of the file ends at a begin pattern that nothing closes. */
  predicate Dangles(audio: Bytes) { ScanAudio(audio).dangling.Some? }

  function TagsIn(h: Host, audio: Bytes): seq<string> { Tags(h, ScanAudio(audio).bodies) }

  function CopiesIn(h: Host, audio: Bytes, id: string): nat { Copies(TagsIn(h, audio), IdTag(h, id)) }

  /** Behind a dangling begin the tail marker is swallowed, and nothing of it is read. */
  lemma TailMarkerTags(h: Host, audio: Bytes, id: string)
    requires LawfulHost(h)
    ensures TagsIn(h, audio + Marker(h, id)) == TagsIn(h, audio) + (if Dangles(audio) then [] else [IdTag(h, id)])
  {
    var body := OwnBody(h, id);
    MarkerFacts(h, id);
    Latin1Concat(audio, Marker(h, id));
    hide LawfulHost, OwnBody, Tidy, Marker, MarkerText, Segment, Opening, TagOf, Tags, IdTag, Latin1, ScanFrom, SealFrame;
    ScanBeforeMarker(Latin1(audio), body);
    var first := ScanAudio(audio);
    OwnIsAccepted(h, id);
    if first.dangling.None? {
      TagsConcat(h, first.bodies, [Segment(body)]);
      TagsOne(h, Segment(body));
    } else {
      var swallowed := first.dangling.value + Opening(body);
      SwallowedIsRejected(h, first.dangling.value, body);
      TagsConcat(h, first.bodies, [swallowed]);
      TagsOne(h, swallowed);
    }
  }

  lemma PatchedWhole(audio: Bytes, h: Bytes, m: Bytes, p: Bytes, size: Bytes)
    requires |audio| >= 8
    ensures var next := audio + h + m + p;
            next[..4] + size + next[8..] + m == (audio[..4] + size + audio[8..]) + (h + (m + (p + m)))
  {
    var next := audio + h + m + p;
    assert next[8..] == audio[8..] + (h + m + p);
    assert next[..4] == audio[..4];
  }

  lemma TextOfFive(x: Bytes, h: Bytes, m: Bytes, p: Bytes)
    ensures Latin1(x + (h + (m + (p + m)))) == Latin1(x) + (Latin1(h) + (Latin1(m) + (Latin1(p) + Latin1(m))))
  {
    hide Latin1;
    Latin1Concat(p, m);
    Latin1Concat(m, p + m);
    Latin1Concat(h, m + (p + m));
    Latin1Concat(x, h + (m + (p + m)));
  }

  lemma WaveText(audio: Bytes, marker: Bytes) returns (x: Bytes, head: string, pad: string)
    requires IsWave(audio) && |audio| <= MAX_SUPPORTED_AUDIO_BYTES && |marker| < 1000
    ensures ScanAudio(x) == ScanAudio(audio)
    ensures |head| == 8 && head[0] == 'T' && |pad| <= 1
    ensures Latin1(WithChunk(audio, marker) + marker) == Latin1(x) + (head + (Latin1(marker) + (pad + Latin1(marker))))
  {
    var size := LE32(|Extended(audio, marker)| - 8);
    x := audio[..4] + size + audio[8..];
    ScanIgnoresSize(audio, size);
    ChunkHeadText(|marker|);
    hide ScanAudio, LE32, Latin1, Ascii, ChunkHead;
    var h, p := ChunkHead(|marker|), Padding(|marker|);
    head, pad := Latin1(h), Latin1(p);
    PatchedWhole(audio, h, marker, p, size);
    TextOfFive(x, h, marker, p);
  }

  lemma ChunkHeadText(size: nat)
    requires size < 1000
    ensures |ChunkHead(size)| == 8 && Latin1(ChunkHead(size))[0] == 'T'
  {}

  lemma LeadTags(h: Host, id: string, dangling: Option<string>, head: string)
    requires LawfulHost(h)
    ensures Tags(h, [if dangling.None? then Segment(OwnBody(h, id)) else dangling.value + (head + Opening(OwnBody(h, id)))]) ==
            if dangling.None? then [IdTag(h, id)] else []
  {
    hide LawfulHost, OwnBody, Tidy, Segment, Opening, TagOf, Tags, IdTag;
    var body := OwnBody(h, id);
    if dangling.None? {
      OwnIsAccepted(h, id);
      TagsOne(h, Segment(body));
    } else {
      OwnBodyIsTidy(h, id);
      assert dangling.value + (head + Opening(body)) == (dangling.value + head) + Opening(body);
      SwallowedIsRejected(h, dangling.value + head, body);
      TagsOne(h, (dangling.value + head) + Opening(body));
    }
  }

  lemma TagsThen(h: Host, bodies: seq<string>, lead: string, last: string)
    ensures Tags(h, bodies + [lead, last]) == Tags(h, bodies) + (Tags(h, [lead]) + Tags(h, [last]))
  {
    assert [lead, last] == [lead] + [last];
    TagsConcat(h, [lead], [last]);
    TagsConcat(h, bodies, [lead, last]);
  }

  lemma WaveScan(audio: Bytes, marker: Bytes, body: string) returns (head: string)
    requires IsWave(audio) && |audio| <= MAX_SUPPORTED_AUDIO_BYTES && |marker| < 1000
    requires Tidy(body) && Latin1(marker) == MarkerText(body)
    ensures var first := ScanAudio(audio);
            ScanAudio(WithChunk(audio, marker) + marker) ==
            Scan(first.bodies + [if first.dangling.None? then Segment(body)
                                 else first.dangling.value + (head + Opening(body)), Segment(body)], None)
  {
    hide IsWave, Tidy, MarkerText, Segment, Opening, Latin1, ScanFrom, SealFrame, WithChunk;
    var x, h, pad := WaveText(audio, marker);
    head := h;
    ScanBeforeWaveTail(Latin1(x), head, body, pad);
  }

  /** A dangling begin swallows at most the first of the two markers. */
  lemma WaveMarkerTags(h: Host, audio: Bytes, id: string)
    requires LawfulHost(h) && IsWave(audio) && |audio| <= MAX_SUPPORTED_AUDIO_BYTES && |Marker(h, id)| < 1000
    ensures TagsIn(h, WithChunk(audio, Marker(h, id)) + Marker(h, id)) ==
            TagsIn(h, audio) + (if Dangles(audio) then [IdTag(h, id)] else [IdTag(h, id), IdTag(h, id)])
  {
    var body, tag := OwnBody(h, id), IdTag(h, id);
    hide LawfulHost, IsWave, OwnBody, Tidy, Marker, MarkerText, Segment, Opening, TagOf, Tags, IdTag, Latin1, ScanAudio,
         SealFrame, WithChunk;
    MarkerFacts(h, id);
    var head := WaveScan(audio, Marker(h, id), body);
    var first := ScanAudio(audio);
    LeadTags(h, id, None, head);
    LeadTags(h, id, first.dangling, head);
    if first.dangling.None? {
      TagsThen(h, first.bodies, Segment(body), Segment(body));
      assert [tag] + [tag] == [tag, tag];
    } else {
      TagsThen(h, first.bodies, first.dangling.value + (head + Opening(body)), Segment(body));
      assert [] + [tag] == [tag];
    }
  }

  /** How many of the written markers a reader gets back: a dangling begin in the source swallows the first. */
  function Readable(audio: Bytes): nat {
    (if IsWave(audio) then 2 else 1) - (if Dangles(audio) then 1 else 0)
  }

  /** Sealing keeps every marker of the source and adds the readable ones of its own. */
  lemma SealedTags(h: Host, audio: Bytes, id: string)
    requires LawfulHost(h) && |audio| <= MAX_SUPPORTED_AUDIO_BYTES
    ensures TagsIn(h, Sealed(h, audio, id)) == TagsIn(h, audio) + seq(Readable(audio), _ => IdTag(h, id))
  {
    hide LawfulHost, Marker, TagsIn, IdTag, WithChunk, Dangles;
    MarkerFacts(h, id);
    if IsWave(audio) {
      WaveMarkerTags(h, audio, id);
    } else {
      TailMarkerTags(h, audio, id);
    }
  }

  lemma CopiesOf(tags: seq<string>, n: nat, tag: string, other: string)
    ensures Copies(tags + seq(n, _ => tag), other) == Copies(tags, other) + (if other == tag then n else 0)
    ensures tags + seq(n, _ => tag) == [] <==> tags == [] && n == 0
    decreases n
  {
    var added := seq(n, _ => tag);
    if n == 0 {
      assert tags + added == tags;
    } else {
      CopiesOf(tags, n - 1, tag, other);
      assert added == seq(n - 1, _ => tag) + [tag];
      assert tags + added == (tags + seq(n - 1, _ => tag)) + [tag];
    }
  }

  // ---- Main results

  /** A sealed file passes every guard of the reader but the size limit, which it passes when it fits. */
  lemma SealedIsAccepted(h: Host, audio: Bytes, id: string, reader: string)
    requires LawfulHost(h) && Refusal(h, audio, id).None? && SafeId(reader)
    ensures Refusal(h, Sealed(h, audio, id), reader) ==
            if |Sealed(h, audio, id)| <= MAX_SUPPORTED_AUDIO_BYTES then None else Some(UnsafeSize)
  {
    hide Marker, LawfulHost, IsWave, IsMp3, IsMp4Audio, IsOgg, IsFlac, WithChunk, SafeId;
    MarkerFacts(h, id);
    if IsWave(audio) {
      WaveStaysWave(audio, Marker(h, id));
    } else {
      PrefixIsSupported(audio, Marker(h, id));
    }
  }

  lemma WaveStaysWave(audio: Bytes, marker: Bytes)
    requires IsWave(audio) && |audio| + |marker| + 9 < 0x1_0000_0000
    ensures IsWave(WithChunk(audio, marker) + marker) && |WithChunk(audio, marker)| > 0
  {
    hide LE32, ChunkHead;
    var out := WithChunk(audio, marker) + marker;
    assert forall i :: 0 <= i < |audio| && !(4 <= i < 8) ==> out[i] == audio[i];
  }

  lemma PrefixIsSupported(audio: Bytes, more: Bytes)
    requires Supported(audio) && !IsWave(audio)
    ensures Supported(audio + more)
  {
    assert forall i :: 0 <= i < |audio| ==> (audio + more)[i] == audio[i];
  }

  lemma Patched(next: Bytes, size: Bytes, off: nat, part: Bytes)
    requires |next| >= 8 && |size| == 4 && Holds(next, off, part) && (off >= 8 || off + |part| <= 4)
    ensures Holds(next[..4] + size + next[8..], off, part)
  {
    var out := next[..4] + size + next[8..];
    forall i | 0 <= i < |part|
      ensures out[off + i] == part[i]
    {
      assert next[off..off + |part|][i] == part[i];
    }
  }

  /** The chunk lies behind the source, which keeps all its bytes but the size field, and that field counts the chunk. */
  lemma WaveChunkFits(audio: Bytes, marker: Bytes)
    requires |audio| >= 8 && |audio| + |marker| + 9 < 0x1_0000_0000
    ensures var out := WithChunk(audio, marker);
            && |out| % 2 == |audio| % 2 && |out| >= |audio| + 8 + |marker|
            && GetLE32(out, 4) + 8 == |out|
            && Holds(out, 0, audio[..4]) && Holds(out, 8, audio[8..])
            && Holds(out, |audio|, Ascii("TMAI")) && GetLE32(out, |audio| + 4) == |marker|
            && Holds(out, |audio| + 8, marker)
  {
    hide LE32, Ascii, GetLE32, Holds;
    var next, out := Extended(audio, marker), WithChunk(audio, marker);
    var tag, size := Ascii("TMAI"), LE32(|marker|);
    var whole := LE32(|next| - 8);
    assert out == next[..4] + whole + next[8..];
    HoldsThree(next[..4], whole, next[8..]);
    HoldsLE32(out, 4, |next| - 8);
    assert next == audio + (tag + size) + (marker + Padding(|marker|));
    HoldsThree(audio, tag + size, marker + Padding(|marker|));
    HoldsParts(next, |audio|, tag, size);
    HoldsParts(next, |audio| + 8, marker, Padding(|marker|));
    assert audio == audio[..8] + audio[8..] && audio[..8] == audio[..4] + audio[4..8];
    HoldsParts(next, 0, audio[..8], audio[8..]);
    HoldsParts(next, 0, audio[..4], audio[4..8]);
    Patched(next, whole, 0, audio[..4]);
    Patched(next, whole, 8, audio[8..]);
    Patched(next, whole, |audio|, tag);
    Patched(next, whole, |audio| + 4, size);
    Patched(next, whole, |audio| + 8, marker);
    HoldsLE32(out, |audio| + 4, |marker|);
  }

  /**
    * Reading a sealed file with its own id: a sealed WAV is always found. Any other file is found if and only if the
    * source has no dangling begin pattern, or already held a copy.
    */
  lemma OwnSealIsRead(h: Host, audio: Bytes, id: string)
    requires LawfulHost(h) && |audio| <= MAX_SUPPORTED_AUDIO_BYTES
    ensures var r := Judge(TagsIn(h, Sealed(h, audio, id)), IdTag(h, id));
            && r.copies == CopiesIn(h, audio, id) + Readable(audio)
            && (r.found <==> IsWave(audio) || !Dangles(audio) || CopiesIn(h, audio, id) > 0)
  {
    hide LawfulHost, Marker, TagsIn, IdTag, Sealed, Dangles, IsWave;
    SealedTags(h, audio, id);
    CopiesOf(TagsIn(h, audio), Readable(audio), IdTag(h, id), IdTag(h, id));
  }

  ghost predicate HoldsNoBegin(audio: Bytes) { Absent(Latin1(audio), MarkerBegin()) }

  /** Without begin patterns in the source, every written copy is read and nothing else. */
  lemma CleanSourceIsRead(h: Host, audio: Bytes, id: string)
    requires LawfulHost(h) && |audio| <= MAX_SUPPORTED_AUDIO_BYTES
    requires HoldsNoBegin(audio)
    ensures Judge(TagsIn(h, Sealed(h, audio, id)), IdTag(h, id)) ==
            if IsWave(audio) then Reading(true, false, 1.0, 2, 100) else Reading(true, false, 0.5, 1, 95)
  {
    hide LawfulHost, Marker, IdTag, Sealed, IsWave, MarkerBegin, MarkerEnd, IndexOf, Latin1;
    IndexOfFirst(Latin1(audio), MarkerBegin(), 0);
    assert ScanAudio(audio) == Scan([], None);
    SealedTags(h, audio, id);
    CopiesOf([], Readable(audio), IdTag(h, id), IdTag(h, id));
  }

  /** An id with another tag gains no copy, only the weak signal. */
  lemma OtherIdIsWeak(h: Host, audio: Bytes, id: string, other: string)
    requires LawfulHost(h) && |audio| <= MAX_SUPPORTED_AUDIO_BYTES
    requires IdTag(h, other) != IdTag(h, id)
    ensures var r := Judge(TagsIn(h, Sealed(h, audio, id)), IdTag(h, other));
            && r.copies == CopiesIn(h, audio, other)
            && (CopiesIn(h, audio, other) == 0 ==> !r.found && (r.weakSignal <==> Readable(audio) > 0 || TagsIn(h, audio) != []))
  {
    hide LawfulHost, Marker, TagsIn, IdTag, Sealed, Dangles, IsWave;
    SealedTags(h, audio, id);
    CopiesOf(TagsIn(h, audio), Readable(audio), IdTag(h, id), IdTag(h, other));
  }

  /** A file that ends in a bare begin pattern, in a container the seal supports. */
  function DanglingSource(): Bytes { Ascii("ID3") + Ascii(MarkerBegin()) }

  lemma DanglingSourceIsSupported()
    ensures |DanglingSource()| == 34 && Supported(DanglingSource()) && !IsWave(DanglingSource())
  {
    PatternFacts();
    var s, audio := "ID3", DanglingSource();
    assert s[0] as int == 73 && s[1] as int == 68 && s[2] as int == 51;
    assert audio[0] == 73 && audio[1] == 68 && audio[2] == 51;
    var r := "RIFF";
    assert r[0] as int == 82;
    assert !AsciiAt(audio, 0, "RIFF") by {
      assert audio[0 + 0] % 128 != 82;
    }
  }

  /** The condition above cannot be dropped: this file loses its seal, as the appended marker is swallowed. */
  lemma TailSealCanBeLost(h: Host, id: string)
    requires LawfulHost(h) && FlagEnabled(h) && SafeId(id)
    ensures |DanglingSource()| == 34 && Refusal(h, DanglingSource(), id).None?
    ensures Judge(TagsIn(h, Sealed(h, DanglingSource(), id)), IdTag(h, id)) == Reading(false, false, 0.0, 0, 0)
  {
    DanglingSourceIsSupported();
    BareBegin();
    var audio := DanglingSource();
    hide LawfulHost, Marker, IdTag, Sealed, IsWave, IsMp3, MarkerBegin, Ascii, SafeId, ScanFrom, Latin1, DanglingSource, Supported;
    assert ScanAudio(audio) == Scan([], Some(""));
    SealedTags(h, audio, id);
    CopiesOf([], 0, IdTag(h, id), IdTag(h, id));
  }

  lemma BareBegin()
    ensures ScanFrom(SealFrame(), Latin1(DanglingSource()), 0) == Scan([], Some(""))
  {
    PatternFacts();
    assert Narrow("ID3");
    hide MarkerBegin, MarkerEnd;
    Latin1OfAscii("ID3");
    Latin1OfAscii(MarkerBegin());
    hide Latin1, Ascii;
    Latin1Concat(Ascii("ID3"), Ascii(MarkerBegin()));
    var s := "ID3" + MarkerBegin();
    assert s[3..34] == MarkerBegin() && s[34..] == "";
    assert s[0] == 'I' && s[1] == 'D' && s[2] == '3';
    IndexOfIs(s, MarkerBegin(), 0, 3);
    IndexOfFirst(s, MarkerEnd(), 34);
  }
}
