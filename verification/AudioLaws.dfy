/** What the audio seal writes and accepts, in terms of bytes, texts and the fields of a marker. */
module AudioLaws {
  import opened Prelude
  import opened Bytes
  import opened SealGuards
  import opened Whitespace
  import opened AudioSeal

  // ---- Texts

  function Version(): string { "tancmark-ai-seal-audio-mvp-v1" }

  function Role(): string { "audio_ai_exact_id_owner" + "ship_no_vault_no_final" }

  /** The hashed message of a checksum. */
  function SumMessage(tag: string): string { Version() + ":" + Role() + ":" + "audio" + ":" + tag }

  /** A marker, line by line. */
  lemma MarkerBytes(h: Host, id: string)
    ensures var tag := h.digest(Version() + ":" + id);
            Marker(h, id) ==
            Ascii("\n" + "TANCMARK_AUDIO_AI_SEAL_BEGIN_V1"
                  + ("\n" + ("{\"version\":\"" + Version() + "\",\"role\":\"" + Role() + "\",\"format\":\"audio\",\"idTag\":\"" + tag
                             + "\",\"vault\":false,\"final\":false,\"checksum\":\"" + h.digest(SumMessage(tag)) + "\"}") + "\n")
                  + "TANCMARK_AUDIO_AI_SEAL_END_V1" + "\n")
  {}

  /** Different ids are hashed as different messages, and so are different tags. */
  lemma MessagesTell(id: string, id': string)
    ensures Version() + ":" + id == Version() + ":" + id' <==> id == id'
    ensures SumMessage(id) == SumMessage(id') <==> id == id'
  {
    hide Version, Role;
    var n := |Version() + ":"|;
    assert (Version() + ":" + id)[n..] == id && (Version() + ":" + id')[n..] == id';
    var m := |Version() + ":" + Role() + ":" + "audio" + ":"|;
    assert SumMessage(id)[m..] == id && SumMessage(id')[m..] == id';
  }

  // ---- Which bodies count

  /** A marker body counts exactly if it parses and has this version, this role, this format, a tag, and the checksum of these. */
  lemma TagOfMeans(h: Host, raw: string, tag: string)
    ensures TagOf(h, raw) == Some(tag) <==>
            && h.parse(Trim(raw)).Some?
            && var p := h.parse(Trim(raw)).value;
               && p.version == Some(Version()) && p.role == Some(Role()) && p.format == Some("audio") && p.idTag == Some(tag)
               && p.checksum == Some(h.digest(SumMessage(tag)))
  {
    hide Trim;
  }

  // ---- Containers

  /** A byte read as the ASCII decoder reads it. */
  predicate Reads(audio: Bytes, at: nat, letter: nat) {
    at < |audio| && (audio[at] as int == letter || audio[at] as int == letter + 128)
  }

  /** The containers by their first bytes. */
  lemma ContainersMean(audio: Bytes)
    ensures IsWave(audio) <==>
            && Reads(audio, 0, 0x52) && Reads(audio, 1, 0x49) && Reads(audio, 2, 0x46) && Reads(audio, 3, 0x46)
            && Reads(audio, 8, 0x57) && Reads(audio, 9, 0x41) && Reads(audio, 10, 0x56) && Reads(audio, 11, 0x45)
    ensures IsMp3(audio) <==>
            && |audio| >= 3
            && ((Reads(audio, 0, 0x49) && Reads(audio, 1, 0x44) && Reads(audio, 2, 0x33))
                || (audio[0] == 0xff && (audio[1] as int) / 32 == 7))
    ensures IsMp4Audio(audio) <==>
            && |audio| >= 16 && 8 <= HighestFirst(audio[0..4]) <= |audio|
            && Reads(audio, 4, 0x66) && Reads(audio, 5, 0x74) && Reads(audio, 6, 0x79) && Reads(audio, 7, 0x70)
    ensures IsOgg(audio) <==> Reads(audio, 0, 0x4f) && Reads(audio, 1, 0x67) && Reads(audio, 2, 0x67) && Reads(audio, 3, 0x53)
    ensures IsFlac(audio) <==> Reads(audio, 0, 0x66) && Reads(audio, 1, 0x4c) && Reads(audio, 2, 0x61) && Reads(audio, 3, 0x43)
    ensures Supported(audio) <==> IsWave(audio) || IsMp3(audio) || IsMp4Audio(audio) || IsOgg(audio) || IsFlac(audio)
  {
    Four(audio, 0, "RIFF");
    Four(audio, 8, "WAVE");
    Four(audio, 4, "ftyp");
    Four(audio, 0, "OggS");
    Four(audio, 0, "fLaC");
    ThreeLetters(audio, "ID3");
    FieldsSpell(audio, 0);
    hide AsciiAt, GetBE32, HighestFirst;
  }

  lemma Four(audio: Bytes, at: nat, s: string)
    requires |s| == 4 && forall i :: 0 <= i < 4 ==> s[i] as int < 128
    ensures AsciiAt(audio, at, s) <==>
            && Reads(audio, at, s[0] as int) && Reads(audio, at + 1, s[1] as int)
            && Reads(audio, at + 2, s[2] as int) && Reads(audio, at + 3, s[3] as int)
  {
    LowBits(audio, at, s);
  }

  lemma ThreeLetters(audio: Bytes, s: string)
    requires |s| == 3 && forall i :: 0 <= i < 3 ==> s[i] as int < 128
    ensures AsciiAt(audio, 0, s) <==>
            Reads(audio, 0, s[0] as int) && Reads(audio, 1, s[1] as int) && Reads(audio, 2, s[2] as int)
  {
    LowBits(audio, 0, s);
  }

  lemma LowBits(audio: Bytes, at: nat, s: string)
    requires forall i :: 0 <= i < |s| ==> s[i] as int < 128
    ensures AsciiAt(audio, at, s) <==> at + |s| <= |audio| && forall i :: 0 <= i < |s| ==> Reads(audio, at + i, s[i] as int)
  {
    forall i | 0 <= i < |s| && at + i < |audio|
      ensures (audio[at + i] % 128) as int == s[i] as int <==> Reads(audio, at + i, s[i] as int)
    {}
  }

  // ---- The guards

  /** The first guard that refuses, in the order of the code. */
  lemma RefusalMeans(h: Host, audio: Bytes, id: string)
    ensures var enabled := h.flag == Some("1") || h.flag == Some("true");
            var named := 8 <= |id| <= 160 && forall i :: 0 <= i < |id| ==>
                           'a' <= id[i] <= 'z' || 'A' <= id[i] <= 'Z' || '0' <= id[i] <= '9' || id[i] in "._:-";
            var sized := 1 <= |audio| <= 125829120;
            var r := Refusal(h, audio, id);
            && (r == Some(FlagDisabled) <==> !enabled)
            && (r == Some(InvalidId) <==> enabled && !named)
            && (r == Some(UnsafeSize) <==> enabled && named && !sized)
            && (r == Some(UnsupportedContainer) <==> enabled && named && sized && !Supported(audio))
            && (r == None <==> enabled && named && sized && Supported(audio))
  {
    hide Supported;
  }

  // ---- Bytes of a sealed file

  /** A sealed WAV: the size field counts the file without its first eight bytes; a chunk and a second marker follow the source. */
  lemma SealedWaveBytes(h: Host, audio: Bytes, id: string)
    requires LawfulHost(h) && 12 <= |audio| <= MAX_SUPPORTED_AUDIO_BYTES && IsWave(audio)
    ensures |Marker(h, id)| < 1000
    ensures var m := Marker(h, id);
            var pad: Bytes := if |m| % 2 == 1 then [0] else [];
            var size := |audio| + |m| + |pad|;
            Sealed(h, audio, id) == audio[..4] + LE32(size) + audio[8..] + [0x54, 0x4d, 0x41, 0x49] + LE32(|m|) + m + pad + m
  {
    hide Marker, LawfulHost, IsWave, LE32;
    MarkerFacts(h, id);
    var m := Marker(h, id);
    assert Ascii("TMAI") == [0x54, 0x4d, 0x41, 0x49];
    ChunkedWave(audio, m);
  }

  lemma ChunkedWave(audio: Bytes, m: Bytes)
    requires 12 <= |audio| && |audio| + |m| + 9 < 0x1_0000_0000 && Ascii("TMAI") == [0x54, 0x4d, 0x41, 0x49]
    ensures var pad: Bytes := if |m| % 2 == 1 then [0] else [];
            WithChunk(audio, m) ==
            audio[..4] + LE32(|audio| + |m| + |pad|) + audio[8..] + [0x54, 0x4d, 0x41, 0x49] + LE32(|m|) + m + pad
  {
    hide LE32, Ascii;
    var next := Extended(audio, m);
    var pad: Bytes := if |m| % 2 == 1 then [0] else [];
    var head: Bytes := [0x54, 0x4d, 0x41, 0x49];
    assert next == audio + (head + LE32(|m|)) + m + pad;
    assert next[..4] == audio[..4];
    assert next[8..] == audio[8..] + head + LE32(|m|) + m + pad;
  }

  /** Any other container keeps its bytes and gets one marker behind them. */
  lemma SealedOtherBytes(h: Host, audio: Bytes, id: string)
    requires LawfulHost(h) && |audio| <= MAX_SUPPORTED_AUDIO_BYTES && !IsWave(audio)
    ensures Sealed(h, audio, id) == audio + Marker(h, id)
  {
    hide Marker;
  }

  /** The report by the number of copies of the tag, and by whether there are markers of any tag. */
  lemma JudgeMeans(tags: seq<string>, tag: string)
    ensures var n, r := multiset(tags)[tag], Judge(tags, tag);
            && r.copies == n && (r.found <==> tag in tags)
            && (n == 1 ==> r == Reading(true, false, 0.5, 1, 95))
            && (n >= 2 ==> r == Reading(true, false, 1.0, n, 100))
            && (tag !in tags && tags != [] ==> r == Reading(false, true, 0.35, 0, 35))
            && (tags == [] ==> r == Reading(false, false, 0.0, 0, 0))
  {
    assert tag in tags <==> tag in multiset(tags);
  }
}
