/** What the DOCX seal writes and what its reader reports, in terms of bytes, texts and names. */
module DocxLaws {
  import opened Members
  import opened Prelude
  import opened Bytes
  import opened SealGuards
  import opened Search
  import opened Zip
  import opened DocxSeal

  // ---- Escaping

  function EscapedChar(c: char): string {
    match c
    case '&' => "&amp;"
    case '<' => "&lt;"
    case '>' => "&gt;"
    case '"' => "&quot;"
    case _ => [c]
  }

  function EscapedText(s: string): string {
    if s == "" then "" else EscapedChar(s[0]) + EscapedText(s[1..])
  }

  lemma {:induction false} ReplaceConcat(x: string, y: string, c: char, text: string)
    ensures ReplaceAll(x + y, c, text) == ReplaceAll(x, c, text) + ReplaceAll(y, c, text)
  {
    if x == "" {
      assert x + y == y;
    } else {
      assert (x + y)[1..] == x[1..] + y;
      ReplaceConcat(x[1..], y, c, text);
    }
  }

  lemma EscapeConcat(x: string, y: string)
    ensures EscapeXml(x + y) == EscapeXml(x) + EscapeXml(y)
  {
    hide ReplaceAll;
    var x1, y1 := ReplaceAll(x, '&', "&amp;"), ReplaceAll(y, '&', "&amp;");
    var x2, y2 := ReplaceAll(x1, '<', "&lt;"), ReplaceAll(y1, '<', "&lt;");
    var x3, y3 := ReplaceAll(x2, '>', "&gt;"), ReplaceAll(y2, '>', "&gt;");
    ReplaceConcat(x, y, '&', "&amp;");
    ReplaceConcat(x1, y1, '<', "&lt;");
    ReplaceConcat(x2, y2, '>', "&gt;");
    ReplaceConcat(x3, y3, '"', "&quot;");
  }

  lemma ReplaceOne(x: char, c: char, text: string)
    ensures ReplaceAll([x], c, text) == if x == c then text else [x]
  {
    assert [x][1..] == "";
  }

  lemma EscapeOne(c: char)
    ensures EscapeXml([c]) == EscapedChar(c)
  {
    hide ReplaceAll;
    ReplaceOne(c, '&', "&amp;");
    ReplaceOne(c, '<', "&lt;");
    ReplaceOne(c, '>', "&gt;");
    ReplaceOne(c, '"', "&quot;");
    if c == '&' {
      NoneOf("&amp;");
    } else if c == '<' {
      NoneOf("&lt;");
    } else if c == '>' {
      NoneOf("&gt;");
    }
  }

  lemma NoneOf(s: string)
    requires '<' !in s && '>' !in s && '"' !in s
    ensures ReplaceAll(s, '<', "&lt;") == ReplaceAll(s, '>', "&gt;") == ReplaceAll(s, '"', "&quot;") == s
  {
    ReplaceAbsent(s, '<', "&lt;");
    ReplaceAbsent(s, '>', "&gt;");
    ReplaceAbsent(s, '"', "&quot;");
  }

  /** Four replacements one after the other escape every character by itself. */
  lemma {:induction false} EscapeIsByChar(s: string)
    ensures EscapeXml(s) == EscapedText(s)
  {
    hide EscapeXml;
    if s == "" {
      EscapePlain(s);
    } else {
      EscapeIsByChar(s[1..]);
      EscapeOne(s[0]);
      EscapeConcat([s[0]], s[1..]);
      assert [s[0]] + s[1..] == s;
    }
  }

  // ---- The marker texts

  function TagText(h: Host, id: string): string {
    "tancmark-docx-ai-seal:" + h.digest("tancmark-ai-seal" + "-docx-mvp-v1" + ":" + id)
  }

  /** Different ids are hashed as different messages: equal tags of different ids are a collision of the digest. */
  lemma TagsTell(h: Host, id: string, id': string)
    ensures Tag(h, id) == TagText(h, id)
    ensures Tag(h, id) == Tag(h, id') <==> h.digest(SEAL_VERSION + ":" + id) == h.digest(SEAL_VERSION + ":" + id')
    ensures id != id' ==> SEAL_VERSION + ":" + id != SEAL_VERSION + ":" + id'
  {
    var n, m := |MARKER_PREFIX|, |SEAL_VERSION + ":"|;
    assert Tag(h, id)[n..] == h.digest(SEAL_VERSION + ":" + id) && Tag(h, id')[n..] == h.digest(SEAL_VERSION + ":" + id');
    assert (SEAL_VERSION + ":" + id)[m..] == id && (SEAL_VERSION + ":" + id')[m..] == id';
  }

  lemma ConstantsArePlain()
    ensures EscapeXml(SEAL_VERSION) == SEAL_VERSION && EscapeXml(DECISION_ROLE) == DECISION_ROLE
  {
    VersionIsPlain();
    RoleIsPlain();
    hide EscapeXml;
    EscapePlain(SEAL_VERSION);
    EscapePlain(DECISION_ROLE);
  }

  lemma VersionIsPlain()
    ensures Plain(SEAL_VERSION)
  {
    PlainLetters("tancmark-ai-seal");
    PlainLetters("-docx-mvp-v1");
    PlainConcat("tancmark-ai-seal", "-docx-mvp-v1");
  }

  lemma RoleIsPlain()
    ensures Plain(DECISION_ROLE)
  {
    PlainLetters("docx_ai_exact_id");
    PlainLetters("_ownership");
    PlainLetters("_no_vault_no_final");
    PlainConcat("docx_ai_exact_id", "_ownership");
    PlainConcat("docx_ai_exact_id" + "_ownership", "_no_vault_no_final");
  }

  lemma PlainLetters(s: string)
    requires forall i :: 0 <= i < |s| ==> 'a' <= s[i] <= 'z' || s[i] == '-' || s[i] == '_' || s[i] == '1'
    ensures Plain(s)
  {}

  lemma PlainConcat(s: string, t: string)
    requires Plain(s) && Plain(t)
    ensures Plain(s + t)
  {}

  /** The texts of the two marker parts, line by line. */
  lemma MarkerTexts(h: Host, id: string)
    requires LawfulHost(h)
    ensures PackageXml(Tag(h, id)) ==
            ("<?xml version=\"1.0\" encoding=\"UTF-8\"?>\n"
             + ("<tancmarkAiSeal version=\"" + ("tancmark-ai-seal" + "-docx-mvp-v1") + "\" role=\""
                + ("docx_ai_exact_id" + "_ownership" + "_no_vault_no_final") + "\">\n  <exactIdTag>"))
            + TagText(h, id)
            + ("</exactIdTag>\n" + "  <vault>false</vault>\n" + "  <final>false</final>\n" + "</tancmarkAiSeal>")
    ensures PropertyXml(Tag(h, id)) ==
            ("<?xml version=\"1.0\" encoding=\"UTF-8\"?>\n"
             + ("<tancmarkDocxAiProperty version=\"" + ("tancmark-ai-seal" + "-docx-mvp-v1") + "\">\n  <exactIdTag>"))
            + TagText(h, id)
            + ("</exactIdTag>\n" + "  <visibleDocumentTextMutated>" + "false" + "</visibleDocumentTextMutated>\n"
               + "</tancmarkDocxAiProperty>")
  {
    hide EscapeXml;
    ConstantsArePlain();
    TagIsPlain(h, id);
    HeadsAre();
  }

  lemma HeadsAre()
    requires EscapeXml(SEAL_VERSION) == SEAL_VERSION && EscapeXml(DECISION_ROLE) == DECISION_ROLE
    ensures PackageHead() ==
            "<?xml version=\"1.0\" encoding=\"UTF-8\"?>\n"
            + ("<tancmarkAiSeal version=\"" + ("tancmark-ai-seal" + "-docx-mvp-v1") + "\" role=\""
               + ("docx_ai_exact_id" + "_ownership" + "_no_vault_no_final") + "\">\n  <exactIdTag>")
    ensures PropertyHead() ==
            "<?xml version=\"1.0\" encoding=\"UTF-8\"?>\n"
            + ("<tancmarkDocxAiProperty version=\"" + ("tancmark-ai-seal" + "-docx-mvp-v1") + "\">\n  <exactIdTag>")
  {
    hide EscapeXml;
    var d, v, r := XmlDeclaration(), SEAL_VERSION, DECISION_ROLE;
    Five(d, "<tancmarkAiSeal version=\"", v, "\" role=\"", r, "\">\n  <exactIdTag>");
    Three(d, "<tancmarkDocxAiProperty version=\"", v, "\">\n  <exactIdTag>");
  }

  lemma Five(d: string, a: string, b: string, c: string, e: string, f: string)
    ensures d + a + b + c + e + f == d + (a + b + c + e + f)
  {}

  lemma Three(d: string, a: string, b: string, c: string)
    ensures d + a + b + c == d + (a + b + c)
  {}

  /** A declaration is put in front of the first closing tag, unless the part is declared already. */
  lemma DeclaredText(xml: string, part: string)
    ensures var attribute := "PartName=\"/" + part + "\"";
            && (Contains(xml, attribute) || !Contains(xml, "</Types>") ==> Declare(xml, part) == xml)
            && (!Contains(xml, attribute) ==>
                  forall i: nat :: i <= |xml| && At(xml, "</Types>", i) && (forall j: nat :: j < i ==> !At(xml, "</Types>", j)) ==>
                    Declare(xml, part) == xml[..i] + ("<Override " + attribute + " ContentType=\"application/xml\"/>") + xml[i..])
  {
    hide At, IndexOf;
    var x := OverrideElement(part);
    ContainsIff(xml, TYPES_END);
    forall i: nat | i <= |xml| && At(xml, TYPES_END, i) && forall j: nat :: j < i ==> !At(xml, TYPES_END, j)
      ensures ReplaceFirst(xml, TYPES_END, x + TYPES_END) == xml[..i] + x + xml[i..]
    {
      IndexOfIs(xml, TYPES_END, 0, i);
      InsertAt(xml, i, x, TYPES_END);
    }
  }

  lemma InsertAt(xml: string, i: nat, x: string, end: string)
    requires At(xml, end, i)
    ensures i + |end| <= |xml| && xml[..i] + (x + end) + xml[i + |end|..] == xml[..i] + x + xml[i..]
  {
    assert xml[i..] == end + xml[i + |end|..];
  }

  // ---- The guards

  /** Which packages are opened, and the first guard that refuses the others. */
  lemma GuardsMean(h: Host, docx: Bytes, id: string)
    ensures var enabled := h.flag == Some("1") || h.flag == Some("true");
            var named := 8 <= |id| <= 160 && forall i :: 0 <= i < |id| ==>
                           'a' <= id[i] <= 'z' || 'A' <= id[i] <= 'Z' || '0' <= id[i] <= '9' || id[i] in "._:-";
            var sized := 1 <= |docx| <= 62914560;
            var r := OpenPackage(h, docx, id);
            && (r == Err(FlagDisabled) <==> !enabled)
            && (r == Err(InvalidId) <==> enabled && !named)
            && (r == Err(UnsafeSize) <==> enabled && named && !sized)
            && (enabled && named && sized ==>
                  var read := ReadArchive(h.zip, docx);
                  && (read.Err? <==> exists e :: r == Err(BadZip(e)))
                  && (read.Err? ==> r == Err(BadZip(read.error)))
                  && (read == Ok([]) <==> r == Err(EmptyPackage))
                  && (r.Ok? <==> read.Ok? && Named(read.value, "[Content_Types].xml") != [] && Named(read.value, "word/document.xml") != [])
                  && (r.Ok? ==> r.value == read.value)
                  && (r == Err(UnsupportedPackage) <==> read.Ok? && read.value != [] && !r.Ok?))
  {
    hide ReadArchive, Named, HasEntry;
    var read := ReadArchive(h.zip, docx);
    if read.Ok? {
      NamedNonempty(read.value, CONTENT_TYPES);
      NamedNonempty(read.value, WORD_DOCUMENT);
      NothingNamed(CONTENT_TYPES);
    }
  }

  lemma NothingNamed(name: string)
    ensures Named([], name) == []
  {}

  // ---- The reader

  /** The first entry of that name exists, and its text has the tag at some place. */
  ghost predicate Bears(h: Host, es: seq<ZipEntry>, name: string, tag: string) {
    Named(es, name) != [] && exists i: nat :: At(h.zip.decode(Named(es, name)[0].data), tag, i)
  }

  lemma ContainsMeans(h: Host, es: seq<ZipEntry>, name: string, tag: string)
    ensures EntryContains(h, es, name, tag) <==> Bears(h, es, name, tag)
  {
    hide Contains, At, Named, Find;
    FindIsFirstNamed(es, name);
    if Named(es, name) != [] {
      ContainsIff(h.zip.decode(Named(es, name)[0].data), tag);
    }
  }

  /**
    * For every package the guards let through: the seal is found if and only if the first package marker and the first
    * property marker both bear the tag of the id, a weak signal of 50 percent is reported if and only if exactly one
    * does, and nothing otherwise.
    */
  lemma ReadMeans(h: Host, docx: Bytes, id: string, es: seq<ZipEntry>)
    requires OpenPackage(h, docx, id) == Ok(es)
    ensures var first := Bears(h, es, "customXml/tancmark-ai-seal.xml", TagText(h, id));
            var second := Bears(h, es, "docProps/tancmark-ai-seal.xml", TagText(h, id));
            ReadSeal(h, docx, id) ==
            if first && second then Ok(Evidence(true, false, 100))
            else if first || second then Ok(Evidence(false, true, 50))
            else Ok(Evidence(false, false, 0))
  {
    hide OpenPackage, EntryContains, Bears;
    TagsTell(h, id, id);
    ContainsMeans(h, es, PACKAGE_MARKER, TagText(h, id));
    ContainsMeans(h, es, PROPERTY_MARKER, TagText(h, id));
  }

  /** A package without the two parts, as any ordinary document, has nothing reported. */
  lemma UnsealedReadsNothing(h: Host, docx: Bytes, id: string, es: seq<ZipEntry>)
    requires OpenPackage(h, docx, id) == Ok(es)
    requires forall e :: e in es ==> e.name != "customXml/tancmark-ai-seal.xml" && e.name != "docProps/tancmark-ai-seal.xml"
    ensures ReadSeal(h, docx, id) == Ok(Evidence(false, false, 0))
  {
    hide OpenPackage, ReadSeal;
    ReadMeans(h, docx, id, es);
    FilterNone(es, HasName("customXml/tancmark-ai-seal.xml"));
    FilterNone(es, HasName("docProps/tancmark-ai-seal.xml"));
  }

  /** What a sealed package holds under every name. */
  lemma SealedHolds(h: Host, docx: Bytes, id: string, es: seq<ZipEntry>, out: Bytes, name: string)
    requires LawfulHost(h) && OpenPackage(h, docx, id) == Ok(es) && Sealed(h, docx, id) == Ok(out)
    ensures ReadArchive(h.zip, out).Ok? && Named(es, "[Content_Types].xml") != []
    ensures var types := h.zip.decode(Named(es, "[Content_Types].xml")[0].data);
            Named(ReadArchive(h.zip, out).value, name) ==
            if name == "customXml/tancmark-ai-seal.xml" then [ZipEntry(name, h.zip.encode(PackageXml(Tag(h, id))))]
            else if name == "docProps/tancmark-ai-seal.xml" then [ZipEntry(name, h.zip.encode(PropertyXml(Tag(h, id))))]
            else if name == "[Content_Types].xml" then
              [ZipEntry(name, h.zip.encode(Declare(Declare(types, "customXml/tancmark-ai-seal.xml"), "docProps/tancmark-ai-seal.xml")))]
            else Named(es, name)
  {
    hide ReadArchive, Archive, SealedEntries, Named, Openable, SafeId, Tag, PackageXml, PropertyXml, Declare, Find;
    var types := Find(es, CONTENT_TYPES).value;
    FindIsFirstNamed(es, CONTENT_TYPES);
    SealedReadsBack(h, docx, id, es, types);
    SealedParts(h, es, types, id, name);
  }
}
