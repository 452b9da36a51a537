/**
  * The DOCX seal: an exact id tag in two extra package parts, declared in the content types part, and its reader.
  */
module DocxSeal {
  import opened Members
  import opened Prelude
  import opened Bytes
  import opened SealGuards
  import opened Search
  import opened Sorting
  import opened Zip

  const MAX_SUPPORTED_DOCX_BYTES := 60 * 1024 * 1024
  const MARKER_PREFIX := "tancmark-docx-ai-seal:"
  const SEAL_VERSION := "tancmark-ai-seal" + "-docx-mvp-v1"
  const DECISION_ROLE := "docx_ai_exact_id" + "_ownership" + "_no_vault_no_final"
  const PACKAGE_MARKER := "customXml/tancmark-ai-seal.xml"
  const PROPERTY_MARKER := "docProps/tancmark-ai-seal.xml"
  const CONTENT_TYPES := "[Content_Types].xml"
  const WORD_DOCUMENT := "word/document.xml"

  datatype SealError = FlagDisabled | InvalidId | UnsafeSize | EmptyPackage | UnsupportedPackage | BadZip(error: ZipError)

  /** What the seal takes from the runtime: files and text, collation of names, SHA-256 in hex, the feature flag. */
  datatype Host = Host(zip: Platform, collates: (string, string) -> bool, digest: string -> string, flag: Option<string>)

  ghost predicate LawfulHost(h: Host) {
    && Lawful(h.zip)
    && TotalPreorder(h.collates)
    && forall s :: |h.digest(s)| == 64 && forall i :: 0 <= i < 64 ==> IsHexDigit(h.digest(s)[i])
  }

  // ---- Guards

  predicate FlagEnabled(h: Host) { h.flag == Some("1") || h.flag == Some("true") }

  predicate SafeSize(docx: Bytes) { 0 < |docx| <= MAX_SUPPORTED_DOCX_BYTES }

  predicate HasEntry(es: seq<ZipEntry>, name: string) {
    exists i :: 0 <= i < |es| && es[i].name == name
  }

  predicate Openable(es: seq<ZipEntry>) { HasEntry(es, CONTENT_TYPES) && HasEntry(es, WORD_DOCUMENT) }

  /** The guards every operation runs first, and the package they let through. */
  function OpenPackage(h: Host, docx: Bytes, id: string): Result<seq<ZipEntry>, SealError> {
    if !FlagEnabled(h) then Err(FlagDisabled)
    else if !SafeId(id) then Err(InvalidId)
    else if !SafeSize(docx) then Err(UnsafeSize)
    else
      match ReadArchive(h.zip, docx)
      case Err(e) => Err(BadZip(e))
      case Ok(es) => if es == [] then Err(EmptyPackage) else if !Openable(es) then Err(UnsupportedPackage) else Ok(es)
  }

  // ---- Package parts

  function NameOf(): ZipEntry -> string { (e: ZipEntry) => e.name }

  function HasName(name: string): ZipEntry -> bool { (e: ZipEntry) => e.name == name }

  function OtherThan(name: string): ZipEntry -> bool { (e: ZipEntry) => e.name != name }

  /** The entries named `name`, in order. */
  function Named(es: seq<ZipEntry>, name: string): seq<ZipEntry> { Filter(es, HasName(name)) }

  function Without(es: seq<ZipEntry>, name: string): seq<ZipEntry> { Filter(es, OtherThan(name)) }

  /** Replaces whatever has the (normalized) name and sorts the package by name. */
  function Upsert(h: Host, es: seq<ZipEntry>, name: string, data: Bytes): seq<ZipEntry> {
    Sort(h.collates, NameOf(), Without(es, name) + [ZipEntry(name, data)])
  }

  /** What an upsert does to entries that the collation leaves in either order: the new one goes behind them. */
  lemma UpsertFiltered(h: Host, es: seq<ZipEntry>, name: string, data: Bytes, p: ZipEntry -> bool)
    requires AllTie(h.collates, NameOf(), p)
    ensures Filter(Upsert(h, es, name, data), p) == Filter(es, Both(OtherThan(name), p)) + Filter([ZipEntry(name, data)], p)
  {
    var e := ZipEntry(name, data);
    SortStable(h.collates, NameOf(), p, Without(es, name) + [e]);
    FilterConcat(Without(es, name), [e], p);
    FilterTwice(es, OtherThan(name), p);
  }

  lemma OneNameTies(h: Host, name: string)
    requires TotalPreorder(h.collates)
    ensures AllTie(h.collates, NameOf(), HasName(name))
  {}

  /** After an upsert the name has exactly the new contents, and every other name exactly its old ones. */
  lemma UpsertNamed(h: Host, es: seq<ZipEntry>, name: string, data: Bytes, other: string)
    requires TotalPreorder(h.collates)
    ensures Named(Upsert(h, es, name, data), other) == if other == name then [ZipEntry(name, data)] else Named(es, other)
  {
    OneNameTies(h, other);
    UpsertFiltered(h, es, name, data, HasName(other));
    FilterOne(ZipEntry(name, data), HasName(other));
    if other == name {
      FilterNone(es, Both(OtherThan(name), HasName(other)));
    } else {
      FilterAlike(es, Both(OtherThan(name), HasName(other)), HasName(other));
    }
  }

  lemma {:induction false} NamedNonempty(es: seq<ZipEntry>, name: string)
    ensures HasEntry(es, name) <==> Named(es, name) != []
    ensures forall i :: 0 <= i < |Named(es, name)| ==> Named(es, name)[i].name == name
  {
    if es != [] {
      var n := |es| - 1;
      NamedNonempty(es[..n], name);
      if HasEntry(es, name) {
        var i :| 0 <= i < |es| && es[i].name == name;
        assert i < n ==> es[..n][i].name == name;
      }
      if HasEntry(es[..n], name) {
        var i :| 0 <= i < n && es[..n][i].name == name;
        assert es[i].name == name;
      }
    }
  }

  /** The first entry of a name, as the source's `find` returns it. */
  function Find(es: seq<ZipEntry>, name: string): Option<Bytes> {
    if es == [] then None
    else if es[0].name == name then Some(es[0].data)
    else Find(es[1..], name)
  }

  lemma {:induction false} FindIsFirstNamed(es: seq<ZipEntry>, name: string)
    ensures Find(es, name) == if Named(es, name) == [] then None else Some(Named(es, name)[0].data)
  {
    if es != [] {
      FindIsFirstNamed(es[1..], name);
      FilterConcat([es[0]], es[1..], HasName(name));
      assert es == [es[0]] + es[1..];
      FilterOne(es[0], HasName(name));
    }
  }

  // ---- XML

  function ReplaceAll(s: string, c: char, text: string): string {
    if s == "" then "" else (if s[0] == c then text else [s[0]]) + ReplaceAll(s[1..], c, text)
  }

  function EscapeXml(s: string): string {
    ReplaceAll(ReplaceAll(ReplaceAll(ReplaceAll(s, '&', "&amp;"), '<', "&lt;"), '>', "&gt;"), '"', "&quot;")
  }

  lemma {:induction false} ReplaceAbsent(s: string, c: char, text: string)
    requires c !in s
    ensures ReplaceAll(s, c, text) == s
  {
    if s != "" {
      ReplaceAbsent(s[1..], c, text);
    }
  }

  lemma {:induction false} ReplaceLeavesOut(s: string, c: char, text: string, x: char)
    requires x !in s && x !in text
    ensures x !in ReplaceAll(s, c, text)
  {
    if s != "" {
      ReplaceLeavesOut(s[1..], c, text, x);
    }
  }

  lemma EscapePlain(s: string)
    requires '&' !in s && '<' !in s && '>' !in s && '"' !in s
    ensures EscapeXml(s) == s
  {
    ReplaceAbsent(s, '&', "&amp;");
    ReplaceAbsent(s, '<', "&lt;");
    ReplaceAbsent(s, '>', "&gt;");
    ReplaceAbsent(s, '"', "&quot;");
  }

  lemma EscapeLeavesOutColon(s: string)
    requires ':' !in s
    ensures ':' !in EscapeXml(s)
  {
    var s1 := ReplaceAll(s, '&', "&amp;");
    var s2 := ReplaceAll(s1, '<', "&lt;");
    var s3 := ReplaceAll(s2, '>', "&gt;");
    ReplaceLeavesOut(s, '&', "&amp;", ':');
    ReplaceLeavesOut(s1, '<', "&lt;", ':');
    ReplaceLeavesOut(s2, '>', "&gt;", ':');
    ReplaceLeavesOut(s3, '"', "&quot;", ':');
  }

  function Tag(h: Host, id: string): string {
    MARKER_PREFIX + h.digest(SEAL_VERSION + ":" + id)
  }

  function XmlDeclaration(): string { "<?xml version=\"1.0\" encoding=\"UTF-8\"?>\n" }

  function PackageHead(): string {
    XmlDeclaration() + "<tancmarkAiSeal version=\"" + EscapeXml(SEAL_VERSION) + "\" role=\"" + EscapeXml(DECISION_ROLE)
    + "\">\n  <exactIdTag>"
  }

  function PackageTail(): string {
    "</exactIdTag>\n" + "  <vault>false</vault>\n" + "  <final>false</final>\n" + "</tancmarkAiSeal>"
  }

  function PackageXml(tag: string): string {
    PackageHead() + EscapeXml(tag) + PackageTail()
  }

  function PropertyHead(): string {
    XmlDeclaration() + "<tancmarkDocxAiProperty version=\"" + EscapeXml(SEAL_VERSION) + "\">\n  <exactIdTag>"
  }

  function PropertyTail(): string {
    "</exactIdTag>\n" + "  <visibleDocumentTextMutated>" + "false" + "</visibleDocumentTextMutated>\n"
    + "</tancmarkDocxAiProperty>"
  }

  function PropertyXml(tag: string): string {
    PropertyHead() + EscapeXml(tag) + PropertyTail()
  }

  lemma DeclarationHasNoColon()
    ensures ':' !in XmlDeclaration()
  {}

  lemma PackageHeadHasNoColon()
    ensures ':' !in PackageHead()
  {
    hide EscapeXml;
    hide XmlDeclaration;
    DeclarationHasNoColon();
    EscapeLeavesOutColon(SEAL_VERSION);
    EscapeLeavesOutColon(DECISION_ROLE);
  }

  lemma PropertyHeadHasNoColon()
    ensures ':' !in PropertyHead()
  {
    hide EscapeXml;
    hide XmlDeclaration;
    DeclarationHasNoColon();
    EscapeLeavesOutColon(SEAL_VERSION);
  }

  lemma PackageTailHasNoColon()
    ensures ':' !in PackageTail()
  {}

  lemma PropertyTailHasNoColon()
    ensures ':' !in PropertyTail()
  {}

  predicate Plain(s: string) { '&' !in s && '<' !in s && '>' !in s && '"' !in s }

  lemma PrefixIsPlain()
    ensures Plain(MARKER_PREFIX)
  {}

  lemma HexIsPlain(hex: string)
    requires forall i :: 0 <= i < |hex| ==> IsHexDigit(hex[i])
    ensures Plain(hex) && ':' !in hex
  {}

  lemma TagIsPlain(h: Host, id: string)
    requires LawfulHost(h)
    ensures EscapeXml(Tag(h, id)) == Tag(h, id)
  {
    hide EscapeXml;
    PrefixIsPlain();
    HexIsPlain(h.digest(SEAL_VERSION + ":" + id));
    EscapePlain(Tag(h, id));
  }

  /** The one colon of a marker part pins any tag found in it to the tag written there. */
  lemma OnlyOwnTag(head: string, prefix: string, hex: string, tail: string, hex': string)
    requires ':' !in head && ':' !in tail && ':' !in hex && |hex| == |hex'|
    requires prefix != "" && prefix[|prefix| - 1] == ':' && ':' !in prefix[..|prefix| - 1]
    ensures Contains(head + (prefix + hex) + tail, prefix + hex') <==> hex == hex'
  {
    var s, own, other := head + (prefix + hex) + tail, prefix + hex, prefix + hex';
    ContainsIff(s, other);
    AtWithin(head, own, tail, other, 0);
    if Contains(s, other) {
      var i: nat :| At(s, other, i);
      var c := |prefix| - 1;
      assert other[c] == ':';
      assert s[i..i + |other|] == other;
      assert s[i + c] == s[i..i + |other|][c];
      ColonPlace(head, prefix, hex, tail, i + c);
      assert s[|head|..|head| + |own|] == own;
      assert hex == own[|prefix|..] && hex' == other[|prefix|..];
    }
  }

  lemma ColonPlace(head: string, prefix: string, hex: string, tail: string, i: nat)
    requires ':' !in head && ':' !in tail && ':' !in hex
    requires prefix != "" && ':' !in prefix[..|prefix| - 1]
    requires i < |head + (prefix + hex) + tail|
    ensures (head + (prefix + hex) + tail)[i] == ':' ==> i == |head| + |prefix| - 1
  {
    var j := i - |head|;
    assert 0 <= j < |prefix| - 1 ==> prefix[j] == prefix[..|prefix| - 1][j];
  }

  lemma PrefixColon()
    ensures MARKER_PREFIX[|MARKER_PREFIX| - 1] == ':' && ':' !in MARKER_PREFIX[..|MARKER_PREFIX| - 1]
  {}

  lemma MarkersNameOwnTag(h: Host, id: string, id': string)
    requires LawfulHost(h)
    ensures Contains(PackageXml(Tag(h, id)), Tag(h, id')) <==> Tag(h, id) == Tag(h, id')
    ensures Contains(PropertyXml(Tag(h, id)), Tag(h, id')) <==> Tag(h, id) == Tag(h, id')
  {
    hide EscapeXml;
    hide PackageHead;
    hide PropertyHead;
    hide PackageTail;
    hide PropertyTail;
    hide Contains;
    var hex, hex' := h.digest(SEAL_VERSION + ":" + id), h.digest(SEAL_VERSION + ":" + id');
    TagIsPlain(h, id);
    HexIsPlain(hex);
    PackageHeadHasNoColon();
    PropertyHeadHasNoColon();
    PackageTailHasNoColon();
    PropertyTailHasNoColon();
    PrefixColon();
    assert hex == Tag(h, id)[|MARKER_PREFIX|..] && hex' == Tag(h, id')[|MARKER_PREFIX|..];
    OnlyOwnTag(PackageHead(), MARKER_PREFIX, hex, PackageTail(), hex');
    OnlyOwnTag(PropertyHead(), MARKER_PREFIX, hex, PropertyTail(), hex');
  }

  // ---- Content types

  function ReplaceFirst(s: string, pat: string, text: string): string {
    match IndexOf(s, pat, 0)
    case None => s
    case Some(i) => if i + |pat| <= |s| then s[..i] + text + s[i + |pat|..] else s
  }

  const TYPES_END := "</Types>"

  function PartAttribute(part: string): string { "PartName=\"/" + part + "\"" }

  function OverrideElement(part: string): string {
    "<Override " + PartAttribute(part) + " ContentType=\"application/xml\"/>"
  }

  function Declare(xml: string, part: string): string {
    if Contains(xml, PartAttribute(part)) then xml
    else ReplaceFirst(xml, TYPES_END, OverrideElement(part) + TYPES_END)
  }

  function EnsureContentTypes(xml: string): string {
    Declare(Declare(xml, PACKAGE_MARKER), PROPERTY_MARKER)
  }

  predicate Declares(xml: string, part: string) { Contains(xml, PartAttribute(part)) }

  /** Text inserted before a tag opener breaks no occurrence of an attribute. */
  lemma InsertKeeps(s: string, i: nat, x: string, pat: string)
    requires i < |s| && s[i] == '<' && '<' !in pat
    ensures Contains(s, pat) ==> Contains(s[..i] + x + s[i..], pat)
  {
    var t := s[..i] + x + s[i..];
    ContainsIff(s, pat);
    ContainsIff(t, pat);
    if Contains(s, pat) {
      var k: nat :| At(s, pat, k);
      assert forall j :: 0 <= j < |pat| ==> s[k + j] == pat[j];
      if k + |pat| <= i {
        assert t[k..k + |pat|] == s[k..k + |pat|];
        assert At(t, pat, k);
      } else {
        assert t[k + |x|..k + |x| + |pat|] == s[k..k + |pat|];
        assert At(t, pat, k + |x|);
      }
    }
  }

  lemma InsertHolds(a: string, x: string, b: string, pat: string)
    requires Contains(x, pat)
    ensures Contains(a + x + b, pat)
  {
    ContainsIff(x, pat);
    ContainsIff(a + x + b, pat);
    var k: nat :| At(x, pat, k);
    AtWithin(a, x, b, pat, k);
  }

  /** Where the closing tag is, the element goes in front of it; nowhere else is anything changed. */
  lemma ReplaceFirstInserts(s: string, end: string, x: string)
    ensures !Contains(s, end) ==> ReplaceFirst(s, end, x + end) == s
    ensures Contains(s, end) ==> exists i :: 0 <= i <= |s| && At(s, end, i) && ReplaceFirst(s, end, x + end) == s[..i] + x + s[i..]
  {
    IndexOfFirst(s, end, 0);
    match IndexOf(s, end, 0) {
      case None =>
      case Some(i) =>
        assert s[i..] == end + s[i + |end|..];
        assert s[..i] + (x + end) + s[i + |end|..] == s[..i] + x + s[i..];
    }
  }

  lemma ElementDeclares(part: string)
    ensures Declares(OverrideElement(part), part)
  {
    hide Contains;
    var a := PartAttribute(part);
    assert At(a, a, 0);
    ContainsIff(a, a);
    InsertHolds("<Override ", a, " ContentType=\"application/xml\"/>", a);
  }

  lemma DeclareLaws(xml: string, part: string, other: string)
    requires '<' !in PartAttribute(part) && '<' !in PartAttribute(other)
    ensures Declares(Declare(xml, part), part) <==> Declares(xml, part) || Contains(xml, TYPES_END)
    ensures Contains(Declare(xml, part), TYPES_END) <==> Contains(xml, TYPES_END)
    ensures !Contains(xml, TYPES_END) ==> Declare(xml, part) == xml
    ensures Declares(xml, other) ==> Declares(Declare(xml, part), other)
  {
    hide Contains;
    hide PartAttribute;
    hide ReplaceFirst;
    if !Declares(xml, part) {
      var x := OverrideElement(part);
      ReplaceFirstInserts(xml, TYPES_END, x);
      if Contains(xml, TYPES_END) {
        var i :| 0 <= i <= |xml| && At(xml, TYPES_END, i)
                 && ReplaceFirst(xml, TYPES_END, x + TYPES_END) == xml[..i] + x + xml[i..];
        assert xml[i..i + |TYPES_END|][0] == '<';
        ElementDeclares(part);
        InsertHolds(xml[..i], x, xml[i..], PartAttribute(part));
        InsertKeeps(xml, i, x, PartAttribute(other));
        EndStays(xml, i, x);
      }
    }
  }

  lemma EndStays(xml: string, i: nat, x: string)
    requires i <= |xml| && At(xml, TYPES_END, i)
    ensures Contains(xml[..i] + x + xml[i..], TYPES_END)
  {
    var t := xml[..i] + x + xml[i..];
    ContainsIff(t, TYPES_END);
    assert t[i + |x|..i + |x| + |TYPES_END|] == xml[i..i + |TYPES_END|];
    assert At(t, TYPES_END, i + |x|);
  }

  lemma MarkerAttributes()
    ensures '<' !in PartAttribute(PACKAGE_MARKER) && '<' !in PartAttribute(PROPERTY_MARKER)
  {}

  /** Both parts end up declared unless the closing tag is missing, and a second pass changes nothing. */
  lemma ContentTypesLaws(xml: string)
    ensures var out := EnsureContentTypes(xml);
            && (Declares(out, PACKAGE_MARKER) <==> Declares(xml, PACKAGE_MARKER) || Contains(xml, TYPES_END))
            && (Declares(out, PROPERTY_MARKER) <==> Declares(xml, PROPERTY_MARKER) || Contains(xml, TYPES_END))
            && EnsureContentTypes(out) == out
  {
    hide Contains;
    hide PartAttribute;
    hide ReplaceFirst;
    MarkerAttributes();
    var mid := Declare(xml, PACKAGE_MARKER);
    var out := Declare(mid, PROPERTY_MARKER);
    DeclareLaws(xml, PACKAGE_MARKER, PROPERTY_MARKER);
    DeclareLaws(mid, PROPERTY_MARKER, PACKAGE_MARKER);
    DeclareLaws(out, PACKAGE_MARKER, PROPERTY_MARKER);
    DeclareLaws(out, PROPERTY_MARKER, PACKAGE_MARKER);
  }

  // ---- Sealing and reading

  function SealedEntries(h: Host, es: seq<ZipEntry>, types: Bytes, id: string): seq<ZipEntry> {
    var tag := Tag(h, id);
    Upsert(h,
           Upsert(h,
                  Upsert(h, es, PACKAGE_MARKER, h.zip.encode(PackageXml(tag))),
                  PROPERTY_MARKER, h.zip.encode(PropertyXml(tag))),
           CONTENT_TYPES, h.zip.encode(EnsureContentTypes(h.zip.decode(types))))
  }

  function Sealed(h: Host, docx: Bytes, id: string): Result<Bytes, SealError> {
    match OpenPackage(h, docx, id)
    case Err(e) => Err(e)
    case Ok(es) =>
      match Find(es, CONTENT_TYPES)
      case None => Err(UnsupportedPackage)
      case Some(types) =>
        var parts := PackAll(h.zip, SealedEntries(h, es, types, id));
        if FitsArchive(parts) then Ok(Archive(parts)) else Err(BadZip(OutOfRange))
  }

  datatype Evidence = Evidence(found: bool, weakSignal: bool, confidencePercent: nat)

  function Classify(packageMarker: bool, propertyMarker: bool): Evidence {
    var found := packageMarker && propertyMarker;
    var weak := !found && (packageMarker || propertyMarker);
    Evidence(found, weak, if found then 100 else if weak then 50 else 0)
  }

  function EntryContains(h: Host, es: seq<ZipEntry>, name: string, text: string): bool {
    match Find(es, name)
    case None => false
    case Some(data) => Contains(h.zip.decode(data), text)
  }

  function ReadSeal(h: Host, docx: Bytes, id: string): Result<Evidence, SealError> {
    match OpenPackage(h, docx, id)
    case Err(e) => Err(e)
    case Ok(es) =>
      var tag := Tag(h, id);
      Ok(Classify(EntryContains(h, es, PACKAGE_MARKER, tag), EntryContains(h, es, PROPERTY_MARKER, tag)))
  }

  // ---- What sealing does to a package

  lemma {:induction false} WithoutFiles(es: seq<ZipEntry>, name: string)
    requires AllFiles(es)
    ensures AllFiles(Without(es, name))
  {
    if es != [] {
      WithoutFiles(es[..|es| - 1], name);
    }
  }

  lemma UpsertFiles(h: Host, es: seq<ZipEntry>, name: string, data: Bytes)
    requires AllFiles(es) && IsNormalized(name) && !IsDirectoryName(name)
    ensures AllFiles(Upsert(h, es, name, data)) && Upsert(h, es, name, data) != []
  {
    hide IsNormalized;
    hide IsDirectoryName;
    var all := Without(es, name) + [ZipEntry(name, data)];
    WithoutFiles(es, name);
    SortPermutes(h.collates, NameOf(), all);
    var r := Upsert(h, es, name, data);
    forall i | 0 <= i < |r|
      ensures IsNormalized(r[i].name) && !IsDirectoryName(r[i].name)
    {
      assert r[i] in multiset(all);
      assert r[i] in all;
    }
  }

  lemma PackageMarkerIsFile()
    ensures IsNormalized(PACKAGE_MARKER) && !IsDirectoryName(PACKAGE_MARKER)
  {}

  lemma PropertyMarkerIsFile()
    ensures IsNormalized(PROPERTY_MARKER) && !IsDirectoryName(PROPERTY_MARKER)
  {}

  lemma ContentTypesIsFile()
    ensures IsNormalized(CONTENT_TYPES) && !IsDirectoryName(CONTENT_TYPES)
  {}

  lemma PartNamesDiffer()
    ensures PACKAGE_MARKER != PROPERTY_MARKER && PACKAGE_MARKER != CONTENT_TYPES && PROPERTY_MARKER != CONTENT_TYPES
    ensures WORD_DOCUMENT != PACKAGE_MARKER && WORD_DOCUMENT != PROPERTY_MARKER && WORD_DOCUMENT != CONTENT_TYPES
  {
    assert PACKAGE_MARKER[0] == 'c' && PROPERTY_MARKER[0] == 'd' && CONTENT_TYPES[0] == '[' && WORD_DOCUMENT[0] == 'w';
  }

  /** The three parts are rewritten; the entries of every other name are what they were, in their order. */
  lemma SealedParts(h: Host, es: seq<ZipEntry>, types: Bytes, id: string, name: string)
    requires TotalPreorder(h.collates)
    ensures var tag := Tag(h, id);
            Named(SealedEntries(h, es, types, id), name) ==
            if name == PACKAGE_MARKER then [ZipEntry(name, h.zip.encode(PackageXml(tag)))]
            else if name == PROPERTY_MARKER then [ZipEntry(name, h.zip.encode(PropertyXml(tag)))]
            else if name == CONTENT_TYPES then [ZipEntry(name, h.zip.encode(EnsureContentTypes(h.zip.decode(types))))]
            else Named(es, name)
  {
    hide Upsert;
    hide Named;
    hide PackageXml;
    hide PropertyXml;
    hide EnsureContentTypes;
    hide Tag;
    var tag := Tag(h, id);
    var a := h.zip.encode(PackageXml(tag));
    var b := h.zip.encode(PropertyXml(tag));
    var c := h.zip.encode(EnsureContentTypes(h.zip.decode(types)));
    var one := Upsert(h, es, PACKAGE_MARKER, a);
    var two := Upsert(h, one, PROPERTY_MARKER, b);
    PartNamesDiffer();
    UpsertNamed(h, es, PACKAGE_MARKER, a, name);
    UpsertNamed(h, one, PROPERTY_MARKER, b, name);
    UpsertNamed(h, two, CONTENT_TYPES, c, name);
  }

  lemma OpenedIsFiles(h: Host, docx: Bytes, id: string)
    requires OpenPackage(h, docx, id).Ok?
    ensures AllFiles(OpenPackage(h, docx, id).value)
  {
    hide ReadStep;
    var end := FindEndFrom(docx, |docx| - 22);
    if end.Some? {
      WalkListsFiles(h.zip, docx, GetLE32(docx, end.value + 16), GetLE16(docx, end.value + 10));
    }
  }

  lemma SealedIsOpenable(h: Host, es: seq<ZipEntry>, types: Bytes, id: string)
    requires TotalPreorder(h.collates) && Openable(es)
    ensures Openable(SealedEntries(h, es, types, id))
  {
    hide SealedEntries;
    hide Named;
    hide HasEntry;
    hide PackageXml;
    hide PropertyXml;
    hide EnsureContentTypes;
    var out := SealedEntries(h, es, types, id);
    PartNamesDiffer();
    SealedParts(h, es, types, id, CONTENT_TYPES);
    SealedParts(h, es, types, id, WORD_DOCUMENT);
    NamedNonempty(es, WORD_DOCUMENT);
    NamedNonempty(out, WORD_DOCUMENT);
    NamedNonempty(out, CONTENT_TYPES);
  }

  lemma SealedIsFiles(h: Host, es: seq<ZipEntry>, types: Bytes, id: string)
    requires AllFiles(es)
    ensures AllFiles(SealedEntries(h, es, types, id)) && SealedEntries(h, es, types, id) != []
  {
    hide Upsert;
    hide AllFiles;
    hide IsNormalized;
    hide IsDirectoryName;
    hide PackageXml;
    hide PropertyXml;
    hide EnsureContentTypes;
    var tag := Tag(h, id);
    var one := Upsert(h, es, PACKAGE_MARKER, h.zip.encode(PackageXml(tag)));
    var two := Upsert(h, one, PROPERTY_MARKER, h.zip.encode(PropertyXml(tag)));
    PackageMarkerIsFile();
    PropertyMarkerIsFile();
    ContentTypesIsFile();
    UpsertFiles(h, es, PACKAGE_MARKER, h.zip.encode(PackageXml(tag)));
    UpsertFiles(h, one, PROPERTY_MARKER, h.zip.encode(PropertyXml(tag)));
    UpsertFiles(h, two, CONTENT_TYPES, h.zip.encode(EnsureContentTypes(h.zip.decode(types))));
  }

  /** What a successful sealing leaves behind: a package of exactly the sealed entries. */
  lemma SealedReadsBack(h: Host, docx: Bytes, id: string, es: seq<ZipEntry>, types: Bytes)
    requires LawfulHost(h) && OpenPackage(h, docx, id) == Ok(es) && Find(es, CONTENT_TYPES) == Some(types)
    ensures var out := SealedEntries(h, es, types, id);
            && AllFiles(out) && out != [] && Openable(out)
            && (Sealed(h, docx, id).Ok? ==> ReadArchive(h.zip, Sealed(h, docx, id).value) == Ok(out))
  {
    hide ReadArchive;
    hide SealedEntries;
    hide Archive;
    hide AllFiles;
    hide Openable;
    hide SafeId;
    hide SafeSize;
    OpenedIsFiles(h, docx, id);
    SealedIsFiles(h, es, types, id);
    SealedIsOpenable(h, es, types, id);
    FilesRoundTrip(h.zip, SealedEntries(h, es, types, id));
  }

  /**
    * Sealing keeps every other part: a sealed package reads back with the three parts rewritten and the entries
    * of any other name exactly as they were.
    */
  lemma SealKeepsOtherParts(h: Host, docx: Bytes, id: string, es: seq<ZipEntry>, out: Bytes, name: string)
    requires LawfulHost(h) && OpenPackage(h, docx, id) == Ok(es) && Sealed(h, docx, id) == Ok(out)
    requires name != PACKAGE_MARKER && name != PROPERTY_MARKER && name != CONTENT_TYPES
    ensures ReadArchive(h.zip, out).Ok? && Named(ReadArchive(h.zip, out).value, name) == Named(es, name)
  {
    hide ReadArchive;
    hide Archive;
    hide SealedEntries;
    hide Named;
    hide Openable;
    hide SafeId;
    hide Tag;
    hide PackageXml;
    hide PropertyXml;
    hide EnsureContentTypes;
    var types := Find(es, CONTENT_TYPES).value;
    SealedReadsBack(h, docx, id, es, types);
    SealedParts(h, es, types, id, name);
  }

  lemma MarkerReads(h: Host, es: seq<ZipEntry>, types: Bytes, id: string, id': string)
    requires LawfulHost(h)
    ensures var out := SealedEntries(h, es, types, id);
            && EntryContains(h, out, PACKAGE_MARKER, Tag(h, id')) == (Tag(h, id) == Tag(h, id'))
            && EntryContains(h, out, PROPERTY_MARKER, Tag(h, id')) == (Tag(h, id) == Tag(h, id'))
  {
    hide SealedEntries;
    hide Tag;
    hide PackageXml;
    hide PropertyXml;
    hide Named;
    hide Contains;
    var out := SealedEntries(h, es, types, id);
    SealedParts(h, es, types, id, PACKAGE_MARKER);
    SealedParts(h, es, types, id, PROPERTY_MARKER);
    FindIsFirstNamed(out, PACKAGE_MARKER);
    FindIsFirstNamed(out, PROPERTY_MARKER);
    PartNamesDiffer();
    MarkersNameOwnTag(h, id, id');
  }

  /**
    * Reading a sealed package finds an id exactly if that id has the tag of the sealing one, and never
    * leaves a weak signal; only a package grown over the size limit is refused.
    */
  lemma SealThenRead(h: Host, docx: Bytes, id: string, id': string, out: Bytes)
    requires LawfulHost(h) && Sealed(h, docx, id) == Ok(out) && SafeId(id')
    ensures ReadSeal(h, out, id') ==
            if !SafeSize(out) then Err(UnsafeSize)
            else if Tag(h, id) == Tag(h, id') then Ok(Evidence(true, false, 100))
            else Ok(Evidence(false, false, 0))
  {
    hide ReadArchive;
    hide Archive;
    hide Tag;
    hide SealedEntries;
    hide EntryContains;
    hide SafeSize;
    hide SafeId;
    hide Openable;
    var es := OpenPackage(h, docx, id).value;
    var types := Find(es, CONTENT_TYPES).value;
    SealedReadsBack(h, docx, id, es, types);
    MarkerReads(h, es, types, id, id');
  }

  /** The three parts a sealing writes. */
  function NewParts(h: Host, types: Bytes, id: string): seq<ZipEntry> {
    [ZipEntry(PACKAGE_MARKER, h.zip.encode(PackageXml(Tag(h, id)))),
     ZipEntry(PROPERTY_MARKER, h.zip.encode(PropertyXml(Tag(h, id)))),
     ZipEntry(CONTENT_TYPES, h.zip.encode(EnsureContentTypes(h.zip.decode(types))))]
  }

  function OtherPart(): ZipEntry -> bool {
    (e: ZipEntry) => e.name != PACKAGE_MARKER && e.name != PROPERTY_MARKER && e.name != CONTENT_TYPES
  }

  /** Among entries the collation leaves in either order, the new parts follow the others in the order of writing. */
  lemma SealedFiltered(h: Host, es: seq<ZipEntry>, types: Bytes, id: string, p: ZipEntry -> bool)
    requires AllTie(h.collates, NameOf(), p)
    ensures Filter(SealedEntries(h, es, types, id), p) ==
            Filter(es, Both(OtherPart(), p)) + Filter(NewParts(h, types, id), p)
  {
    hide Tag, PackageXml, PropertyXml, EnsureContentTypes, Upsert, Filter;
    var parts := NewParts(h, types, id);
    var a, b, c := parts[0], parts[1], parts[2];
    var one := Upsert(h, es, a.name, a.data);
    var two := Upsert(h, one, b.name, b.data);
    PartNamesDiffer();
    var q := Both(OtherThan(c.name), p);
    var r := Both(OtherThan(b.name), q);
    UpsertFiltered(h, two, c.name, c.data, p);
    UpsertFiltered(h, one, b.name, b.data, q);
    UpsertFiltered(h, es, a.name, a.data, r);
    FilterAlike(es, Both(OtherThan(a.name), r), Both(OtherPart(), p));
    FilterAlike([a], r, p);
    FilterAlike([b], q, p);
    assert parts == [a] + [b] + [c];
    FilterConcat([a], [b], p);
    FilterConcat([a] + [b], [c], p);
  }

  lemma NewPartsAreNotOthers(h: Host, types: Bytes, id: string, p: ZipEntry -> bool)
    ensures Filter(NewParts(h, types, id), Both(OtherPart(), p)) == []
  {
    hide Tag, PackageXml, PropertyXml, EnsureContentTypes;
    FilterNone(NewParts(h, types, id), Both(OtherPart(), p));
  }

  /** A second sealing with the same id arranges the same parts in the same way. */
  lemma SealedEntriesStay(h: Host, es: seq<ZipEntry>, types: Bytes, types': Bytes, id: string)
    requires TotalPreorder(h.collates) && NewParts(h, types', id) == NewParts(h, types, id)
    ensures SealedEntries(h, SealedEntries(h, es, types, id), types', id) == SealedEntries(h, es, types, id)
  {
    hide NewParts, SealedEntries, Filter;
    var once := SealedEntries(h, es, types, id);
    var twice := SealedEntries(h, once, types', id);
    forall k
      ensures Filter(once, TiesWith(h.collates, NameOf(), k)) == Filter(twice, TiesWith(h.collates, NameOf(), k))
    {
      var p := TiesWith(h.collates, NameOf(), k);
      TiedAllTie(h.collates, NameOf(), k);
      SealedFiltered(h, es, types, id, p);
      SealedFiltered(h, once, types', id, p);
      SealedFiltered(h, es, types, id, Both(OtherPart(), p));
      FilterAlike(es, Both(OtherPart(), Both(OtherPart(), p)), Both(OtherPart(), p));
      NewPartsAreNotOthers(h, types, id, p);
    }
    SealedIsSorted(h, es, types, id);
    SealedIsSorted(h, once, types', id);
    SortedUnique(h.collates, NameOf(), once, twice);
  }

  /** Sealing a sealed package again with its own id gives it back byte for byte, whatever names the collation ties. */
  lemma SealTwice(h: Host, docx: Bytes, id: string, out: Bytes)
    requires LawfulHost(h) && Sealed(h, docx, id) == Ok(out) && SafeSize(out)
    ensures Sealed(h, out, id) == Ok(out)
  {
    hide ReadArchive;
    hide Archive;
    hide Tag;
    hide Upsert;
    hide Named;
    hide SafeSize;
    hide SafeId;
    hide EnsureContentTypes;
    hide PackageXml;
    hide PropertyXml;
    hide Openable;
    var es := OpenPackage(h, docx, id).value;
    var types := Find(es, CONTENT_TYPES).value;
    var once := SealedEntries(h, es, types, id);
    SealedReadsBack(h, docx, id, es, types);
    var types' := h.zip.encode(EnsureContentTypes(h.zip.decode(types)));
    PartNamesDiffer();
    SealedParts(h, es, types, id, CONTENT_TYPES);
    FindIsFirstNamed(once, CONTENT_TYPES);
    assert Find(once, CONTENT_TYPES) == Some(types');
    ContentTypesLaws(h.zip.decode(types));
    SealedEntriesStay(h, es, types, types', id);
  }

  lemma SealedIsSorted(h: Host, es: seq<ZipEntry>, types: Bytes, id: string)
    requires TotalPreorder(h.collates)
    ensures Sorted(h.collates, NameOf(), SealedEntries(h, es, types, id))
  {
    hide PackageXml;
    hide PropertyXml;
    hide EnsureContentTypes;
    var tag := Tag(h, id);
    var two := Upsert(h, Upsert(h, es, PACKAGE_MARKER, h.zip.encode(PackageXml(tag))),
                      PROPERTY_MARKER, h.zip.encode(PropertyXml(tag)));
    var e := ZipEntry(CONTENT_TYPES, h.zip.encode(EnsureContentTypes(h.zip.decode(types))));
    SortSorts(h.collates, NameOf(), Without(two, CONTENT_TYPES) + [e]);
  }

  // ---- The code

  method ReadDocxPackage(h: Host, docx: Bytes, id: string) returns (r: Result<seq<ZipEntry>, SealError>)
    ensures r == OpenPackage(h, docx, id)
  {
    hide ReadArchive;
    if !FlagEnabled(h) {
      return Err(FlagDisabled);
    }
    if !SafeId(id) {
      return Err(InvalidId);
    }
    if !SafeSize(docx) {
      return Err(UnsafeSize);
    }
    var entries := ReadZipEntries(h.zip, docx);
    match entries {
      case Err(e) => return Err(BadZip(e));
      case Ok(es) =>
        if es == [] {
          return Err(EmptyPackage);
        }
        if !Openable(es) {
          return Err(UnsupportedPackage);
        }
        return Ok(es);
    }
  }

  method SealDocxAiDocument(h: Host, docx: Bytes, id: string) returns (r: Result<Bytes, SealError>)
    requires LawfulHost(h)
    ensures r == Sealed(h, docx, id)
  {
    hide OpenPackage;
    hide Archive;
    hide SealedEntries;
    hide Find;
    hide WellWritten, UnsafeFirst;
    var package := ReadDocxPackage(h, docx, id);
    if package.Err? {
      return Err(package.error);
    }
    var types := Find(package.value, CONTENT_TYPES);
    if types.None? {
      return Err(UnsupportedPackage);
    }
    var next := SealedEntries(h, package.value, types.value, id);
    SealedReadsBack(h, docx, id, package.value, types.value);
    FilesRoundTrip(h.zip, next);
    NoUnsafeName(h.zip, next);
    var written := WriteZipEntries(h.zip, next);
    match written {
      case Ok(out) => r := Ok(out);
      case Err(e) => r := Err(BadZip(e));
    }
  }

  method ReadDocxAiSeal(h: Host, docx: Bytes, id: string) returns (r: Result<Evidence, SealError>)
    ensures r == ReadSeal(h, docx, id)
  {
    hide OpenPackage;
    hide EntryContains;
    var package := ReadDocxPackage(h, docx, id);
    if package.Err? {
      return Err(package.error);
    }
    var tag := Tag(h, id);
    r := Ok(Classify(EntryContains(h, package.value, PACKAGE_MARKER, tag),
                     EntryContains(h, package.value, PROPERTY_MARKER, tag)));
  }
}
